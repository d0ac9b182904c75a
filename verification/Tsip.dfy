/** DLE-framed packets other than EverMore's: Garmin's and TSIP. */
module Tsip {
  import opened Bytes
  import opened Packet
  import opened PacketRuns
  import opened PacketFeed
  import opened DleFrames
  import Sirf

  /** A packet id, stuffed data, DLE ETX. */
  function Frame(id: byte, u: seq<byte>): seq<byte> {
    [DLE, id] + Stuff(u) + [DLE, ETX]
  }

  predicate Ready(l: Lexer) {
    Safe(l) && (l.state == Ground || l.state == TsipRecognized) && l.seen == []
  }

  // ---------- single characters ----------

  lemma DleStep(l: Lexer, c: byte, state: LexState)
    requires l.state == DleLeader || l.state == TsipPayload || l.state == TsipDle || l.state == TsipRecognized
    requires DleNext(l.state, l.length, c) == (state, l.length)
    ensures Leads(l, c, state, l.length)
  {
    TsipFamily();
    FamilyLeads(l, c);
    hide Leads, FamilyOf, DleNext;
  }

  lemma TsipFamily()
    ensures FamilyOf(DleLeader) == Dle && FamilyOf(TsipPayload) == Dle && FamilyOf(TsipDle) == Dle
    ensures FamilyOf(TsipRecognized) == Dle
  {}

  lemma TsipMid()
    ensures Mid(DleLeader) && Mid(TsipPayload) && Mid(TsipDle)
  {}

  /** DLE and the packet id. */
  lemma LeaderRun(l: Lexer, id: byte, rest: seq<byte>)
    requires Ready(l) && id >= 0x13
    ensures var m := Reading(l, TsipPayload, l.length, [DLE, id]); Safe(m) && Run(l, [DLE, id] + rest) == Run(m, rest)
  {
    hide Safe, Leads, Mid, Run;
    TsipMid();
    if l.state == Ground {
      GroundLeads(l);
    } else {
      DleStep(l, DLE, DleLeader);
    }
    QuietRun(l, DLE, DleLeader, l.length, [id] + rest);
    assert [DLE] + ([id] + rest) == [DLE, id] + rest && [] + [DLE] == [DLE];
    var m := Reading(l, DleLeader, l.length, [DLE]);
    DleStep(m, id, TsipPayload);
    QuietRun(m, id, TsipPayload, l.length, rest);
    assert [DLE] + [id] == [DLE, id];
  }

  lemma ByteRun(l: Lexer, b: byte, rest: seq<byte>)
    requires Safe(l) && l.state == TsipPayload
    ensures var m := Reading(l, TsipPayload, l.length, l.seen + Stuff1(b)); Safe(m) && Run(l, Stuff1(b) + rest) == Run(m, rest)
  {
    hide Safe, Leads, Mid, Run;
    TsipMid();
    if b == DLE {
      DleStep(l, DLE, TsipDle);
      QuietRun(l, DLE, TsipDle, l.length, [DLE] + rest);
      assert [DLE] + ([DLE] + rest) == Stuff1(b) + rest;
      var m := Reading(l, TsipDle, l.length, l.seen + [DLE]);
      DleStep(m, DLE, TsipPayload);
      QuietRun(m, DLE, TsipPayload, l.length, rest);
      assert l.seen + [DLE] + [DLE] == l.seen + Stuff1(b);
    } else {
      DleStep(l, b, TsipPayload);
      QuietRun(l, b, TsipPayload, l.length, rest);
    }
  }

  lemma {:induction false} BytesRun(l: Lexer, u: seq<byte>, rest: seq<byte>)
    requires Safe(l) && l.state == TsipPayload
    ensures var m := Reading(l, TsipPayload, l.length, l.seen + Stuff(u)); Safe(m) && Run(l, Stuff(u) + rest) == Run(m, rest)
    decreases |u|
  {
    hide Safe, Run, Stuff, Stuff1;
    if u == [] {
      StuffNothing();
      assert [] + rest == rest && l.seen + [] == l.seen;
    } else {
      StuffFirst(u);
      assert Stuff(u) + rest == Stuff1(u[0]) + (Stuff(u[1..]) + rest);
      ByteRun(l, u[0], Stuff(u[1..]) + rest);
      BytesRun(Reading(l, TsipPayload, l.length, l.seen + Stuff1(u[0])), u[1..], rest);
      assert l.seen + Stuff1(u[0]) + Stuff(u[1..]) == l.seen + Stuff(u);
    }
  }

  /** Up to the last character. */
  lemma BodyRun(l: Lexer, id: byte, u: seq<byte>, rest: seq<byte>)
    requires Ready(l) && id >= 0x13
    ensures var m := Reading(l, TsipDle, l.length, [DLE, id] + Stuff(u) + [DLE]);
            Safe(m) && Run(l, Frame(id, u) + rest) == Run(m, [ETX] + rest)
  {
    hide Safe, Leads, Mid, Run, Stuff;
    TsipMid();
    var end := [DLE] + ([ETX] + rest);
    assert Frame(id, u) + rest == [DLE, id] + (Stuff(u) + end);
    LeaderRun(l, id, Stuff(u) + end);
    var l1 := Reading(l, TsipPayload, l.length, [DLE, id]);
    BytesRun(l1, u, end);
    var l2 := Reading(l, TsipPayload, l.length, [DLE, id] + Stuff(u));
    DleStep(l2, DLE, TsipDle);
    QuietRun(l2, DLE, TsipDle, l.length, [ETX] + rest);
  }

  // ---------- the known packets ----------

  /** The data lengths of the packets known, from and to. */
  const DATA_LENGTHS: map<int, (nat, nat)> := map[
    0x41 := (10, 10), 0x42 := (16, 16), 0x43 := (20, 20), 0x45 := (10, 10), 0x46 := (2, 2), 0x4a := (20, 20),
    0x4b := (3, 3), 0x55 := (4, 4), 0x56 := (20, 20), 0x5c := (24, 26), 0x6d := (16, 28), 0x82 := (1, 1),
    0x84 := (36, 37), 0xbb := (40, 40)]

  lemma {:induction false} NothingToStuff(u: seq<byte>)
    requires DLE !in u
    ensures Stuff(u) == u
    decreases |u|
  {
    if u != [] {
      NothingToStuff(u[..|u| - 1]);
      assert u == u[..|u| - 1] + [u[|u| - 1]];
    }
  }

  /** A frame without a DLE in its data is TSIP's exactly if its data have the length that goes with its id;
      three ids go with any length. */
  lemma KnownLengths(id: byte, u: seq<byte>)
    requires DLE !in u
    ensures
      TsipOk(id, |Frame(id, u)|) <==>
      id == 0x13 || id == 0x8e || id == 0x8f
      || (id in DATA_LENGTHS && DATA_LENGTHS[id].0 <= |u| <= DATA_LENGTHS[id].1)
  {
    NothingToStuff(u);
    hide Stuff;
    assert |Frame(id, u)| == |u| + 4;
  }

  // ---------- the verdict ----------

  /** What becomes of a recognised frame of five bytes or more: Garmin's, unless the last packet was TSIP,
      if length byte and sum are right; else TSIP, if id and frame length go together. */
  function Verdict(kind: PacketType, id: byte, u: seq<byte>): Option<PacketType> {
    if kind != TsipPacket && |u| >= 2 && u[0] == |u| - 2 && (id + Sum(u)) % 256 == 0 then Some(GarminPacket)
    else if TsipOk(id, |Stuff(u)| + 4) then Some(TsipPacket)
    else None
  }

  function Past(l: Lexer, v: Option<PacketType>): Lexer {
    Lexer(if v.Some? then v.value else l.kind, if v.Some? then TsipRecognized else Ground, l.length, l.rtcm, [])
  }

  lemma FrameShape(id: byte, u: seq<byte>)
    ensures var f := Frame(id, u);
            |f| == |Stuff(u)| + 4 && f[0] == DLE && f[1] == id && StuffedFrom(f, 2, u)
  {
    assert Frame(id, u)[2..] == Stuff(u) + [DLE, ETX];
  }

  lemma JudgeIs(kind: PacketType, id: byte, u: seq<byte>)
    requires u != []
    ensures var f := Frame(id, u);
      |f| >= 5 &&
      var v := Verdict(kind, id, u);
      Judge(kind, TsipRecognized, f) == if v.Some? then (Accept(v.value), TsipRecognized) else (Discard, Ground)
  {
    hide NmeaOk, SirfOk, UbxOk, EvermoreOk, GarminOk, TsipOk, Stuff, StuffedFrom, Sum;
    FrameShape(id, u);
    StuffGrows(u);
    GarminMeaning(Frame(id, u), u);
  }

  lemma StuffGrows(u: seq<byte>)
    requires u != []
    ensures |Stuff(u)| >= 1
  {}

  /** Every DLE frame with data is recognised as a whole, and delivered or dropped as the verdict says. */
  lemma FrameRun(l: Lexer, id: byte, u: seq<byte>, rest: seq<byte>)
    requires Ready(l) && id >= 0x13 && u != [] && |Frame(id, u)| < BUFFER_SIZE
    ensures
      var v := Verdict(l.kind, id, u);
      var m := Past(l, v);
      Ready(m) && Run(l, Frame(id, u) + rest) ==
                  (Run(m, rest).0, (if v.Some? then [Delivery(v.value, Frame(id, u))] else []) + Run(m, rest).1)
  {
    hide Safe, Leads, Run, Judge, Stuff, Verdict;
    BodyRun(l, id, u, rest);
    JudgeIs(l.kind, id, u);
    var m := Reading(l, TsipDle, l.length, [DLE, id] + Stuff(u) + [DLE]);
    assert m.seen + [ETX] == Frame(id, u);
    DleStep(m, ETX, TsipRecognized);
    var v := Verdict(l.kind, id, u);
    LastRun(m, ETX, TsipRecognized, l.length, if v.Some? then Accept(v.value) else Discard,
            if v.Some? then TsipRecognized else Ground, rest);
  }

  /** What a stream of frames delivers; an accepted TSIP packet bars Garmin's from then on, until another
      protocol's packet comes between. */
  function Delivered(kind: PacketType, fs: seq<(byte, seq<byte>)>): seq<Delivery>
    decreases |fs|
  {
    if fs == [] then []
    else
      var v := Verdict(kind, fs[0].0, fs[0].1);
      (if v.Some? then [Delivery(v.value, Frame(fs[0].0, fs[0].1))] else [])
      + Delivered(if v.Some? then v.value else kind, fs[1..])
  }

  function OnAir(fs: seq<(byte, seq<byte>)>): seq<byte> {
    if fs == [] then [] else Frame(fs[0].0, fs[0].1) + OnAir(fs[1..])
  }

  lemma {:induction false} TsipStream(l: Lexer, fs: seq<(byte, seq<byte>)>)
    requires Ready(l)
    requires forall k :: 0 <= k < |fs| ==> fs[k].0 >= 0x13 && fs[k].1 != [] && |Frame(fs[k].0, fs[k].1)| < BUFFER_SIZE
    ensures var (m, out) := Run(l, OnAir(fs)); Ready(m) && out == Delivered(l.kind, fs)
    decreases |fs|
  {
    hide Safe, Frame, Verdict;
    if fs == [] {
      assert Run(l, []) == (l, []);
    } else {
      hide Run;
      FrameRun(l, fs[0].0, fs[0].1, OnAir(fs[1..]));
      TsipStream(Past(l, Verdict(l.kind, fs[0].0, fs[0].1)), fs[1..]);
    }
  }

  // ---------- the runt ----------

  /** A frame without data is left in the buffer, and the lexer goes to the ground. */
  lemma RuntRun(l: Lexer, id: byte, rest: seq<byte>)
    requires Ready(l) && id >= 0x13
    ensures var m := Reading(l, Ground, l.length, Frame(id, [])); Safe(m) && Run(l, Frame(id, []) + rest) == Run(m, rest)
  {
    hide Safe, Leads, Run, Stuff;
    StuffNothing();
    BodyRun(l, id, [], rest);
    var m := Reading(l, TsipDle, l.length, [DLE, id] + [] + [DLE]);
    assert m.seen + [ETX] == Frame(id, []);
    DleStep(m, ETX, TsipRecognized);
    ShortRun(m, rest);
  }

  lemma ShortRun(l: Lexer, rest: seq<byte>)
    requires Safe(l) && |l.seen| == 3 && Leads(l, ETX, TsipRecognized, l.length)
    ensures var m := Reading(l, Ground, l.length, l.seen + [ETX]); Safe(m) && Run(l, [ETX] + rest) == Run(m, rest)
  {
    LeadsAdvanced(l, ETX, TsipRecognized, l.length);
    var f := l.seen + [ETX];
    var m := Reading(l, TsipRecognized, l.length, f);
    JudgeUnchecked(l.kind, TsipRecognized, f);
    assert Packet.Verdict(m) == Turn(m.(state := Ground), [], [], false) by {
      hide Judge;
    }
    hide Advanced, Packet.Verdict, Safe, Leads;
    RunTurn(l, [ETX] + rest);
    assert ([ETX] + rest)[1..] == rest && [] + rest == rest;
    assert [] + Run(m.(state := Ground), rest).1 == Run(m.(state := Ground), rest).1;
  }

  /** A runt spoils the SiRF message behind it: the frame is judged with the runt in front, so that the
      sum takes in its leader, and no payload makes up for that. */
  lemma RuntSpoilsMessage(l: Lexer, id: byte, payload: seq<byte>)
    requires Ready(l) && id >= 0x13 && |payload| + 2 <= MAX_PACKET_LENGTH
    ensures Run(l, Frame(id, []) + Sirf.Message(payload)).1 == []
  {
    hide Safe, Run, SirfOk;
    var n := |payload|;
    var message := Sirf.Message(payload);
    RuntRun(l, id, message);
    var m := Reading(l, Ground, l.length, Frame(id, []));
    RuntShort(id);
    Sirf.FrameRunBehind(m, n, Sirf.Body(payload), []);
    assert message + [] == message == Sirf.Frame(n, Sirf.Body(payload));
    SpoiledSum(Frame(id, []), payload);
    var last := Sirf.Past(m, false);
    assert Run(last, []) == (last, []) by {
      RunTurn(last, []);
    }
  }

  lemma RuntShort(id: byte)
    ensures |Frame(id, [])| == 4
  {
    StuffNothing();
  }

  lemma SpoiledSum(runt: seq<byte>, payload: seq<byte>)
    requires |runt| == 4 && |payload| + 2 <= MAX_PACKET_LENGTH
    ensures !SirfOk(runt + Sirf.Message(payload))
  {
    hide Sum;
    var n, f := |payload|, runt + Sirf.Message(payload);
    var leader, sum := Sirf.Leader(n), Sirf.Checksum(payload);
    assert f[4..|f| - 4] == leader + payload;
    assert f[|f| - 4] == sum / 256 && f[|f| - 3] == sum % 256;
    SumConcat(leader, payload);
    LeaderSum(n);
    Shifted(Sum(payload), Sum(leader));
  }

  lemma LeaderSum(n: nat)
    requires n < 0x1_0000
    ensures 0 < Sum(Sirf.Leader(n)) < 0x8000
  {
    var s := Sirf.Leader(n);
    SumFirst(s);
    SumFirst(s[1..]);
    SumFirst(s[1..][1..]);
    SumFirst(s[1..][1..][1..]);
    assert s[1..][1..][1..][1..] == [];
  }

  lemma Shifted(x: nat, d: nat)
    requires 0 < d < 0x8000
    ensures (d + x) % 0x8000 != x % 0x8000
  {}
}
