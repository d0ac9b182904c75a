/** The EverMore writer and reader of evermore.c, joined by the lexer. */
module Evermore {
  import opened Bytes
  import opened Packet
  import opened PacketRuns
  import opened PacketShape
  import opened DleFrames
  import opened PacketFeed

  /** Length byte, payload and sum. */
  function Unstuffed(payload: seq<byte>): (u: seq<byte>)
    ensures |u| == |payload| + 2
  {
    [(|payload| + 2) % 256] + payload + [Sum(payload) % 256]
  }

  function Frame(payload: seq<byte>): seq<byte> {
    Enclosed(Unstuffed(payload))
  }

  /** Two header bytes, then stuffed, then DLE ETX. */
  function Enclosed(u: seq<byte>): seq<byte> {
    [DLE, STX] + Stuff(u) + [DLE, ETX]
  }

  // ---------- the writer ----------

  /** DLE, STX and the length byte. The byte is doubled if the length is 16, which is not the same as the
      byte's being a DLE: lengths above 255 are cut. */
  function Lead(n: nat): (lead: seq<byte>)
    ensures 3 <= |lead| <= 4
  {
    [DLE, STX] + if n + 2 == DLE as int then [DLE, DLE] else [(n + 2) % 256]
  }

  /** The payload and its sum. */
  function Summed(payload: seq<byte>): seq<byte> { payload + [Sum(payload) % 256] }

  /** What evermore_write sends. */
  function Written(payload: seq<byte>): seq<byte> {
    Lead(|payload|) + Stuff(Summed(payload)) + [DLE, ETX]
  }

  /** That is a frame, but for lengths above 255 whose low byte is a DLE. */
  lemma WrittenIsFrame(payload: seq<byte>)
    ensures Written(payload) == Frame(payload) <==> !(|payload| + 2 != DLE as int && (|payload| + 2) % 256 == DLE as int)
  {
    var n, u := |payload|, Unstuffed(payload);
    assert u[1..] == Summed(payload);
    StuffFirst(u);
    hide Stuff;
    assert Frame(payload) == [DLE, STX] + Stuff1(u[0]) + Stuff(u[1..]) + [DLE, ETX];
    assert |Lead(n)| == 2 + |Stuff1(u[0])| ==> Lead(n) == [DLE, STX] + Stuff1(u[0]);
  }

  /** The frame so far, when the first `k` bytes of `u` have been stuffed. */
  function Head(lead: seq<byte>, u: seq<byte>, k: nat): seq<byte>
    requires k <= |u|
  {
    lead + Stuff(u[..k])
  }

  /** Puts the next byte behind the first `n` of `a`, doubled if it is a DLE. */
  method Put(a: array<byte>, n: nat, b: byte, ghost lead: seq<byte>, ghost u: seq<byte>, ghost k: nat) returns (m: nat)
    requires k < |u| && u[k] == b && n <= a.Length && a[..n] == Head(lead, u, k) && |lead| + |Stuff(u)| + 2 <= a.Length
    modifies a
    ensures m + 2 <= a.Length && a[..m] == Head(lead, u, k + 1)
  {
    HeadNext(lead, u, k);
    hide Head;
    ghost var before := a[..n];
    a[n] := b;
    m := n + 1;
    if b == DLE {
      a[m] := DLE;
      m := m + 1;
    }
    assert a[..m] == before + Stuff1(b);
  }

  /** The bytes before the payload. */
  method PutLead(a: array<byte>, n: nat) returns (cp: nat)
    requires a.Length >= |Lead(n)|
    modifies a
    ensures cp == |Lead(n)| && a[..cp] == Lead(n)
  {
    a[0], a[1] := DLE, STX;
    var len := n + 2;
    a[2] := len % 256;
    cp := 3;
    if len == DLE as int {
      a[3] := DLE;
      cp := 4;
    }
  }

  /** evermore_write, up to the call that sends the frame. */
  method EvermoreWrite(msg: array<byte>) returns (written: seq<byte>)
    requires |Written(msg[..])| <= 2 * MAX_PACKET_LENGTH
    ensures written == Written(msg[..])
    ensures msg.Length <= 253 ==> written == Frame(msg[..])
  {
    hide Head, Stuff, Lead, Frame, Written;
    var stuffed := new byte[2 * MAX_PACKET_LENGTH];
    ghost var payload := msg[..];
    ghost var u, lead := Summed(payload), Lead(msg.Length);
    WrittenIsFrame(payload);
    LeadShort(payload);
    var cp: nat := PutLead(stuffed, msg.Length);
    HeadStart(lead, u);
    var crc: int := 0;
    for i := 0 to msg.Length
      invariant cp + 2 <= stuffed.Length && stuffed[..cp] == Head(lead, u, i)
      invariant crc == Sum(payload[..i])
    {
      assert payload[..i + 1][..i] == payload[..i];
      cp := Put(stuffed, cp, msg[i], lead, u, i);
      crc := crc + msg[i];
    }
    assert payload[..msg.Length] == payload;
    crc := crc % 256;
    cp := Put(stuffed, cp, crc, lead, u, msg.Length);
    stuffed[cp], stuffed[cp + 1] := DLE, ETX;
    written := stuffed[..cp + 2];
    assert written == Head(lead, u, |u|) + [DLE, ETX];
    HeadWhole(lead, u);
    assert written == lead + Stuff(u) + [DLE, ETX];
    WrittenIs(payload);
  }

  lemma WrittenIs(payload: seq<byte>)
    ensures Written(payload) == Lead(|payload|) + Stuff(Summed(payload)) + [DLE, ETX]
  {}

  lemma LeadShort(payload: seq<byte>)
    ensures 3 <= |Lead(|payload|)| && |Lead(|payload|)| + |Stuff(Summed(payload))| + 2 == |Written(payload)|
  {}

  lemma HeadStart(lead: seq<byte>, u: seq<byte>)
    ensures Head(lead, u, 0) == lead
  {
    assert u[..0] == [];
  }

  lemma HeadNext(lead: seq<byte>, u: seq<byte>, k: nat)
    requires k < |u|
    ensures Head(lead, u, k + 1) == Head(lead, u, k) + Stuff1(u[k])
    ensures |Head(lead, u, k + 1)| <= |lead| + |Stuff(u)|
  {
    assert u[..k + 1][..k] == u[..k];
    assert u[..k + 1] + u[k + 1..] == u;
    StuffConcat(u[..k + 1], u[k + 1..]);
  }

  lemma HeadWhole(lead: seq<byte>, u: seq<byte>)
    ensures Head(lead, u, |u|) == lead + Stuff(u)
  {
    assert u[..|u|] == u;
  }

  // ---------- the check ----------

  /** A frame the lexer has recognised passes the check exactly if it is what evermore_write makes of
      some payload of at most 253 bytes. */
  lemma AcceptedIsWritten(s: seq<byte>, u: seq<byte>)
    requires |s| >= 4 && s[0] == DLE && s[1] == STX && StuffedFrom(s, 2, u) && |u| < 0xffff_ffff
    ensures EvermoreOk(s) <==> 2 <= |u| <= 255 && s == Frame(u[1..|u| - 1])
  {
    hide EvermoreOk, StuffedFrom, Sum, Enclosed, Stuff;
    EvermoreMeaning(s, u);
    FromHead(s, u);
    if 2 <= |u| <= 255 {
      var p := u[1..|u| - 1];
      WrappedIs(u);
      if s == Frame(p) {
        SameStuff(u, Unstuffed(p));
      }
    }
  }

  lemma WrappedIs(u: seq<byte>)
    requires |u| >= 2
    ensures var p := u[1..|u| - 1]; u == Unstuffed(p) <==> u[0] == |u| % 256 && u[|u| - 1] == Sum(p) % 256
  {
    hide Sum;
    assert u == [u[0]] + u[1..|u| - 1] + [u[|u| - 1]];
  }

  lemma FromHead(s: seq<byte>, u: seq<byte>)
    requires |s| >= 4 && s[0] == DLE && s[1] == STX && StuffedFrom(s, 2, u)
    ensures s == Enclosed(u)
  {
    assert s == [DLE, STX] + s[2..];
  }

  lemma SameStuff(u: seq<byte>, v: seq<byte>)
    requires Enclosed(u) == Enclosed(v)
    ensures u == v
  {
    var s := Enclosed(u);
    hide Stuff;
    assert Stuff(u) == s[2..|s| - 2] == Stuff(v);
    StuffInjective(u, v);
  }

  lemma {:induction false} StuffInjective(u: seq<byte>, v: seq<byte>)
    requires Stuff(u) == Stuff(v)
    ensures u == v
    decreases |u|
  {
    hide Stuff;
    if u != [] && v != [] {
      StuffFirst(u);
      StuffFirst(v);
      assert Stuff(u)[0] == u[0] && Stuff(v)[0] == v[0];
      var k := |Stuff1(u[0])|;
      assert Stuff(u[1..]) == Stuff(u)[k..] == Stuff(v)[k..] == Stuff(v[1..]);
      StuffInjective(u[1..], v[1..]);
      assert u == [u[0]] + u[1..] && v == [v[0]] + v[1..];
    }
  }

  // ---------- the reader ----------

  /** The head of evermore_parse: unstuffs the payload of a frame the lexer has accepted. */
  method Unstuff(buf: array<byte>, ghost payload: seq<byte>) returns (buf2: array<byte>, datalen: nat)
    requires |payload| <= 253 && buf[..] == Frame(payload)
    ensures datalen <= buf2.Length && buf2[..datalen] == payload
  {
    hide Stuff, StuffedFrom, Frame;
    ghost var u := Unstuffed(payload);
    ghost var s := buf[..];
    FrameStuffed(payload);
    buf2 := new byte[MAX_PACKET_LENGTH];
    StuffedStep(s, 2, u);
    var cp := 2;
    if buf[cp] == DLE {
      cp := cp + 1;
    }
    datalen := buf[cp] as int - 2;
    cp := cp + 1;
    ghost var rest := u[1..];
    assert datalen == |payload| && rest == payload + [Sum(payload) % 256];
    for i := 0 to datalen
      invariant StuffedFrom(s, cp, rest[i..]) && buf2[..i] == payload[..i] && buf[..] == s
    {
      StuffedStep(s, cp, rest[i..]);
      buf2[i] := buf[cp];
      cp := cp + 1;
      if buf2[i] == DLE {
        cp := cp + 1;
      }
      assert buf2[..i + 1] == payload[..i] + [payload[i]] == payload[..i + 1];
      assert rest[i..][1..] == rest[i + 1..];
    }
    assert payload[..datalen] == payload;
  }

  lemma FrameStuffed(payload: seq<byte>)
    ensures var s := Frame(payload); |s| >= 4 && s[0] == DLE && s[1] == STX && StuffedFrom(s, 2, Unstuffed(payload))
  {
    var u := Unstuffed(payload);
    assert Frame(payload)[2..] == Stuff(u) + [DLE, ETX];
  }

  /** One stuffed byte, single or doubled. */
  // ---------- the lexer on a frame ----------

  /** Where the lexer stands between packets when the last one was EverMore's, or none. */
  predicate Ready(l: Lexer) {
    Safe(l) && (l.state == Ground || l.state == EvermoreRecognized) && l.seen == []
  }

  lemma DleStep(l: Lexer, c: byte, state: LexState, length: nat)
    requires l.state == EvermoreLeader1 || l.state == EvermoreLeader2 || l.state == EvermorePayload
             || l.state == EvermorePayloadDle || l.state == EvermoreRecognized || l.state == DleLeader
    requires DleNext(l.state, l.length, c) == (state, length)
    ensures Leads(l, c, state, length)
  {
    EvermoreFamily();
    FamilyLeads(l, c);
    hide Leads, FamilyOf, DleNext;
  }

  lemma EvermoreFamily()
    ensures FamilyOf(EvermoreLeader1) == Dle && FamilyOf(EvermoreLeader2) == Dle && FamilyOf(EvermorePayload) == Dle
    ensures FamilyOf(EvermorePayloadDle) == Dle && FamilyOf(EvermoreRecognized) == Dle && FamilyOf(DleLeader) == Dle
  {}

  lemma EvermoreMid()
    ensures Mid(EvermoreLeader1) && Mid(EvermoreLeader2) && Mid(EvermorePayload) && Mid(EvermorePayloadDle) && Mid(DleLeader)
  {}

  lemma FirstDle(l: Lexer)
    requires Ready(l)
    ensures Leads(l, DLE, if l.state == Ground then DleLeader else EvermoreLeader1, l.length)
  {
    hide Safe, Leads;
    if l.state == Ground {
      GroundLeads(l);
    } else {
      DleStep(l, DLE, EvermoreLeader1, l.length);
    }
  }

  /** DLE STX. */
  lemma LeaderRun(l: Lexer, rest: seq<byte>)
    requires Ready(l)
    ensures var m := Reading(l, EvermoreLeader2, l.length, [DLE, STX]); Safe(m) && Run(l, [DLE, STX] + rest) == Run(m, rest)
  {
    hide Safe, Leads, Mid, Run;
    EvermoreMid();
    var first := if l.state == Ground then DleLeader else EvermoreLeader1;
    FirstDle(l);
    QuietRun(l, DLE, first, l.length, [STX] + rest);
    assert [DLE] + ([STX] + rest) == [DLE, STX] + rest && [] + [DLE] == [DLE];
    var m := Reading(l, first, l.length, [DLE]);
    DleStep(m, STX, EvermoreLeader2, l.length);
    QuietRun(m, STX, EvermoreLeader2, l.length, rest);
    assert [DLE] + [STX] == [DLE, STX];
  }

  /** One byte, stuffed; the length counter counts only those that are not DLEs. */
  lemma ByteRun(l: Lexer, b: byte, rest: seq<byte>)
    requires Safe(l)
    requires l.state == EvermoreLeader2 || (l.state == EvermorePayload && l.length >= 2)
    ensures
      var length := if l.state == EvermoreLeader2 then b as int else if b == DLE then l.length else l.length - 1;
      var m := Reading(l, EvermorePayload, length, l.seen + Stuff1(b));
      Safe(m) && Run(l, Stuff1(b) + rest) == Run(m, rest)
  {
    hide Safe, Leads, Mid, Run;
    EvermoreMid();
    var length := if l.state == EvermoreLeader2 then b as int else if b == DLE then l.length else l.length - 1;
    if b == DLE {
      DleStep(l, DLE, EvermorePayloadDle, length);
      QuietRun(l, DLE, EvermorePayloadDle, length, [DLE] + rest);
      assert [DLE] + ([DLE] + rest) == Stuff1(b) + rest;
      var m := Reading(l, EvermorePayloadDle, length, l.seen + [DLE]);
      DleStep(m, DLE, EvermorePayload, length);
      QuietRun(m, DLE, EvermorePayload, length, rest);
      assert l.seen + [DLE] + [DLE] == l.seen + Stuff1(b);
    } else {
      DleStep(l, b, EvermorePayload, length);
      QuietRun(l, b, EvermorePayload, length, rest);
    }
  }

  function Singles(u: seq<byte>): nat {
    if u == [] then 0 else Singles(u[1..]) + if u[0] == DLE then 0 else 1
  }

  /** Stuffed bytes fewer than the length counter. */
  lemma {:induction false} BytesRun(l: Lexer, u: seq<byte>, rest: seq<byte>)
    requires Safe(l) && l.state == EvermorePayload && l.length > |u|
    ensures Singles(u) <= |u|
    ensures
      var m := Reading(l, EvermorePayload, l.length - Singles(u), l.seen + Stuff(u));
      Safe(m) && Run(l, Stuff(u) + rest) == Run(m, rest)
    decreases |u|
  {
    hide Safe, Run, Stuff, Stuff1;
    if u == [] {
      assert Stuff(u) == [] by { StuffNothing(); }
      assert [] + rest == rest && l.seen + [] == l.seen;
    } else {
      StuffFirst(u);
      assert Stuff(u) + rest == Stuff1(u[0]) + (Stuff(u[1..]) + rest);
      ByteRun(l, u[0], Stuff(u[1..]) + rest);
      var m := Reading(l, EvermorePayload, if u[0] == DLE then l.length else l.length - 1, l.seen + Stuff1(u[0]));
      BytesRun(m, u[1..], rest);
      assert l.seen + Stuff1(u[0]) + Stuff(u[1..]) == l.seen + Stuff(u);
    }
  }

  lemma EvermoreVerdict(kind: PacketType, frame: seq<byte>)
    requires |frame| >= 4 && EvermoreOk(frame)
    ensures Judge(kind, EvermoreRecognized, frame) == (Accept(EvermorePacket), EvermoreRecognized)
  {
    hide NmeaOk, SirfOk, UbxOk, EvermoreOk, GarminOk, TsipOk;
  }

  /** DLE ETX. */
  lemma TrailerRun(l: Lexer, rest: seq<byte>)
    requires Safe(l) && l.state == EvermorePayload && |l.seen| >= 2 && |l.seen| + 2 < BUFFER_SIZE
    requires EvermoreOk(l.seen + [DLE, ETX])
    ensures
      var m := Lexer(EvermorePacket, EvermoreRecognized, l.length, l.rtcm, []);
      Safe(m) && Run(l, [DLE, ETX] + rest)
                 == (Run(m, rest).0, [Delivery(EvermorePacket, l.seen + [DLE, ETX])] + Run(m, rest).1)
  {
    hide Safe, Leads, Mid, Run, EvermoreOk, Judge;
    EvermoreMid();
    DleStep(l, DLE, EvermorePayloadDle, l.length);
    assert [DLE] + ([ETX] + rest) == [DLE, ETX] + rest;
    QuietRun(l, DLE, EvermorePayloadDle, l.length, [ETX] + rest);
    var m := Reading(l, EvermorePayloadDle, l.length, l.seen + [DLE]);
    DleStep(m, ETX, EvermoreRecognized, l.length);
    assert m.seen + [ETX] == l.seen + [DLE, ETX];
    EvermoreVerdict(l.kind, l.seen + [DLE, ETX]);
    LastRun(m, ETX, EvermoreRecognized, l.length, Accept(EvermorePacket), EvermoreRecognized, rest);
  }

  /** The frame of a payload of at most 253 bytes is delivered, as it was written. */
  lemma FrameRun(l: Lexer, payload: seq<byte>, rest: seq<byte>) returns (m: Lexer)
    requires Ready(l) && |payload| <= 253
    ensures Ready(m) && m.kind == EvermorePacket
    ensures Run(l, Frame(payload) + rest) == (Run(m, rest).0, [Delivery(EvermorePacket, Frame(payload))] + Run(m, rest).1)
  {
    hide Safe, Run, EvermoreOk, Stuff, Unstuffed, Stuff1, Frame;
    FrameParts(payload);
    FrameOk(payload);
    var u, f := Unstuffed(payload), Frame(payload);
    var head, first, body, last := [DLE, STX], Stuff1(u[0]), Stuff(u[1..]), [DLE, ETX] + rest;
    assert f + rest == head + (first + (body + last));
    LeaderRun(l, first + (body + last));
    var l1 := Reading(l, EvermoreLeader2, l.length, head);
    ByteRun(l1, u[0], body + last);
    var l2 := Reading(l, EvermorePayload, u[0], head + first);
    BytesRun(l2, u[1..], last);
    var l3 := Reading(l, EvermorePayload, u[0] - Singles(u[1..]), head + first + body);
    assert l3.seen + [DLE, ETX] == f;
    TrailerRun(l3, rest);
    m := Lexer(EvermorePacket, EvermoreRecognized, l3.length, l.rtcm, []);
  }

  lemma FrameParts(payload: seq<byte>)
    ensures var u := Unstuffed(payload);
            Frame(payload) == [DLE, STX] + (Stuff1(u[0]) + (Stuff(u[1..]) + [DLE, ETX]))
  {
    StuffFirst(Unstuffed(payload));
    hide Stuff, Stuff1, Unstuffed;
  }

  lemma FrameOk(payload: seq<byte>)
    requires |payload| <= 253
    ensures EvermoreOk(Frame(payload)) && |Frame(payload)| < BUFFER_SIZE
    ensures Unstuffed(payload)[0] == |payload| + 2
  {
    FrameStuffed(payload);
    hide EvermoreOk, StuffedFrom;
    var u := Unstuffed(payload);
    EvermoreMeaning(Frame(payload), u);
    assert u[1..|u| - 1] == payload;
  }

  // ---------- streams ----------

  function OnAir(payloads: seq<seq<byte>>): seq<byte> {
    if payloads == [] then [] else Frame(payloads[0]) + OnAir(payloads[1..])
  }

  function Frames(payloads: seq<seq<byte>>): seq<Delivery> {
    if payloads == [] then [] else [Delivery(EvermorePacket, Frame(payloads[0]))] + Frames(payloads[1..])
  }

  /** Any number of messages back to back is delivered one for one. */
  lemma {:induction false} EvermoreStream(l: Lexer, payloads: seq<seq<byte>>)
    requires Ready(l) && forall k :: 0 <= k < |payloads| ==> |payloads[k]| <= 253
    ensures var (m, out) := Run(l, OnAir(payloads)); Ready(m) && out == Frames(payloads)
    decreases |payloads|
  {
    hide Safe, Frame;
    if payloads == [] {
      assert Run(l, []) == (l, []);
    } else {
      hide Run;
      var m := FrameRun(l, payloads[0], OnAir(payloads[1..]));
      EvermoreStream(m, payloads[1..]);
    }
  }
}
