/** The SiRF writer of sirf.c, and what the lexer makes of the messages it completes. */
module Sirf {
  import opened Bytes
  import opened Packet
  import opened PacketRuns
  import opened PacketFeed

  // ---------- the writer ----------

  function Checksum(payload: seq<byte>): nat { Sum(payload) % 0x8000 }

  function Split16(n: nat): seq<byte>
    requires n < 0x1_0000
  {
    [n / 256, n % 256]
  }

  function Leader(n: nat): seq<byte>
    requires n < 0x1_0000
  {
    [0xa0, 0xa2] + Split16(n)
  }

  const TRAILER: seq<byte> := [0xb0, 0xb3]

  /** A payload with its checksum. */
  function Body(payload: seq<byte>): seq<byte> { payload + Split16(Checksum(payload)) }

  function Message(payload: seq<byte>): seq<byte>
    requires |payload| < 0x1_0000
  {
    Leader(|payload|) + Body(payload) + TRAILER
  }

  /** sirf_write: `msg` holds leader, length, payload, room for the checksum, and trailer. */
  method SirfWrite(msg: array<byte>) returns (written: seq<byte>)
    requires msg.Length >= 4 && msg.Length >= (msg[2] as int) * 256 + msg[3] + 8
    modifies msg
    ensures
      var len := old((msg[2] as int) * 256 + msg[3]);
      var payload := old(msg[4..4 + len]);
      && written == old(msg[..4]) + Body(payload) + old(msg[len + 6..len + 8])
      && msg[..] == written + old(msg[len + 8..])
      && (old(msg[..4]) == Leader(len) && old(msg[len + 6..len + 8]) == TRAILER ==> written == Message(payload))
  {
    var len := (msg[2] as int) * 256 + msg[3];
    var crc: int := 0;
    for i := 0 to len
      invariant crc == Sum(msg[4..4 + i])
    {
      assert msg[4..4 + i + 1][..i] == msg[4..4 + i];
      crc := crc + msg[4 + i];
    }
    crc := crc % 0x8000;
    msg[len + 4] := crc / 256;
    msg[len + 5] := crc % 256;
    written := msg[..len + 8];
    assert msg[4..4 + len] == old(msg[4..4 + len]);
    assert written == msg[..4] + (msg[4..4 + len] + [msg[len + 4], msg[len + 5]]) + msg[len + 6..len + 8];
  }

  // ---------- the lexer on one frame ----------

  /** Where the lexer stands between packets when the last one was SiRF's, or none. */
  predicate Ready(l: Lexer) {
    Safe(l) && (l.state == Ground || l.state == SirfRecognized) && l.seen == []
  }

  function LeaderPath(l: Lexer, n: nat): seq<(LexState, nat)> {
    [(SirfLeader1, l.length), (SirfLeader2, l.length), (SirfLength1, n / 256 * 256), (SirfPayload, n + 2)]
  }

  lemma LeaderStep(l: Lexer, n: nat, k: nat)
    requires n + 2 <= MAX_PACKET_LENGTH && k < 4
    requires
      if k == 0 then l.state == Ground || l.state == SirfRecognized
      else if k == 1 then l.state == SirfLeader1
      else if k == 2 then l.state == SirfLeader2
      else l.state == SirfLength1 && l.length == n / 256 * 256
    ensures var leg := LeaderPath(l, n)[k]; Leads(l, Leader(n)[k], leg.0, leg.1)
  {
    hide FamilyOf, Leads;
    SirfFamily();
    var c := Leader(n)[k];
    if l.state == Ground {
      GroundLeads(l);
    } else {
      FamilyLeads(l, c);
      hide *;
      assert SirfNext(l.state, l.length, c) == LeaderPath(l, n)[k] by { SirfLeaderNext(l, n, k); }
    }
  }

  lemma SirfLeaderNext(l: Lexer, n: nat, k: nat)
    requires n + 2 <= MAX_PACKET_LENGTH && k < 4
    requires
      if k == 0 then l.state == SirfRecognized
      else if k == 1 then l.state == SirfLeader1
      else if k == 2 then l.state == SirfLeader2
      else l.state == SirfLength1 && l.length == n / 256 * 256
    ensures SirfNext(l.state, l.length, Leader(n)[k]) == LeaderPath(l, n)[k]
  {}

  lemma LeaderPaved(l: Lexer, n: nat)
    requires l.state == Ground || l.state == SirfRecognized
    requires n + 2 <= MAX_PACKET_LENGTH
    ensures Paved(l, Leader(n), LeaderPath(l, n))
  {
    hide FamilyOf, Leads, Mid, Leader;
    var f, path := Leader(n), LeaderPath(l, n);
    LeaderLength(n);
    forall k | 0 <= k < 4
      ensures Leads(Along(l, f, path, k), f[k], path[k].0, path[k].1) && Mid(path[k].0)
    {
      LeaderStep(Along(l, f, path, k), n, k);
      SirfMid(path[k].0);
    }
  }

  lemma SirfMid(state: LexState)
    requires state == SirfLeader1 || state == SirfLeader2 || state == SirfLength1 || state == SirfPayload
    ensures Mid(state)
  {}

  lemma SirfFamily()
    ensures FamilyOf(SirfLeader1) == Sirf && FamilyOf(SirfLeader2) == Sirf && FamilyOf(SirfLength1) == Sirf
    ensures FamilyOf(SirfPayload) == Sirf && FamilyOf(SirfDelivered) == Sirf && FamilyOf(SirfTrailer1) == Sirf
    ensures FamilyOf(SirfRecognized) == Sirf
  {}

  lemma LeaderRun(l: Lexer, n: nat, rest: seq<byte>)
    requires Safe(l) && (l.state == Ground || l.state == SirfRecognized) && n + 2 <= MAX_PACKET_LENGTH
    ensures var m := Reading(l, SirfPayload, n + 2, l.seen + Leader(n)); Safe(m) && Run(l, Leader(n) + rest) == Run(m, rest)
  {
    hide Safe, Paved, Run;
    LeaderPaved(l, n);
    WholePath(l, Leader(n), LeaderPath(l, n), rest);
  }

  lemma TrailerLeads(l: Lexer)
    ensures l.state == SirfDelivered ==> Leads(l, 0xb0, SirfTrailer1, l.length) && Mid(SirfTrailer1)
    ensures l.state == SirfTrailer1 ==> Leads(l, 0xb3, SirfRecognized, l.length)
  {}

  lemma SirfVerdict(kind: PacketType, frame: seq<byte>)
    requires |frame| >= 4
    ensures Judge(kind, SirfRecognized, frame) == if SirfOk(frame) then (Accept(SirfPacket), SirfRecognized) else (Discard, Ground)
  {
    hide NmeaOk, SirfOk, UbxOk, EvermoreOk, GarminOk, TsipOk;
  }

  /** The lexer after a frame that passes the check, or fails it. */
  function Past(l: Lexer, ok: bool): Lexer {
    if ok then Lexer(SirfPacket, SirfRecognized, 0, l.rtcm, []) else Lexer(l.kind, Ground, 0, l.rtcm, [])
  }

  function Frame(n: nat, body: seq<byte>): seq<byte>
    requires n < 0x1_0000
  {
    Leader(n) + body + TRAILER
  }

  /** Up to the last character of a frame. */
  lemma BodyRun(l: Lexer, n: nat, body: seq<byte>, rest: seq<byte>)
    requires Safe(l) && (l.state == Ground || l.state == SirfRecognized) && n + 2 <= MAX_PACKET_LENGTH && |body| == n + 2
    ensures
      var m := Reading(l, SirfTrailer1, 0, l.seen + Leader(n) + body + [0xb0]);
      Safe(m) && Run(l, Frame(n, body) + rest) == Run(m, [0xb3] + rest)
  {
    hide Safe, Leads, Mid, Run, Leader;
    var head := Leader(n);
    var end := [0xb0] + ([0xb3] + rest);
    assert Frame(n, body) + rest == head + (body + end);
    LeaderRun(l, n, body + end);
    var l1 := Reading(l, SirfPayload, n + 2, l.seen + head);
    CountedRun(l1, SirfDelivered, body, end);
    var l2 := Reading(l, SirfDelivered, 0, l.seen + head + body);
    TrailerLeads(l2);
    QuietRun(l2, 0xb0, SirfTrailer1, 0, [0xb3] + rest);
  }

  lemma FrameParts(seen: seq<byte>, n: nat, body: seq<byte>)
    requires n < 0x1_0000
    ensures |Frame(n, body)| == |body| + 6
    ensures seen + Leader(n) + body + [0xb0] + [0xb3] == seen + Frame(n, body)
  {
    hide Leader;
    LeaderLength(n);
  }

  /** A frame with any bytes for payload and checksum is delivered or dropped whole, together with
      whatever is in the buffer before it. */
  lemma FrameRunBehind(l: Lexer, n: nat, body: seq<byte>, rest: seq<byte>)
    requires Safe(l) && (l.state == Ground || l.state == SirfRecognized) && n + 2 <= MAX_PACKET_LENGTH && |body| == n + 2
    requires |l.seen| + n + 8 < BUFFER_SIZE
    ensures
      var f := l.seen + Frame(n, body);
      var m := Past(l, SirfOk(f));
      Ready(m)
      && Run(l, Frame(n, body) + rest) == (Run(m, rest).0, (if SirfOk(f) then [Delivery(SirfPacket, f)] else []) + Run(m, rest).1)
  {
    hide Safe, Leads, Mid, Run, SirfOk, Judge, Leader, Frame;
    var f := l.seen + Frame(n, body);
    FrameParts(l.seen, n, body);
    BodyRun(l, n, body, rest);
    var m := Reading(l, SirfTrailer1, 0, l.seen + Leader(n) + body + [0xb0]);
    TrailerLeads(m);
    SirfVerdict(l.kind, f);
    LastRun(m, 0xb3, SirfRecognized, 0, if SirfOk(f) then Accept(SirfPacket) else Discard,
            if SirfOk(f) then SirfRecognized else Ground, rest);
  }

  /** A frame on its own. */
  lemma FrameRun(l: Lexer, n: nat, body: seq<byte>, rest: seq<byte>)
    requires Ready(l) && n + 2 <= MAX_PACKET_LENGTH && |body| == n + 2
    ensures
      var f := Frame(n, body);
      var m := Past(l, SirfOk(f));
      Ready(m) && Run(l, f + rest) == (Run(m, rest).0, (if SirfOk(f) then [Delivery(SirfPacket, f)] else []) + Run(m, rest).1)
  {
    hide Safe, Run, SirfOk, Leader;
    LeaderLength(n);
    FrameRunBehind(l, n, body, rest);
    assert [] + Frame(n, body) == Frame(n, body);
  }

  lemma LeaderLength(n: nat)
    requires n < 0x1_0000
    ensures |Leader(n)| == 4
  {}

  // ---------- streams ----------

  /** A message on the line, with at most one byte of its payload or checksum changed. */
  datatype Item = Item(payload: seq<byte>, damage: Option<(nat, byte)>)

  /** The message fits the lexer's length counter, and damage changes something. */
  predicate WellFormed(i: Item) {
    |i.payload| + 2 <= MAX_PACKET_LENGTH
    && (i.damage.Some? ==> i.damage.value.0 < |i.payload| + 2 && Body(i.payload)[i.damage.value.0] != i.damage.value.1)
  }

  function Sent(i: Item): (body: seq<byte>)
    requires WellFormed(i)
    ensures |body| == |i.payload| + 2
  {
    if i.damage.None? then Body(i.payload) else Body(i.payload)[i.damage.value.0 := i.damage.value.1]
  }

  /** The check reads the payload and the two bytes behind it. */
  lemma CheckReads(n: nat, body: seq<byte>)
    requires n + 2 <= MAX_PACKET_LENGTH && |body| == n + 2
    ensures SirfOk(Frame(n, body)) <==> (body[n] as int) * 256 + body[n + 1] == Sum(body[..n]) % 0x8000
  {
    var f := Frame(n, body);
    LeaderLength(n);
    assert f[4..4 + n] == body[..n];
    assert f[4 + n] == body[n] && f[5 + n] == body[n + 1];
  }

  /** The checksum is right exactly if nothing was changed. */
  lemma DamageShows(i: Item)
    requires WellFormed(i)
    ensures SirfOk(Frame(|i.payload|, Sent(i))) <==> i.damage.None?
  {
    var n, body, sent := |i.payload|, Body(i.payload), Sent(i);
    CheckReads(n, sent);
    assert body[..n] == i.payload;
    if i.damage.Some? {
      var (at, b) := i.damage.value;
      if at < n {
        assert sent[..n] == i.payload[at := b];
        SumUpdate(i.payload, at, b);
      } else {
        assert sent[..n] == i.payload;
      }
    }
  }

  function OnAir(items: seq<Item>): seq<byte>
    requires forall k :: 0 <= k < |items| ==> WellFormed(items[k])
  {
    if items == [] then [] else Frame(|items[0].payload|, Sent(items[0])) + OnAir(items[1..])
  }

  /** The undamaged messages, byte for byte. */
  function Intact(items: seq<Item>): seq<Delivery>
    requires forall k :: 0 <= k < |items| ==> WellFormed(items[k])
  {
    if items == [] then []
    else
      assert WellFormed(items[0]);
      (if items[0].damage.None? then [Delivery(SirfPacket, Message(items[0].payload))] else []) + Intact(items[1..])
  }

  /** A stream of messages is delivered one for one and byte for byte, save those damaged. */
  lemma {:induction false} SirfStream(l: Lexer, items: seq<Item>)
    requires Ready(l) && forall k :: 0 <= k < |items| ==> WellFormed(items[k])
    ensures var (m, out) := Run(l, OnAir(items)); Ready(m) && out == Intact(items)
    decreases |items|
  {
    hide Safe, SirfOk, Frame, WellFormed;
    if items == [] {
      assert Run(l, []) == (l, []);
    } else {
      hide Run;
      var i := items[0];
      assert WellFormed(i);
      ItemFits(i);
      FrameRun(l, |i.payload|, Sent(i), OnAir(items[1..]));
      DamageShows(i);
      SirfStream(Past(l, i.damage.None?), items[1..]);
    }
  }

  lemma ItemFits(i: Item)
    requires WellFormed(i)
    ensures |i.payload| + 2 <= MAX_PACKET_LENGTH
    ensures i.damage.None? ==> Frame(|i.payload|, Sent(i)) == Message(i.payload)
  {}

  /** The same when the stream comes in any number of reads: what has been delivered, and what still
      waits in the buffer, is the undamaged messages. */
  lemma SirfSession(l: Lexer, items: seq<Item>, chunks: seq<seq<byte>>)
    requires Ready(l) && forall k :: 0 <= k < |items| ==> WellFormed(items[k])
    requires Flatten(chunks) == OnAir(items)
    ensures var (m, left, out) := Session(l, [], chunks); out + Run(m, left).1 == Intact(items)
  {
    hide Session, Run, Safe, WellFormed, OnAir, Intact;
    SessionIsRun(l, [], chunks);
    assert [] + Flatten(chunks) == OnAir(items);
    SirfStream(l, items);
  }
}
