/** Navcom frames. */
module Navcom {
  import opened Bytes
  import opened Packet
  import opened PacketRuns
  import opened PacketFeed

  datatype Message = Message(id: byte, data: seq<byte>)

  const LEADER: seq<byte> := [0x02, 0x99, 0x66]

  /** The length field counts itself, the id and the checksum, besides the data. */
  predicate WellFormed(x: Message) {
    1 <= |x.data| && |x.data| + 8 < BUFFER_SIZE
  }

  /** All that is summed. */
  function Summed(x: Message): (s: seq<byte>)
    requires WellFormed(x)
    ensures |s| == |x.data| + 3
  {
    var n := |x.data| + 4;
    [x.id, n % 256, n / 256] + x.data
  }

  /** The checksum is the exclusive or of everything between leader and itself. */
  function Frame(x: Message): seq<byte>
    requires WellFormed(x)
  {
    LEADER + Summed(x) + [XorFold(0, Summed(x)), 0x03]
  }

  predicate Ready(l: Lexer) {
    Safe(l) && (l.state == Ground || l.state == NavcomRecognized) && l.seen == []
  }

  function Head(x: Message): (f: seq<byte>)
    requires WellFormed(x)
    ensures |f| == 6
  {
    var n := |x.data| + 4;
    LEADER + [x.id, n % 256, n / 256]
  }

  /** The length counter loses four as soon as its low byte is in, and may wrap around before the high
      byte sets it right. */
  function HeadPath(l: Lexer, n: nat): seq<(LexState, nat)>
    requires n >= 4
  {
    [(NavcomLeader1, l.length), (NavcomLeader2, l.length), (NavcomLeader3, l.length), (NavcomId, l.length),
     (NavcomLength1, if n % 256 < 4 then SIZE_MAX + 1 + n % 256 - 4 else n % 256 - 4), (NavcomLength2, n - 4)]
  }

  lemma NavcomFamily()
    ensures FamilyOf(NavcomLeader1) == FamilyOf(NavcomLeader2) == FamilyOf(NavcomLeader3) == Family.Navcom
    ensures FamilyOf(NavcomId) == FamilyOf(NavcomLength1) == FamilyOf(NavcomRecognized) == Family.Navcom
  {}

  lemma PayloadFamily()
    ensures FamilyOf(NavcomPayload) == FamilyOf(NavcomCsum) == Family.Navcom
  {}

  lemma NavcomLeads(l: Lexer, c: byte)
    requires FamilyOf(l.state) == Family.Navcom && (l.state == NavcomPayload ==> |l.seen| >= 4)
    ensures var next := NavcomNext(l.state, l.length, l.seen, c); Leads(l, c, next.0, next.1)
  {
    NavcomOff(l.state, c);
    hide FamilyOf, NavcomNext, FeedsRtcm;
  }

  lemma NavcomOff(state: LexState, c: byte)
    ensures FamilyOf(state) == Family.Navcom ==> !FeedsRtcm(state, c)
  {}

  lemma GroundOpens(l: Lexer)
    requires l.state == Ground
    ensures Leads(l, 0x02, NavcomLeader1, l.length)
  {}

  lemma WrapsBack(n: nat)
    requires 4 <= n < 0x1_0000
    ensures var low := if n % 256 < 4 then SIZE_MAX + 1 + n % 256 - 4 else n % 256 - 4;
            (low + n / 256 * 256) % (SIZE_MAX + 1) == n - 4
  {
    assert n == n / 256 * 256 + n % 256;
  }

  lemma HeadNext(l: Lexer, x: Message, k: nat)
    requires WellFormed(x) && k < 6
    requires l.state == if k == 0 then NavcomRecognized else HeadPath(l, |x.data| + 4)[k - 1].0
    requires k == 5 ==> l.length == HeadPath(l, |x.data| + 4)[4].1
    ensures NavcomNext(l.state, l.length, l.seen, Head(x)[k]) == HeadPath(l, |x.data| + 4)[k]
  {
    WrapsBack(|x.data| + 4);
  }

  lemma HeadStep(l: Lexer, x: Message, k: nat)
    requires WellFormed(x) && k < 6
    requires if k == 0 then l.state == Ground || l.state == NavcomRecognized else l.state == HeadPath(l, |x.data| + 4)[k - 1].0
    requires k == 5 ==> l.length == HeadPath(l, |x.data| + 4)[4].1
    ensures var leg := HeadPath(l, |x.data| + 4)[k]; Leads(l, Head(x)[k], leg.0, leg.1)
  {
    hide FamilyOf, Leads, NavcomNext;
    NavcomFamily();
    if k == 0 && l.state == Ground {
      GroundOpens(l);
    } else {
      NavcomLeads(l, Head(x)[k]);
      HeadNext(l, x, k);
    }
  }

  lemma NavcomMid(l: Lexer, n: nat, k: nat)
    requires k < 6 && n >= 4
    ensures Mid(HeadPath(l, n)[k].0)
  {}

  lemma TailMid()
    ensures Mid(NavcomPayload) && Mid(NavcomCsum)
  {}

  lemma HeadPaved(l: Lexer, x: Message)
    requires (l.state == Ground || l.state == NavcomRecognized) && WellFormed(x)
    ensures Paved(l, Head(x), HeadPath(l, |x.data| + 4))
  {
    hide FamilyOf, Leads, Mid, Head;
    var f, path := Head(x), HeadPath(l, |x.data| + 4);
    forall k | 0 <= k < 6
      ensures Leads(Along(l, f, path, k), f[k], path[k].0, path[k].1) && Mid(path[k].0)
    {
      HeadStep(Along(l, f, path, k), x, k);
      NavcomMid(l, |x.data| + 4, k);
    }
  }

  /** The running exclusive or that nextstate keeps is that of all that is summed. */
  lemma SumIs(x: Message)
    requires WellFormed(x)
    ensures var seen := LEADER + Summed(x); |seen| >= 4 && NavcomSum(seen) == XorFold(0, Summed(x))
  {
    hide XorFold;
    var seen, s := LEADER + Summed(x), Summed(x);
    assert seen[3] == s[0] && seen[4..] == s[1..];
    XorPrefixed(s[0], s[1..]);
    assert s == [s[0]] + s[1..];
  }

  lemma TailLeads(l: Lexer, c: byte)
    ensures l.state == NavcomPayload && |l.seen| >= 4 && NavcomSum(l.seen) == c ==> Leads(l, c, NavcomCsum, l.length)
    ensures l.state == NavcomCsum && c == 0x03 ==> Leads(l, c, NavcomRecognized, l.length)
  {
    PayloadFamily();
    hide FamilyOf, Leads, NavcomSum;
    if (l.state == NavcomPayload && |l.seen| >= 4) || l.state == NavcomCsum {
      NavcomLeads(l, c);
    }
  }

  lemma FrameParts(x: Message)
    requires WellFormed(x)
    ensures LEADER + Summed(x) == Head(x) + x.data && |Frame(x)| == |x.data| + 8
    ensures Frame(x) == Head(x) + x.data + [XorFold(0, Summed(x))] + [0x03]
  {
    hide XorFold;
  }

  /** A frame with data is delivered as it was sent. */
  lemma FrameRun(l: Lexer, x: Message, rest: seq<byte>)
    requires Ready(l) && WellFormed(x)
    ensures
      var m := Lexer(NavcomPacket, NavcomRecognized, 0, l.rtcm, []);
      Ready(m) && Run(l, Frame(x) + rest) == (Run(m, rest).0, [Delivery(NavcomPacket, Frame(x))] + Run(m, rest).1)
  {
    hide Safe, Run, Leads, Mid, Judge, Paved, Head, Frame, Summed, NavcomSum, XorFold;
    FrameParts(x);
    SumIs(x);
    TailMid();
    var head, sum := Head(x), XorFold(0, Summed(x));
    var end := [sum] + ([0x03] + rest);
    assert Frame(x) + rest == head + (x.data + end);
    HeadPaved(l, x);
    WholePath(l, head, HeadPath(l, |x.data| + 4), x.data + end);
    var l1 := Reading(l, NavcomLength2, |x.data|, head);
    assert [] + head == head;
    CountedRun(l1, NavcomPayload, x.data, end);
    var l2 := Reading(l, NavcomPayload, 0, head + x.data);
    TailLeads(l2, sum);
    QuietRun(l2, sum, NavcomCsum, 0, [0x03] + rest);
    var l3 := Reading(l, NavcomCsum, 0, head + x.data + [sum]);
    TailLeads(l3, 0x03);
    JudgeUnchecked(l.kind, NavcomRecognized, Frame(x));
    LastRun(l3, 0x03, NavcomRecognized, 0, Accept(NavcomPacket), NavcomRecognized, rest);
  }

  function OnAir(xs: seq<Message>): seq<byte>
    requires forall k :: 0 <= k < |xs| ==> WellFormed(xs[k])
  {
    if xs == [] then [] else Frame(xs[0]) + OnAir(xs[1..])
  }

  function Frames(xs: seq<Message>): seq<Delivery>
    requires forall k :: 0 <= k < |xs| ==> WellFormed(xs[k])
  {
    if xs == [] then [] else [Delivery(NavcomPacket, Frame(xs[0]))] + Frames(xs[1..])
  }

  /** Any number of frames back to back is delivered one for one. */
  lemma {:induction false} NavcomStream(l: Lexer, xs: seq<Message>)
    requires Ready(l) && forall k :: 0 <= k < |xs| ==> WellFormed(xs[k])
    ensures var (m, out) := Run(l, OnAir(xs)); Ready(m) && out == Frames(xs)
    decreases |xs|
  {
    hide Safe, WellFormed, Frame;
    if xs == [] {
      assert Run(l, []) == (l, []);
    } else {
      hide Run;
      FrameRun(l, xs[0], OnAir(xs[1..]));
      NavcomStream(Lexer(NavcomPacket, NavcomRecognized, 0, l.rtcm, []), xs[1..]);
    }
  }
}
