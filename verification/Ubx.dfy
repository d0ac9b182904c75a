/** UBX frames: what their Fletcher checksum catches, and what the lexer delivers. */
module Ubx {
  import opened Bytes
  import opened Packet
  import opened PacketRuns
  import opened PacketFeed

  // ---------- the checksum ----------

  /** Each byte as often as there are bytes from it on. */
  function Weighted(s: seq<byte>): nat {
    if s == [] then 0 else |s| * s[0] + Weighted(s[1..])
  }

  lemma {:induction false} WeightedAppend(s: seq<byte>, c: byte)
    ensures Weighted(s + [c]) == Weighted(s) + Sum(s) + c
    decreases |s|
  {
    var t := s + [c];
    if s == [] {
      assert t[1..] == [];
    } else {
      assert t[1..] == s[1..] + [c] && t[0] == s[0];
      WeightedAppend(s[1..], c);
      SumFirst(s);
      assert |t| * s[0] == |s| * s[0] + s[0];
    }
  }

  /** The two running sums of the check are the plain and the position-weighted sum modulo 256. */
  lemma {:induction false} FletcherIs(s: seq<byte>)
    ensures FletcherA(s) == Sum(s) % 256 && FletcherB(s) == Weighted(s) % 256
    decreases |s|
  {
    hide Weighted;
    if s == [] {
      assert Weighted([]) == 0 by { WeightedNothing(); }
    } else {
      var t := s[..|s| - 1];
      FletcherIs(t);
      assert s == t + [s[|s| - 1]];
      WeightedAppend(t, s[|s| - 1]);
      ModAdd(Weighted(t), Sum(s));
    }
  }

  lemma WeightedNothing()
    ensures Weighted([]) == 0
  {}

  lemma ModAdd(x: nat, y: nat)
    ensures (x % 256 + y % 256) % 256 == (x + y) % 256
  {
    WrapIs(x % 256 + y % 256, (x + y) / 256 - x / 256 - y / 256, (x + y) % 256);
  }

  lemma {:induction false} WeightedUpdate(s: seq<byte>, i: nat, b: byte)
    requires i < |s|
    ensures Weighted(s[i := b]) == Weighted(s) + (|s| - i) * (b as int - s[i] as int)
    decreases |s|
  {
    var t := s[i := b];
    if i == 0 {
      assert t[1..] == s[1..];
      assert |s| * b == |s| * s[0] + |s| * (b as int - s[0] as int);
    } else {
      assert t[1..] == s[1..][i - 1 := b];
      WeightedUpdate(s[1..], i - 1, b);
    }
  }

  /** Changing one byte changes the first sum. */
  lemma ChangeShows(s: seq<byte>, i: nat, b: byte)
    requires i < |s| && s[i] != b
    ensures FletcherA(s[i := b]) != FletcherA(s)
  {
    SumUpdate(s, i, b);
  }

  function Swap(s: seq<byte>, i: nat): seq<byte>
    requires i + 1 < |s|
  {
    s[i := s[i + 1]][i + 1 := s[i]]
  }

  /** Swapping unequal neighbours leaves the first sum and changes the second. */
  lemma SwapShows(s: seq<byte>, i: nat)
    requires i + 1 < |s| && s[i] != s[i + 1]
    ensures FletcherA(Swap(s, i)) == FletcherA(s) && FletcherB(Swap(s, i)) != FletcherB(s)
  {
    hide Weighted, Sum, FletcherA, FletcherB;
    SumSwap(s, i);
    WeightedSwap(s, i);
    FletcherIs(s);
    FletcherIs(Swap(s, i));
    ModDiffers(Weighted(Swap(s, i)), Weighted(s));
  }

  lemma SumSwap(s: seq<byte>, i: nat)
    requires i + 1 < |s|
    ensures Sum(Swap(s, i)) == Sum(s)
  {
    hide Sum;
    SumUpdate(s, i, s[i + 1]);
    SumUpdate(s[i := s[i + 1]], i + 1, s[i]);
  }

  lemma WeightedSwap(s: seq<byte>, i: nat)
    requires i + 1 < |s|
    ensures Weighted(Swap(s, i)) == Weighted(s) + s[i + 1] as int - s[i] as int
  {
    hide Weighted;
    WeightedUpdate(s, i, s[i + 1]);
    WeightedUpdate(s[i := s[i + 1]], i + 1, s[i]);
    Telescope(|s| - i, s[i + 1] as int - s[i] as int);
  }

  lemma Telescope(k: int, d: int)
    ensures k * d + (k - 1) * -d == d
  {}

  // ---------- frames ----------

  /** Class, message id and length. */
  function Header(cls: byte, id: byte, n: nat): seq<byte>
    requires n < 0x1_0000
  {
    [cls, id, n % 256, n / 256]
  }

  function Sums(s: seq<byte>): seq<byte> { [FletcherA(s), FletcherB(s)] }

  const SYNC: seq<byte> := [0xb5, 0x62]

  datatype Damage = Whole | Changed(at: nat, b: byte) | Swapped(at: nat)

  /** A message, and what became of its payload and checksum on the line. */
  datatype Item = Item(cls: byte, id: byte, payload: seq<byte>, damage: Damage)

  predicate WellFormed(x: Item) {
    && 1 <= |x.payload| <= MAX_PACKET_LENGTH
    && match x.damage
       case Whole => true
       case Changed(at, b) => at < |x.payload| + 2 && Body(x)[at] != b
       case Swapped(at) => at + 1 < |x.payload| && x.payload[at] != x.payload[at + 1]
  }

  function Head(x: Item): (h: seq<byte>)
    requires |x.payload| <= MAX_PACKET_LENGTH
    ensures |h| == 4
  {
    Header(x.cls, x.id, |x.payload|)
  }

  /** Payload and checksum. */
  function Body(x: Item): (b: seq<byte>)
    requires |x.payload| <= MAX_PACKET_LENGTH
    ensures |b| == |x.payload| + 2
  {
    x.payload + Sums(Head(x) + x.payload)
  }

  function Received(x: Item): (b: seq<byte>)
    requires WellFormed(x)
    ensures |b| == |x.payload| + 2
  {
    match x.damage
    case Whole => Body(x)
    case Changed(at, b) => Body(x)[at := b]
    case Swapped(at) => Swap(Body(x), at)
  }

  function Frame(x: Item): seq<byte>
    requires |x.payload| <= MAX_PACKET_LENGTH
  {
    SYNC + Head(x) + Body(x)
  }

  function Sent(x: Item): seq<byte>
    requires WellFormed(x)
  {
    SYNC + Head(x) + Received(x)
  }

  lemma CheckReads(head: seq<byte>, body: seq<byte>)
    requires |head| == 4 && |body| >= 2
    ensures var n := |body| - 2;
            UbxOk(SYNC + head + body) <==>
            FletcherA(head + body[..n]) == body[n] && FletcherB(head + body[..n]) == body[n + 1]
  {
    var f, n := SYNC + head + body, |body| - 2;
    assert f[2..|f| - 2] == head + body[..n];
    assert f[|f| - 2] == body[n] && f[|f| - 1] == body[n + 1];
  }

  /** The check passes exactly the undamaged frames. */
  lemma SentOk(x: Item)
    requires WellFormed(x)
    ensures UbxOk(Sent(x)) <==> x.damage.Whole?
  {
    hide FletcherA, FletcherB;
    var head, n, body, got := Head(x), |x.payload|, Body(x), Received(x);
    var whole := head + x.payload;
    CheckReads(head, got);
    assert body[..n] == x.payload;
    match x.damage
    case Whole =>
    case Changed(at, b) =>
      if at < n {
        assert head + got[..n] == whole[4 + at := b];
        ChangeShows(whole, 4 + at, b);
      } else {
        assert got[..n] == x.payload;
      }
    case Swapped(at) =>
      assert head + got[..n] == Swap(whole, 4 + at);
      SwapShows(whole, 4 + at);
  }

  // ---------- the lexer on a frame ----------

  predicate Ready(l: Lexer) {
    Safe(l) && (l.state == Ground || l.state == UbxRecognized) && l.seen == []
  }

  /** The sync bytes, the header and the first byte of the payload. */
  function Lead(x: Item, first: byte): (f: seq<byte>)
    requires |x.payload| <= MAX_PACKET_LENGTH
    ensures |f| == 7
  {
    SYNC + Head(x) + [first]
  }

  function LeadPath(l: Lexer, n: nat): seq<(LexState, nat)> {
    [(UbxLeader1, l.length), (UbxLeader2, l.length), (UbxClassId, l.length), (UbxMessageId, l.length),
     (UbxLength1, n % 256), (UbxLength2, n), (UbxPayload, n)]
  }

  lemma UbxFamily()
    ensures FamilyOf(UbxLeader1) == Ubx && FamilyOf(UbxLeader2) == Ubx && FamilyOf(UbxClassId) == Ubx
    ensures FamilyOf(UbxMessageId) == Ubx && FamilyOf(UbxLength1) == Ubx && FamilyOf(UbxLength2) == Ubx
    ensures FamilyOf(UbxPayload) == Ubx && FamilyOf(UbxChecksumA) == Ubx && FamilyOf(UbxRecognized) == Ubx
  {
    hide FamilyOf;
    LeaderFamily();
    LengthFamily();
    PayloadFamily();
  }

  lemma LeaderFamily()
    ensures FamilyOf(UbxLeader1) == Ubx && FamilyOf(UbxLeader2) == Ubx && FamilyOf(UbxClassId) == Ubx
  {}

  lemma LengthFamily()
    ensures FamilyOf(UbxMessageId) == Ubx && FamilyOf(UbxLength1) == Ubx && FamilyOf(UbxLength2) == Ubx
  {}

  lemma PayloadFamily()
    ensures FamilyOf(UbxPayload) == Ubx && FamilyOf(UbxChecksumA) == Ubx && FamilyOf(UbxRecognized) == Ubx
  {}

  lemma LeadNext(l: Lexer, x: Item, first: byte, k: nat)
    requires 1 <= |x.payload| <= MAX_PACKET_LENGTH && k < 7
    requires l.state == if k == 0 then UbxRecognized else LeadPath(l, |x.payload|)[k - 1].0
    requires k == 5 ==> l.length == |x.payload| % 256
    requires k == 6 ==> l.length == |x.payload|
    ensures UbxNext(l.state, l.length, Lead(x, first)[k]) == LeadPath(l, |x.payload|)[k]
  {}

  lemma LeadStep(l: Lexer, x: Item, first: byte, k: nat)
    requires 1 <= |x.payload| <= MAX_PACKET_LENGTH && k < 7
    requires if k == 0 then l.state == Ground || l.state == UbxRecognized else l.state == LeadPath(l, |x.payload|)[k - 1].0
    requires k == 5 ==> l.length == |x.payload| % 256
    requires k == 6 ==> l.length == |x.payload|
    ensures var leg := LeadPath(l, |x.payload|)[k]; Leads(l, Lead(x, first)[k], leg.0, leg.1)
  {
    hide FamilyOf, Leads, UbxNext;
    UbxFamily();
    if k == 0 && l.state == Ground {
      GroundLeads(l);
    } else {
      FamilyLeads(l, Lead(x, first)[k]);
      LeadNext(l, x, first, k);
    }
  }

  lemma UbxMid(l: Lexer, n: nat, k: nat)
    requires k < 7
    ensures Mid(LeadPath(l, n)[k].0) && Mid(UbxChecksumA)
  {}

  lemma LeadPaved(l: Lexer, x: Item, first: byte)
    requires l.state == Ground || l.state == UbxRecognized
    requires 1 <= |x.payload| <= MAX_PACKET_LENGTH
    ensures Paved(l, Lead(x, first), LeadPath(l, |x.payload|))
  {
    hide FamilyOf, Leads, Mid, Lead;
    var f, path := Lead(x, first), LeadPath(l, |x.payload|);
    forall k | 0 <= k < 7
      ensures Leads(Along(l, f, path, k), f[k], path[k].0, path[k].1) && Mid(path[k].0)
    {
      LeadStep(Along(l, f, path, k), x, first, k);
      UbxMid(l, |x.payload|, k);
    }
  }

  lemma UbxVerdict(kind: PacketType, frame: seq<byte>)
    requires |frame| >= 4
    ensures Judge(kind, UbxRecognized, frame) == if UbxOk(frame) then (Accept(UbxPacket), UbxRecognized) else (Discard, Ground)
  {
    hide NmeaOk, SirfOk, UbxOk, EvermoreOk, GarminOk, TsipOk;
  }

  function Past(l: Lexer, ok: bool): Lexer {
    Lexer(if ok then UbxPacket else l.kind, if ok then UbxRecognized else Ground, 0, l.rtcm, [])
  }

  lemma ItemParts(x: Item)
    requires WellFormed(x)
    ensures
      var n, got := |x.payload|, Received(x);
      1 <= n <= MAX_PACKET_LENGTH && |Sent(x)| == n + 8
      && Sent(x) == Lead(x, got[0]) + got[1..n + 1] + [got[n + 1]]
      && (x.damage.Whole? ==> Sent(x) == Frame(x))
  {
    hide Head;
    var got := Received(x);
    assert got == [got[0]] + got[1..|x.payload| + 1] + [got[|x.payload| + 1]];
  }

  lemma LastLeads(l: Lexer, c: byte)
    requires l.state == UbxChecksumA
    ensures Leads(l, c, UbxRecognized, l.length)
  {}

  /** One message, delivered as it was sent or dropped whole. */
  lemma ItemRun(l: Lexer, x: Item, rest: seq<byte>)
    requires Ready(l) && WellFormed(x)
    ensures
      var ok := x.damage.Whole?;
      var m := Past(l, ok);
      Ready(m) && Run(l, Sent(x) + rest) == (Run(m, rest).0, (if ok then [Delivery(UbxPacket, Frame(x))] else []) + Run(m, rest).1)
  {
    hide Safe, Run, Leads, Mid, Judge, UbxOk, WellFormed, Paved, Head, Body, Lead, Sent, Received, Frame;
    ItemParts(x);
    SentOk(x);
    var n, got, ok := |x.payload|, Received(x), x.damage.Whole?;
    var lead, middle, last := Lead(x, got[0]), got[1..n + 1], got[n + 1];
    assert Sent(x) + rest == lead + (middle + ([last] + rest));
    LeadPaved(l, x, got[0]);
    WholePath(l, lead, LeadPath(l, n), middle + ([last] + rest));
    var l1 := Reading(l, UbxPayload, n, lead);
    assert [] + lead == lead;
    CountedRun(l1, UbxChecksumA, middle, [last] + rest);
    var l2 := Reading(l, UbxChecksumA, 0, lead + middle);
    LastLeads(l2, last);
    UbxVerdict(l.kind, Sent(x));
    LastRun(l2, last, UbxRecognized, 0, if ok then Accept(UbxPacket) else Discard, if ok then UbxRecognized else Ground, rest);
  }

  // ---------- streams ----------

  function OnAir(xs: seq<Item>): seq<byte>
    requires forall k :: 0 <= k < |xs| ==> WellFormed(xs[k])
  {
    if xs == [] then [] else Sent(xs[0]) + OnAir(xs[1..])
  }

  /** The undamaged messages. */
  function Intact(xs: seq<Item>): seq<Delivery>
    requires forall k :: 0 <= k < |xs| ==> WellFormed(xs[k])
  {
    if xs == [] then []
    else
      assert WellFormed(xs[0]);
      (if xs[0].damage.Whole? then [Delivery(UbxPacket, Frame(xs[0]))] else []) + Intact(xs[1..])
  }

  /** A stream of messages with payloads of 1 to MAX_PACKET_LENGTH bytes is delivered one for one, save
      those in which a payload or checksum byte was changed or two unequal neighbours of the payload
      were swapped. */
  lemma {:induction false} UbxStream(l: Lexer, xs: seq<Item>)
    requires Ready(l) && forall k :: 0 <= k < |xs| ==> WellFormed(xs[k])
    ensures var (m, out) := Run(l, OnAir(xs)); Ready(m) && out == Intact(xs)
    decreases |xs|
  {
    hide Safe, WellFormed, Sent, Frame;
    if xs == [] {
      assert Run(l, []) == (l, []);
    } else {
      hide Run;
      assert WellFormed(xs[0]);
      ItemRun(l, xs[0], OnAir(xs[1..]));
      UbxStream(Past(l, xs[0].damage.Whole?), xs[1..]);
    }
  }
}
