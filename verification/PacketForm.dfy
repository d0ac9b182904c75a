/** What stands in the buffer in the states of the other protocols: the leader, as much as the length
    announces, and the trailer. Hence what every packet delivered looks like, over any run on any bytes. */
module PacketForm {
  import opened Bytes
  import opened Packet
  import opened PacketRuns
  import opened PacketShape
  import opened PacketSound
  import Isgps
  import Nmea

  /** What was read since the start of the packet: all but a runt that the lexer has left in front. */
  function Bare(seen: seq<byte>): (f: seq<byte>) {
    if |seen| >= 4 && IsRunt(seen[..4]) then seen[4..] else seen
  }

  // ---------- SiRF ----------

  function SirfDeclared(f: seq<byte>): nat
    requires |f| >= 4
  {
    256 * (f[2] as int) + f[3]
  }

  predicate SirfHead(f: seq<byte>) {
    |f| >= 4 && f[0] == 0xa0 && f[1] == 0xa2 && SirfDeclared(f) + 2 <= 516
  }

  predicate SirfForm(state: LexState, length: nat, f: seq<byte>) {
    match state
    case SirfLeader1 => f == [0xa0]
    case SirfLeader2 => f == [0xa0, 0xa2]
    case SirfLength1 => |f| == 3 && f[0] == 0xa0 && f[1] == 0xa2 && length == 256 * (f[2] as int)
    case SirfPayload => SirfHead(f) && length > 0 && |f| + length == SirfDeclared(f) + 6
    case SirfDelivered => SirfHead(f) && |f| == SirfDeclared(f) + 6
    case SirfTrailer1 => SirfHead(f) && |f| == SirfDeclared(f) + 7 && f[|f| - 1] == 0xb0
    case SirfRecognized => IsSirf(f)
    case _ => false
  }

  /** A SiRF frame: A0 A2, the length of the payload, the payload, two checksum bytes, B0 B3. */
  predicate IsSirf(f: seq<byte>) {
    SirfHead(f) && |f| == SirfDeclared(f) + 8 && f[|f| - 2] == 0xb0 && f[|f| - 1] == 0xb3
  }

  lemma SirfNextForm(state: LexState, length: nat, f: seq<byte>, c: byte)
    requires FamilyOf(state) == Sirf && SirfForm(state, length, f)
    ensures var (next, n) := SirfNext(state, length, c); next == Ground || state == SirfRecognized || SirfForm(next, n, f + [c])
  {
    var g := f + [c];
    assert forall i :: 0 <= i < |f| ==> g[i] == f[i];
    assert g[|f|] == c;
  }

  // ---------- UBX ----------

  function UbxDeclared(f: seq<byte>): nat
    requires |f| >= 6
  {
    f[4] as int + 256 * (f[5] as int)
  }

  predicate UbxHead(f: seq<byte>) {
    |f| >= 6 && f[0] == 0xb5 && f[1] == 0x62 && UbxDeclared(f) <= 516
  }

  /** The bytes read and the counter add up; the counter of a frame without payload is decremented from
      zero. */
  predicate UbxAdds(f: seq<byte>, n: nat) {
    UbxHead(f) && n == (if UbxDeclared(f) == 0 && |f| != 7 then SIZE_MAX + 8 else UbxDeclared(f) + 7)
  }

  predicate UbxForm(state: LexState, length: nat, f: seq<byte>) {
    match state
    case UbxLeader1 => f == [0xb5]
    case UbxLeader2 => f == [0xb5, 0x62]
    case UbxClassId => |f| == 3 && f[0] == 0xb5 && f[1] == 0x62
    case UbxMessageId => |f| == 4 && f[0] == 0xb5 && f[1] == 0x62
    case UbxLength1 => |f| == 5 && f[0] == 0xb5 && f[1] == 0x62 && length == f[4]
    case UbxLength2 => |f| == 6 && UbxHead(f) && length == UbxDeclared(f)
    case UbxPayload => |f| >= 7 && UbxAdds(f, |f| + length) && (length == 0 ==> |f| == 7)
    case UbxChecksumA => |f| > 7 && UbxAdds(f, |f|)
    case UbxRecognized => |f| > 8 && UbxAdds(f, |f| - 1)
    case _ => false
  }

  lemma UbxHeadForm(state: LexState, length: nat, f: seq<byte>, c: byte)
    requires || state == UbxLeader1 || state == UbxLeader2 || state == UbxClassId || state == UbxMessageId
             || state == UbxLength1
    requires UbxForm(state, length, f)
    ensures var (next, n) := UbxNext(state, length, c); next == Ground || UbxForm(next, n, f + [c])
  {
    var g := f + [c];
    assert forall i :: 0 <= i < |f| ==> g[i] == f[i];
    assert g[|f|] == c;
  }

  lemma UbxNextForm(state: LexState, length: nat, f: seq<byte>, c: byte)
    requires FamilyOf(state) == Ubx && UbxForm(state, length, f)
    ensures var (next, n) := UbxNext(state, length, c); next == Ground || state == UbxRecognized || UbxForm(next, n, f + [c])
  {
    if state == UbxLength2 || state == UbxPayload || state == UbxChecksumA {
      var g := f + [c];
      assert forall i :: 0 <= i < |f| ==> g[i] == f[i];
      assert g[|f|] == c;
    } else if state != UbxRecognized {
      hide UbxAdds, UbxForm, UbxNext;
      UbxHeadForm(state, length, f, c);
    }
  }

  // ---------- Navcom ----------

  predicate NavcomHead(f: seq<byte>) {
    |f| >= 3 && f[0] == 0x02 && f[1] == 0x99 && f[2] == 0x66
  }

  /** What the length says of the bytes up to the checksum, as the counter is set. */
  function NavcomCounted(f: seq<byte>): nat
    requires |f| >= 6
  {
    var n := f[4] as int + 256 * (f[5] as int) - 4;
    if n < 0 then n + SIZE_MAX + 1 else n
  }

  predicate NavcomAdds(f: seq<byte>, n: nat) {
    NavcomHead(f) && |f| >= 6
    && n == 6 + NavcomCounted(f) + if NavcomCounted(f) == 0 && |f| > 6 then SIZE_MAX + 1 else 0
  }

  predicate NavcomForm(state: LexState, length: nat, f: seq<byte>) {
    match state
    case NavcomLeader1 => f == [0x02]
    case NavcomLeader2 => f == [0x02, 0x99]
    case NavcomLeader3 => f == [0x02, 0x99, 0x66]
    case NavcomId => |f| == 4 && NavcomHead(f)
    case NavcomLength1 => |f| == 5 && NavcomHead(f) && length == (if f[4] < 4 then SIZE_MAX + 1 + f[4] - 4 else f[4] - 4)
    case NavcomLength2 => NavcomAdds(f, |f| + length) && (length == 0 ==> |f| == 6)
    case NavcomPayload => |f| > 6 && NavcomAdds(f, |f|)
    case NavcomCsum => |f| > 7 && NavcomAdds(f, |f| - 1)
    case NavcomRecognized => |f| > 8 && NavcomAdds(f, |f| - 2) && f[|f| - 1] == 0x03
    case _ => false
  }

  lemma NavcomHeadForm(state: LexState, length: nat, f: seq<byte>, seen: seq<byte>, c: byte)
    requires state == NavcomLeader1 || state == NavcomLeader2 || state == NavcomLeader3 || state == NavcomId || state == NavcomLength1
    requires NavcomForm(state, length, f)
    ensures var (next, n) := NavcomNext(state, length, seen, c); next == Ground || NavcomForm(next, n, f + [c])
  {
    hide NavcomSum;
    var g := f + [c];
    assert forall i :: 0 <= i < |f| ==> g[i] == f[i];
    assert g[|f|] == c;
  }

  lemma NavcomNextForm(state: LexState, length: nat, f: seq<byte>, seen: seq<byte>, c: byte)
    requires FamilyOf(state) == Navcom && NavcomForm(state, length, f) && (state == NavcomPayload ==> |seen| >= 4)
    ensures var (next, n) := NavcomNext(state, length, seen, c);
            next == Ground || state == NavcomRecognized || NavcomForm(next, n, f + [c])
  {
    if state == NavcomLength2 || state == NavcomPayload || state == NavcomCsum {
      hide NavcomSum;
      var g := f + [c];
      assert forall i :: 0 <= i < |f| ==> g[i] == f[i];
      assert g[|f|] == c;
    } else if state != NavcomRecognized {
      hide NavcomSum, NavcomAdds;
      NavcomHeadForm(state, length, f, seen, c);
    }
  }

  // ---------- sentences, comments and greetings ----------

  predicate AllPrint(f: seq<byte>) { forall i :: 0 <= i < |f| ==> IsPrint(f[i]) }

  /** Begun like a sentence, and nothing in it that is not printable. */
  predicate Begun(f: seq<byte>) { f != [] && (f[0] == '$' as int || f[0] == '!' as int) && AllPrint(f) }

  predicate EndsIn(f: seq<byte>, end: seq<byte>) { |f| >= |end| && f[|f| - |end|..] == end }

  /** From `i` on an opening character, one of the tags known, and characters other than a dollar. */
  predicate SentenceFrom(f: seq<byte>, i: nat, n: nat) {
    && (n == 2 || n == 3) && i + 1 + n <= |f| && Nmea.Leader(f[i], f[i + 1..i + 1 + n])
    && '$' as int !in f[i + 1 + n..]
  }

  /** A sentence without its line end; a dollar inside a sentence begins another, and what came before
      stays in front. */
  ghost predicate SentenceBody(f: seq<byte>) {
    Begun(f) && exists i: nat, n: nat :: SentenceFrom(f, i, n)
  }

  ghost predicate IsSentence(f: seq<byte>) {
    |f| >= 2 && f[|f| - 1] == '\n' as int
    && (SentenceBody(f[..|f| - 1]) || (f[|f| - 2] == '\r' as int && SentenceBody(f[..|f| - 2])))
  }

  predicate IsComment(f: seq<byte>) {
    |f| >= 2 && f[0] == '#' as int && f[|f| - 1] == '\n' as int && AllPrint(f[..|f| - 1])
  }

  const ASTRAL: seq<byte> := ['A' as int, 'S' as int, 'T' as int, 'R' as int, 'L' as int]
  const EARTHA: seq<byte> := ['E' as int, 'A' as int, 'R' as int, 'T' as int, 'H' as int, 'A' as int]

  const G: byte := 'G' as int
  const P: byte := 'P' as int
  const I: byte := 'I' as int
  const A: byte := 'A' as int
  const DOLLAR: byte := '$' as int
  const BANG: byte := '!' as int

  ghost predicate TextForm(state: LexState, f: seq<byte>) {
    match state
    case CommentBody => f != [] && f[0] == '#' as int && AllPrint(f)
    case CommentRecognized => IsComment(f)
    case NmeaDollar => Begun(f) && EndsIn(f, [DOLLAR])
    case NmeaBang => f == [BANG]
    case NmeaPubLead => Begun(f) && EndsIn(f, [DOLLAR, G])
    case NmeaVendorLead => Begun(f) && EndsIn(f, [DOLLAR, P])
    case SeatalkLead1 => Begun(f) && EndsIn(f, [DOLLAR, I])
    case SirfAckLead1 => Begun(f) && EndsIn(f, [DOLLAR, A])
    case SirfAckLead2 => Begun(f) && EndsIn(f, [DOLLAR, A, 'c' as int])
    case AisLead1 => f == [BANG, A]
    case AisLead2 => Begun(f) && (EndsIn(f, [BANG, A, I]) || EndsIn(f, [DOLLAR, A, I]))
    case NmeaLeaderEnd => SentenceBody(f)
    case NmeaCr => f != [] && f[|f| - 1] == '\r' as int && SentenceBody(f[..|f| - 1])
    case NmeaRecognized => IsSentence(f) || f == ASTRAL || f == EARTHA
    case _ => false
  }

  lemma BegunNext(f: seq<byte>, c: byte)
    requires Begun(f) && IsPrint(c)
    ensures Begun(f + [c])
  {}

  lemma EndsNext(f: seq<byte>, end: seq<byte>, c: byte)
    requires EndsIn(f, end)
    ensures EndsIn(f + [c], end + [c])
  {
    assert (f + [c])[|f| - |end|..] == f[|f| - |end|..] + [c];
  }

  /** The tag is complete. */
  lemma TagEnds(f: seq<byte>, open: byte, tag: seq<byte>)
    requires Begun(f) && EndsIn(f, [open] + tag) && Nmea.Leader(open, tag)
    ensures SentenceBody(f)
  {
    var n := |tag|;
    var i := |f| - n - 1;
    assert f[i..] == [open] + tag;
    assert f[i] == f[i..][0] == open && f[i + 1..i + 1 + n] == f[i..][1..] == tag;
    assert f[i + 1 + n..] == [];
    assert SentenceFrom(f, i, n);
  }

  lemma BodyNext(f: seq<byte>, c: byte)
    requires SentenceBody(f) && IsPrint(c) && c != DOLLAR
    ensures SentenceBody(f + [c])
  {
    var i: nat, n: nat :| SentenceFrom(f, i, n);
    var g := f + [c];
    BegunNext(f, c);
    assert g[i] == f[i] && g[i + 1..i + 1 + n] == f[i + 1..i + 1 + n] && g[i + 1 + n..] == f[i + 1 + n..] + [c];
    assert SentenceFrom(g, i, n);
  }

  lemma CommentNext(state: LexState, f: seq<byte>, c: byte)
    requires state == CommentBody && TextForm(state, f)
    ensures var next := TextNext(state, c); next == Ground || TextForm(next, f + [c])
  {
    var g := f + [c];
    assert g[..|g| - 1] == f;
  }

  lemma DollarNext(f: seq<byte>, c: byte)
    requires TextForm(NmeaDollar, f)
    ensures var next := TextNext(NmeaDollar, c); next == Ground || TextForm(next, f + [c])
  {
    hide Begun, EndsIn;
    EndsNext(f, [DOLLAR], c);
    assert [DOLLAR] + [c] == [DOLLAR, c];
    if IsPrint(c) {
      BegunNext(f, c);
    }
  }

  lemma TwoLetters(state: LexState, f: seq<byte>, c: byte)
    requires state == NmeaPubLead || state == NmeaVendorLead || state == SeatalkLead1
    requires TextForm(state, f)
    ensures var next := TextNext(state, c); next == Ground || TextForm(next, f + [c])
  {
    hide Begun, EndsIn, SentenceBody;
    var first := if state == NmeaPubLead then G else if state == NmeaVendorLead then P else I;
    EndsNext(f, [DOLLAR, first], c);
    assert [DOLLAR, first] + [c] == [DOLLAR] + [first, c];
    if IsPrint(c) {
      BegunNext(f, c);
    }
    if TextNext(state, c) != Ground {
      TagEnds(f + [c], DOLLAR, [first, c]);
    }
  }

  lemma AckNext(state: LexState, f: seq<byte>, c: byte)
    requires state == SirfAckLead1 || state == SirfAckLead2
    requires TextForm(state, f)
    ensures var next := TextNext(state, c); next == Ground || TextForm(next, f + [c])
  {
    hide Begun, EndsIn, SentenceBody;
    if IsPrint(c) {
      BegunNext(f, c);
    }
    if state == SirfAckLead1 {
      EndsNext(f, [DOLLAR, A], c);
      assert [DOLLAR, A] + [c] == [DOLLAR, A, c];
    } else {
      EndsNext(f, [DOLLAR, A, 'c' as int], c);
      assert [DOLLAR, A, 'c' as int] + [c] == [DOLLAR] + [A, 'c' as int, c];
      if TextNext(state, c) != Ground {
        TagEnds(f + [c], DOLLAR, [A, 'c' as int, c]);
      }
    }
  }

  lemma BangNext(state: LexState, f: seq<byte>, c: byte)
    requires state == NmeaBang || state == AisLead1
    requires TextForm(state, f)
    ensures var next := TextNext(state, c); next == Ground || TextForm(next, f + [c])
  {
    hide SentenceBody;
    var g := f + [c];
    if state == NmeaBang {
      assert g == [BANG, c];
    } else {
      assert g == [BANG, A, c] && g[0..] == g;
    }
  }

  lemma AisNext(f: seq<byte>, c: byte)
    requires TextForm(AisLead2, f)
    ensures var next := TextNext(AisLead2, c); next == Ground || TextForm(next, f + [c])
  {
    hide SentenceBody, Begun, EndsIn;
    if IsAlpha(c) {
      BegunNext(f, c);
      var open := if EndsIn(f, [BANG, A, I]) then BANG else DOLLAR;
      EndsNext(f, [open, A, I], c);
      assert [open, A, I] + [c] == [open] + [A, I, c];
      TagEnds(f + [c], open, [A, I, c]);
    }
  }

  lemma BodyForm(state: LexState, f: seq<byte>, c: byte)
    requires state == NmeaLeaderEnd || state == NmeaCr
    requires TextForm(state, f)
    ensures var next := TextNext(state, c); next == Ground || TextForm(next, f + [c])
  {
    hide SentenceBody;
    var g := f + [c];
    assert g[..|g| - 1] == f;
    if state == NmeaCr {
      assert g[..|g| - 2] == f[..|f| - 1];
    } else if c == DOLLAR {
      BodyBegun(f);
      BegunNext(f, c);
      assert g[|g| - 1..] == [DOLLAR];
    } else if IsPrint(c) {
      BodyNext(f, c);
    }
    assert state == NmeaLeaderEnd ==> f != [] by {
      if state == NmeaLeaderEnd { BodyBegun(f); }
    }
  }

  lemma BodyBegun(f: seq<byte>)
    requires SentenceBody(f)
    ensures Begun(f)
  {}

  lemma TextNextForm(state: LexState, f: seq<byte>, c: byte)
    requires FamilyOf(state) == Text && state != NmeaRecognized && state != CommentRecognized && TextForm(state, f)
    ensures var next := TextNext(state, c); next == Ground || TextForm(next, f + [c])
  {
    hide TextForm, TextNext;
    match state
    case CommentBody => CommentNext(state, f, c);
    case NmeaDollar => DollarNext(f, c);
    case NmeaBang => BangNext(state, f, c);
    case AisLead1 => BangNext(state, f, c);
    case AisLead2 => AisNext(f, c);
    case SirfAckLead1 => AckNext(state, f, c);
    case SirfAckLead2 => AckNext(state, f, c);
    case NmeaLeaderEnd => BodyForm(state, f, c);
    case NmeaCr => BodyForm(state, f, c);
    case _ => TwoLetters(state, f, c);
  }

  predicate GreetingForm(state: LexState, f: seq<byte>) {
    match state
    case Astral1 => f == ASTRAL[..1]
    case Astral2 => f == ASTRAL[..2]
    case Astral3 => f == ASTRAL[..3]
    case Astral5 => f == ASTRAL[..4]
    case Eartha1 => f == EARTHA[..1]
    case Eartha2 => f == EARTHA[..2]
    case Eartha3 => f == EARTHA[..3]
    case Eartha4 => f == EARTHA[..4]
    case Eartha5 => f == EARTHA[..5]
    case _ => false
  }

  lemma AstralForm(state: LexState, f: seq<byte>, c: byte, stat: Isgps.Status)
    requires state == Astral1 || state == Astral2 || state == Astral3 || state == Astral5
    requires GreetingForm(state, f)
    ensures var next := GreetingNext(state, c, stat);
            next == Ground || next == RtcmRecognized || (next == NmeaRecognized && f + [c] == ASTRAL) || GreetingForm(next, f + [c])
  {
    var n := |f|;
    assert f == ASTRAL[..n];
    assert n < 5 && c == ASTRAL[n] ==> f + [c] == ASTRAL[..n + 1];
    assert ASTRAL[..5] == ASTRAL;
  }

  lemma EarthaForm(state: LexState, f: seq<byte>, c: byte, stat: Isgps.Status)
    requires state == Eartha1 || state == Eartha2 || state == Eartha3 || state == Eartha4 || state == Eartha5
    requires GreetingForm(state, f)
    ensures var next := GreetingNext(state, c, stat);
            next == Ground || next == RtcmRecognized || (next == NmeaRecognized && f + [c] == EARTHA) || GreetingForm(next, f + [c])
  {
    assert EARTHA[..6] == EARTHA;
    match state
    case Eartha1 => OneMore(f, 1, c);
    case Eartha2 => OneMore(f, 2, c);
    case Eartha3 => OneMore(f, 3, c);
    case Eartha4 => OneMore(f, 4, c);
    case Eartha5 => OneMore(f, 5, c);
  }

  lemma OneMore(f: seq<byte>, n: nat, c: byte)
    requires n < 6 && f == EARTHA[..n]
    ensures c == EARTHA[n] ==> f + [c] == EARTHA[..n + 1]
  {}

  // ---------- all states ----------

  ghost predicate Form(state: LexState, length: nat, f: seq<byte>) {
    match FamilyOf(state)
    case Sirf => SirfForm(state, length, f)
    case Ubx => UbxForm(state, length, f)
    case Navcom => NavcomForm(state, length, f)
    case Text => TextForm(state, f)
    case Greeting => GreetingForm(state, f)
    case _ => true
  }

  /** The checksum byte that lets a Navcom frame pass is that of the bytes before it. */
  predicate Summed(state: LexState, seen: seq<byte>) {
    && (state == NavcomCsum ==> |seen| >= 5 && seen[|seen| - 1] == NavcomSum(seen[..|seen| - 1]))
    && (state == NavcomRecognized ==> |seen| >= 6 && seen[|seen| - 2] == NavcomSum(seen[..|seen| - 2]))
  }

  /** The states the lexer can be in between packets. */
  predicate Starting(state: LexState) {
    state == Ground || state == NmeaRecognized || state == SirfRecognized || state == UbxRecognized
    || state == EvermoreRecognized || state == TsipRecognized || state == NavcomRecognized || state == RtcmSync
  }

  /** The states that end the reading of a packet. */
  predicate Ending(state: LexState) {
    state == CommentRecognized || state == RtcmRecognized || (Starting(state) && state != RtcmSync)
  }

  ghost predicate Formed(state: LexState, length: nat, seen: seq<byte>) {
    Form(state, length, Bare(seen)) && Summed(state, seen)
  }

  ghost predicate InForm(state: LexState, length: nat, seen: seq<byte>) {
    if seen == [] then Starting(state)
    else (state == Ground && IsRunt(seen)) || (!Ending(state) && Formed(state, length, seen))
  }

  lemma BareNext(seen: seq<byte>, c: byte)
    requires |seen| == 3 ==> seen[0] != DLE
    ensures Bare(seen + [c]) == Bare(seen) + [c]
  {
    var g := seen + [c];
    if |seen| >= 4 {
      assert g[..4] == seen[..4];
      assert g[4..] == seen[4..] + [c];
    } else if |seen| == 3 {
      assert g[..4][0] == seen[0];
    }
  }

  lemma BareStart(seen: seq<byte>, c: byte)
    requires seen == [] || IsRunt(seen)
    ensures Bare(seen + [c]) == [c]
  {
    var g := seen + [c];
    if seen != [] {
      assert g[..4] == seen && g[4..] == [c];
    }
  }

  /** The families whose frames do not begin with a DLE. */
  predicate Plain(family: Family) {
    family == Sirf || family == Ubx || family == Navcom || family == Text || family == Greeting
  }

  lemma FirstOfSirf(state: LexState, length: nat, f: seq<byte>)
    ensures SirfForm(state, length, f) ==> f != [] && f[0] != DLE
    ensures UbxForm(state, length, f) ==> f != [] && f[0] != DLE
  {}

  lemma FirstOfNavcom(state: LexState, length: nat, f: seq<byte>)
    ensures NavcomForm(state, length, f) ==> f != [] && f[0] != DLE
    ensures GreetingForm(state, f) ==> f != [] && f[0] != DLE
  {}

  lemma FirstOfText(state: LexState, f: seq<byte>)
    requires state != NmeaRecognized && TextForm(state, f)
    ensures f != [] && f[0] != DLE
  {}

  lemma FirstNotDle(state: LexState, length: nat, f: seq<byte>)
    requires Plain(FamilyOf(state)) && !Ending(state) && Form(state, length, f)
    ensures f != [] && f[0] != DLE
  {
    hide SirfForm, UbxForm, NavcomForm, GreetingForm, TextForm, FamilyOf;
    FirstOfSirf(state, length, f);
    FirstOfNavcom(state, length, f);
    if FamilyOf(state) == Text {
      FirstOfText(state, f);
    }
  }

  lemma BareGrows(state: LexState, length: nat, seen: seq<byte>, c: byte)
    requires Plain(FamilyOf(state)) && !Ending(state) && Form(state, length, Bare(seen))
    ensures Bare(seen + [c]) == Bare(seen) + [c]
  {
    hide Form, FamilyOf;
    FirstNotDle(state, length, Bare(seen));
    BareNext(seen, c);
  }

  // ---------- the first byte of a packet ----------

  lemma GroundForm(c: byte, stat: Isgps.Status, length: nat)
    ensures var next := GroundNext(c, stat); next == Ground || Form(next, length, [c])
  {
    assert ASTRAL[..1] == [A] && EARTHA[..1] == ['E' as int];
    assert [c][0..] == [c];
  }

  lemma EndedForm(state: LexState, length: nat, c: byte)
    ensures state == SirfRecognized ==> var (next, n) := SirfNext(state, length, c); next == Ground || (Form(next, n, [c]) && next == SirfLeader1)
    ensures state == UbxRecognized ==> var (next, n) := UbxNext(state, length, c); next == Ground || (Form(next, n, [c]) && next == UbxLeader1)
  {}

  lemma NavcomEndedForm(length: nat, seen: seq<byte>, c: byte)
    ensures var (next, n) := NavcomNext(NavcomRecognized, length, seen, c); next == Ground || (Form(next, n, [c]) && next == NavcomLeader1)
  {}

  lemma TextEndedForm(length: nat, c: byte)
    ensures var next := TextNext(NmeaRecognized, c); next == Ground || (Form(next, length, [c]) && (next == NmeaDollar || next == NmeaBang))
  {
    assert [c][0..] == [c];
  }

  lemma DleEndedForm(state: LexState, length: nat, c: byte)
    requires state == EvermoreRecognized || state == TsipRecognized
    ensures var next := DleNext(state, length, c).0; next == Ground || FamilyOf(next) == Dle
  {}

  lemma RtcmForm(state: LexState, stat: Isgps.Status)
    requires FamilyOf(state) == Rtcm
    ensures var next := RtcmNext(state, stat); next == Ground || FamilyOf(next) == Rtcm
  {}

  lemma StartingFamilies(state: LexState)
    requires Starting(state)
    ensures FamilyOf(state) == GroundFamily ==> state == Ground
    ensures FamilyOf(state) == Sirf ==> state == SirfRecognized
    ensures FamilyOf(state) == Ubx ==> state == UbxRecognized
    ensures FamilyOf(state) == Navcom ==> state == NavcomRecognized
    ensures FamilyOf(state) == Text ==> state == NmeaRecognized
    ensures FamilyOf(state) == Dle ==> state == EvermoreRecognized || state == TsipRecognized
    ensures FamilyOf(state) == Rtcm ==> state == RtcmSync
    ensures FamilyOf(state) != Greeting
  {}

  lemma FreeForm(state: LexState, length: nat, f: seq<byte>)
    requires FamilyOf(state) == Dle || FamilyOf(state) == Rtcm
    ensures Form(state, length, f)
  {}

  lemma StartNextForm(state: LexState, length: nat, seen: seq<byte>, c: byte, stat: Isgps.Status)
    requires Starting(state) && state != NavcomPayload
    ensures var (next, n) := NextState(state, length, seen, c, stat); next == Ground || Form(next, n, [c])
  {
    StartingFamilies(state);
    hide FamilyOf, Form, GroundNext, TextNext, GreetingNext, SirfNext, DleNext, NavcomNext, UbxNext, RtcmNext, Starting;
    match FamilyOf(state)
    case GroundFamily => GroundForm(c, stat, length);
    case Sirf => EndedForm(state, length, c);
    case Ubx => EndedForm(state, length, c);
    case Navcom => NavcomEndedForm(length, seen, c);
    case Text => TextEndedForm(length, c);
    case Dle =>
      DleEndedForm(state, length, c);
      if DleNext(state, length, c).0 != Ground {
        FreeForm(DleNext(state, length, c).0, length, [c]);
      }
    case Rtcm =>
      RtcmForm(state, stat);
      if RtcmNext(state, stat) != Ground {
        FreeForm(RtcmNext(state, stat), length, [c]);
      }
  }

  // ---------- the bytes behind it ----------

  lemma EndingFamilies(state: LexState)
    requires !Ending(state)
    ensures FamilyOf(state) != GroundFamily && state != SirfRecognized && state != UbxRecognized && state != NavcomRecognized
    ensures state != NmeaRecognized && state != CommentRecognized
  {}

  lemma GreetingNextForm(state: LexState, length: nat, f: seq<byte>, c: byte, stat: Isgps.Status)
    requires FamilyOf(state) == Greeting && GreetingForm(state, f)
    ensures var next := GreetingNext(state, c, stat); next == Ground || Form(next, length, f + [c])
  {
    if state == Astral1 || state == Astral2 || state == Astral3 || state == Astral5 {
      AstralForm(state, f, c, stat);
    } else if state != Astral4 {
      EarthaForm(state, f, c, stat);
    }
    hide GreetingForm;
    GreetingFamilies(state, c, stat);
  }

  lemma GreetingFamilies(state: LexState, c: byte, stat: Isgps.Status)
    requires FamilyOf(state) == Greeting
    ensures var next := GreetingNext(state, c, stat);
            next == Ground || next == RtcmRecognized || next == NmeaRecognized || FamilyOf(next) == Greeting
  {}

  lemma DleStays(state: LexState, length: nat, c: byte)
    requires FamilyOf(state) == Dle
    ensures var next := DleNext(state, length, c).0; next == Ground || FamilyOf(next) == Dle
  {}

  lemma SirfStays(state: LexState, length: nat, c: byte)
    requires FamilyOf(state) == Sirf
    ensures var next := SirfNext(state, length, c).0; next == Ground || FamilyOf(next) == Sirf
  {}

  lemma UbxStays(state: LexState, length: nat, c: byte)
    requires FamilyOf(state) == Ubx
    ensures var next := UbxNext(state, length, c).0; next == Ground || FamilyOf(next) == Ubx
  {}

  lemma NavcomStays(state: LexState, length: nat, seen: seq<byte>, c: byte)
    requires FamilyOf(state) == Navcom && (state == NavcomPayload ==> |seen| >= 4)
    ensures var next := NavcomNext(state, length, seen, c).0; next == Ground || FamilyOf(next) == Navcom
  {
    hide NavcomSum;
  }

  lemma TextStays(state: LexState, c: byte)
    requires FamilyOf(state) == Text
    ensures var next := TextNext(state, c); next == Ground || FamilyOf(next) == Text
  {}

  /** A byte in the middle of a packet. */
  lemma MiddleNextForm(state: LexState, length: nat, f: seq<byte>, seen: seq<byte>, c: byte, stat: Isgps.Status)
    requires !Ending(state) && Form(state, length, f) && (state == NavcomPayload ==> |seen| >= 4)
    ensures var (next, n) := NextState(state, length, seen, c, stat); next == Ground || Form(next, n, f + [c])
  {
    EndingFamilies(state);
    hide FamilyOf, GroundNext, TextNext, GreetingNext, SirfNext, DleNext, NavcomNext, UbxNext, RtcmNext, Ending,
         SirfForm, UbxForm, NavcomForm, TextForm, GreetingForm;
    match FamilyOf(state)
    case Sirf =>
      SirfNextForm(state, length, f, c);
      SirfStays(state, length, c);
    case Ubx =>
      UbxNextForm(state, length, f, c);
      UbxStays(state, length, c);
    case Navcom =>
      NavcomNextForm(state, length, f, seen, c);
      NavcomStays(state, length, seen, c);
    case Text =>
      TextNextForm(state, f, c);
      TextStays(state, c);
    case Greeting => GreetingNextForm(state, length, f, c, stat);
    case Dle => DleStays(state, length, c);
    case Rtcm => RtcmForm(state, stat);
  }

  lemma NotNavcomSummed(state: LexState, seen: seq<byte>)
    requires FamilyOf(state) != Navcom
    ensures Summed(state, seen)
  {
    hide NavcomSum;
  }

  lemma NavcomSummed(state: LexState, length: nat, seen: seq<byte>, c: byte)
    requires FamilyOf(state) == Navcom && Summed(state, seen) && |seen| >= MinSeen(state) && state != NavcomRecognized
    ensures var next := NavcomNext(state, length, seen, c).0; Summed(next, seen + [c])
  {
    hide NavcomSum;
    var g := seen + [c];
    assert g[..|g| - 1] == seen;
    if |seen| >= 1 {
      assert g[..|g| - 2] == seen[..|seen| - 1];
    }
  }

  lemma OnlyNavcom(state: LexState, length: nat, seen: seq<byte>, c: byte, stat: Isgps.Status)
    requires FamilyOf(state) != Navcom && (state == NavcomPayload ==> |seen| >= 4)
    ensures var next := NextState(state, length, seen, c, stat).0; next == NavcomLeader1 || FamilyOf(next) != Navcom
  {
    hide FamilyOf, GroundNext, TextNext, GreetingNext, SirfNext, DleNext, NavcomNext, UbxNext, RtcmNext;
    GroundFamilies();
    match FamilyOf(state)
    case GroundFamily => GroundNotNavcom(c, stat);
    case Sirf => SirfStays(state, length, c);
    case Ubx => UbxStays(state, length, c);
    case Text => TextStays(state, c);
    case Greeting => GreetingFamilies(state, c, stat);
    case Dle => DleStays(state, length, c);
    case Rtcm => RtcmForm(state, stat);
  }

  lemma GroundFamilies()
    ensures FamilyOf(Ground) != Navcom && FamilyOf(RtcmRecognized) != Navcom && FamilyOf(NmeaRecognized) != Navcom
  {}

  lemma GroundNotNavcom(c: byte, stat: Isgps.Status)
    ensures GroundNext(c, stat) == NavcomLeader1 || FamilyOf(GroundNext(c, stat)) != Navcom
  {}

  lemma NavcomNextIs(state: LexState, length: nat, seen: seq<byte>, c: byte, stat: Isgps.Status)
    requires FamilyOf(state) == Navcom && (state == NavcomPayload ==> |seen| >= 4)
    ensures NextState(state, length, seen, c, stat) == NavcomNext(state, length, seen, c)
  {
    hide NavcomNext, NavcomSum;
  }

  lemma NextSummed(state: LexState, length: nat, seen: seq<byte>, c: byte, stat: Isgps.Status)
    requires |seen| >= MinSeen(state) && Summed(state, seen) && state != NavcomRecognized
    ensures Summed(NextState(state, length, seen, c, stat).0, seen + [c])
  {
    NavcomPayloadSeen(state, seen);
    hide NextState, FamilyOf, Summed, MinSeen;
    var next := NextState(state, length, seen, c, stat).0;
    if FamilyOf(state) == Navcom {
      NavcomSummed(state, length, seen, c);
      NavcomNextIs(state, length, seen, c, stat);
    } else {
      OnlyNavcom(state, length, seen, c, stat);
      if next == NavcomLeader1 {
        LeaderSummed(seen + [c]);
      } else {
        NotNavcomSummed(next, seen + [c]);
      }
    }
  }

  lemma LeaderSummed(seen: seq<byte>)
    ensures Summed(NavcomLeader1, seen) && Summed(Ground, seen)
  {
    hide NavcomSum;
  }

  lemma RecognizedSummed(length: nat, c: byte, stat: Isgps.Status)
    ensures Summed(NextState(NavcomRecognized, length, [], c, stat).0, [c])
  {
    var next := NextState(NavcomRecognized, length, [], c, stat).0;
    assert next == NavcomLeader1 || next == Ground;
    hide NextState;
    LeaderSummed([c]);
  }

  // ---------- one turn ----------

  /** A frame about to be judged. */
  ghost predicate Ready(m: Lexer) {
    m.state == Ground || Formed(m.state, m.length, m.seen)
  }

  lemma AdvancedForm(l: Lexer, c: byte)
    requires Safe(l) && InForm(l.state, l.length, l.seen)
    ensures Ready(Advanced(l, c))
  {
    var stat := RtcmTurn(l, c).1;
    NavcomPayloadSeen(l.state, l.seen);
    hide NextState, RtcmTurn, MinSeen, Summed, Form, Ending, Bare, IsRunt, Isgps.InBounds;
    if l.seen == [] || (l.state == Ground && IsRunt(l.seen)) {
      BareStart(l.seen, c);
      GroundIsStarting();
      StartNextForm(l.state, l.length, l.seen, c, stat);
      StartSummed(l, c, stat);
    } else {
      MiddleNextForm(l.state, l.length, Bare(l.seen), l.seen, c, stat);
      NextSummed(l.state, l.length, l.seen, c, stat);
      MiddleBare(l.state, l.length, l.seen, c, stat);
    }
  }

  lemma GroundIsStarting()
    ensures Starting(Ground)
  {}

  lemma StartSummed(l: Lexer, c: byte, stat: Isgps.Status)
    requires |l.seen| >= MinSeen(l.state) && (l.state == NavcomPayload ==> |l.seen| >= 4)
    requires (l.seen == [] && Starting(l.state)) || l.state == Ground
    ensures Summed(NextState(l.state, l.length, l.seen, c, stat).0, l.seen + [c])
  {
    hide NextState, Summed, MinSeen, FamilyOf;
    if l.state == NavcomRecognized {
      RecognizedSummed(l.length, c, stat);
      assert l.seen + [c] == [c];
    } else {
      StartIsSummed(l.state, l.seen);
      NextSummed(l.state, l.length, l.seen, c, stat);
    }
  }

  lemma StartIsSummed(state: LexState, seen: seq<byte>)
    requires Starting(state) && state != NavcomRecognized
    ensures Summed(state, seen)
  {
    hide NavcomSum;
  }

  /** The runt, if there is one, stays what it is; families with free form need nothing. */
  lemma MiddleBare(state: LexState, length: nat, seen: seq<byte>, c: byte, stat: Isgps.Status)
    requires !Ending(state) && Form(state, length, Bare(seen)) && (state == NavcomPayload ==> |seen| >= 4)
    ensures var (next, n) := NextState(state, length, seen, c, stat);
            next == Ground || Bare(seen + [c]) == Bare(seen) + [c] || FamilyOf(next) == Dle || FamilyOf(next) == Rtcm
  {
    hide FamilyOf, Form, Ending, Bare, DleNext, RtcmNext, SirfNext, UbxNext, NavcomNext, TextNext, GreetingNext, GroundNext;
    EndingFamilies(state);
    if Plain(FamilyOf(state)) {
      BareGrows(state, length, seen, c);
    } else if FamilyOf(state) == Dle {
      DleStays(state, length, c);
    } else if FamilyOf(state) == Rtcm {
      RtcmForm(state, stat);
    }
  }

  /** Where a verdict leaves the lexer. */
  lemma JudgeForm(kind: PacketType, state: LexState, length: nat, frame: seq<byte>)
    requires frame != [] && (Framed(state) ==> |frame| >= 4) && (state == Ground || Formed(state, length, frame))
    requires state == Ground || MaybeRunt(state, frame)
    ensures var (action, after) := Judge(kind, state, frame);
            if action == ReadOn then InForm(after, length, frame) else Starting(after)
  {
    hide Judge, Formed, MaybeRunt, IsRunt;
    if IsChecked(state, |frame|) {
      JudgeChecked(kind, state, frame);
    } else {
      JudgeUnchecked(kind, state, frame);
      if state == TsipRecognized {
        assert |frame| == 4;
        ShortTsip(frame);
      }
    }
  }

  lemma VerdictForm(m: Lexer)
    requires m.seen != [] && EnoughSeen(m.state, |m.seen|) && Isgps.InBounds(m.rtcm)
    requires Ready(m) && (m.state == Ground || MaybeRunt(m.state, m.seen))
    ensures var t := Verdict(m); InForm(t.lexer.state, t.lexer.length, t.lexer.seen)
  {
    hide Judge, MinSeen, MaybeRunt, Formed, InForm, Isgps.InBounds, Starting;
    JudgeForm(m.kind, m.state, m.length, m.seen);
    var after := Judge(m.kind, m.state, m.seen).1;
    if Starting(after) {
      StartsInForm(after, m.length);
    }
  }

  lemma StartsInForm(state: LexState, length: nat)
    requires Starting(state)
    ensures InForm(state, length, [])
  {}

  // ---------- what is delivered ----------

  /** A UBX frame: B5 62, class and id, the length of the payload, the payload, which is not empty, and two
      checksum bytes. */
  predicate IsUbx(f: seq<byte>) {
    UbxHead(f) && UbxDeclared(f) > 0 && |f| == UbxDeclared(f) + 8
  }

  /** A Navcom frame: 02 99 66, the id, a length of five or more, which counts itself, the id and the
      checksum besides the data, then the data, the checksum, and 03. */
  predicate IsNavcom(f: seq<byte>) {
    && NavcomHead(f) && |f| >= 6
    && var n := f[4] as int + 256 * (f[5] as int);
    n >= 5 && |f| == n + 4 && f[|f| - 1] == 0x03
  }

  /** What a packet's bytes look like, a runt in front of them apart. */
  ghost predicate Looks(d: Delivery) {
    var f := Bare(d.bytes);
    match d.kind
    case CommentPacket => IsComment(f)
    case NmeaPacket => IsSentence(f) || f == ASTRAL || f == EARTHA
    case SirfPacket => IsSirf(f)
    case UbxPacket => IsUbx(f)
    case NavcomPacket =>
      var n := |d.bytes|;
      IsNavcom(f) && d.bytes[n - 2] == XorFold(0, d.bytes[3..n - 2])
    case _ => true
  }

  lemma UbxComplete(f: seq<byte>, length: nat)
    requires UbxForm(UbxRecognized, length, f) && |f| < BUFFER_SIZE
    ensures IsUbx(f)
  {}

  lemma NavcomComplete(f: seq<byte>, length: nat)
    requires NavcomForm(NavcomRecognized, length, f) && |f| < BUFFER_SIZE
    ensures IsNavcom(f)
  {}

  lemma SumFromTheFourth(seen: seq<byte>)
    requires |seen| >= 6 && seen[|seen| - 2] == NavcomSum(seen[..|seen| - 2])
    ensures seen[|seen| - 2] == XorFold(0, seen[3..|seen| - 2])
  {
    hide XorFold;
    var s := seen[..|seen| - 2];
    XorPrefixed(s[3], s[4..]);
    assert [s[3]] + s[4..] == seen[3..|seen| - 2];
  }

  /** The packet types of the states that are accepted in. */
  lemma AcceptedIn(kind: PacketType, state: LexState, frame: seq<byte>)
    requires Framed(state) ==> |frame| >= 4
    ensures var action := Judge(kind, state, frame).0;
      action.Accept? ==>
        match action.kind
        case CommentPacket => state == CommentRecognized
        case NmeaPacket => state == NmeaRecognized
        case SirfPacket => state == SirfRecognized
        case UbxPacket => state == UbxRecognized
        case NavcomPacket => state == NavcomRecognized
        case _ => true
  {
    hide NmeaOk, SirfOk, UbxOk, EvermoreOk, GarminOk, TsipOk;
  }

  /** The frames of the other states that end a packet. */
  lemma PlainLooks(kind: PacketType, state: LexState, length: nat, seen: seq<byte>)
    requires |seen| < BUFFER_SIZE && Form(state, length, Bare(seen))
    requires || (kind == CommentPacket && state == CommentRecognized) || (kind == NmeaPacket && state == NmeaRecognized)
             || (kind == SirfPacket && state == SirfRecognized) || (kind == UbxPacket && state == UbxRecognized)
    ensures Looks(Delivery(kind, seen))
  {
    hide IsRunt, IsSentence, IsComment, SirfForm, UbxForm, TextForm, IsSirf, IsUbx;
    var f := Bare(seen);
    assert |f| <= |seen|;
    hide Bare;
    EndedForms(length, f);
    if kind == UbxPacket {
      UbxComplete(f, length);
    }
  }

  lemma NavcomLooks(length: nat, seen: seq<byte>)
    requires |seen| < BUFFER_SIZE && Formed(NavcomRecognized, length, seen)
    ensures Looks(Delivery(NavcomPacket, seen))
  {
    hide IsRunt, NavcomForm, NavcomSum, XorFold, IsNavcom;
    var f := Bare(seen);
    assert |f| <= |seen|;
    NavcomComplete(f, length);
    SumFromTheFourth(seen);
  }

  lemma AcceptedLooks(kind: PacketType, m: Lexer)
    requires m.seen != [] && |m.seen| < BUFFER_SIZE && (Framed(m.state) ==> |m.seen| >= 4) && Ready(m)
    ensures var action := Judge(kind, m.state, m.seen).0; action.Accept? ==> Looks(Delivery(action.kind, m.seen))
  {
    hide Judge, Form, Summed, Bare, IsSentence, IsComment, IsSirf, IsUbx, IsNavcom, XorFold;
    AcceptedIn(kind, m.state, m.seen);
    var action := Judge(kind, m.state, m.seen).0;
    if action.Accept? {
      if action.kind == NavcomPacket {
        NavcomLooks(m.length, m.seen);
      } else if m.state == CommentRecognized || m.state == NmeaRecognized || m.state == SirfRecognized || m.state == UbxRecognized {
        AcceptedKind(kind, m.state, m.seen);
        PlainLooks(action.kind, m.state, m.length, m.seen);
      }
    }
  }

  lemma AcceptedKind(kind: PacketType, state: LexState, frame: seq<byte>)
    requires Framed(state) ==> |frame| >= 4
    requires Judge(kind, state, frame).0.Accept?
    ensures var kind := Judge(kind, state, frame).0.kind;
      && (state == CommentRecognized ==> kind == CommentPacket) && (state == NmeaRecognized ==> kind == NmeaPacket)
      && (state == SirfRecognized ==> kind == SirfPacket) && (state == UbxRecognized ==> kind == UbxPacket)
  {
    hide NmeaOk, SirfOk, UbxOk, EvermoreOk, GarminOk, TsipOk;
  }

  lemma EndedForms(length: nat, f: seq<byte>)
    ensures SirfForm(SirfRecognized, length, f) ==> IsSirf(f)
    ensures TextForm(CommentRecognized, f) ==> IsComment(f)
    ensures TextForm(NmeaRecognized, f) ==> IsSentence(f) || f == ASTRAL || f == EARTHA
  {}

  lemma VerdictLooks(m: Lexer)
    requires m.seen != [] && EnoughSeen(m.state, |m.seen|) && Isgps.InBounds(m.rtcm) && Ready(m)
    ensures forall d :: d in Verdict(m).out ==> Looks(d)
  {
    hide Judge, MinSeen, Ready, Looks, Isgps.InBounds;
    if |m.seen| < BUFFER_SIZE {
      AcceptedLooks(m.kind, m);
    }
  }

  lemma OneTurnForm(l: Lexer, c: byte)
    requires Safe(l) && Shaped(l.state, l.seen) && InForm(l.state, l.length, l.seen)
    ensures var t := OneTurn(l, c);
            InForm(t.lexer.state, t.lexer.length, t.lexer.seen) && forall d :: d in t.out ==> Looks(d)
  {
    hide Advanced, Verdict, Safe, EnoughSeen, Isgps.InBounds, MaybeRunt, Shaped, InForm, Ready, Looks;
    AdvancedShape(l, c);
    AdvancedForm(l, c);
    VerdictForm(Advanced(l, c));
    VerdictLooks(Advanced(l, c));
  }

  /** Over any run, from any state the lexer can be in, on any bytes: what comes out passed its check and
      looks as its type says. */
  lemma {:induction false} RunLooks(l: Lexer, pending: seq<byte>)
    requires Safe(l) && Shaped(l.state, l.seen) && InForm(l.state, l.length, l.seen)
    ensures var (m, out) := Run(l, pending);
            InForm(m.state, m.length, m.seen) && forall d :: d in out ==> Passed(d) && Looks(d)
    decreases |l.seen| + |pending|, |pending|
  {
    hide OneTurn, Safe, Shaped, InForm, Looks, Passed, Run;
    RunTurn(l, pending);
    if pending != [] {
      var t := OneTurn(l, pending[0]);
      OneTurnPassed(l, pending[0]);
      OneTurnShape(l, pending[0]);
      OneTurnForm(l, pending[0]);
      RunLooks(t.lexer, t.back + pending[1..]);
    }
  }
}
