/** NMEA sentences: the checksum writer of nmea_parse.c, the lexer on what it completes, and the split
    at commas that takes a sentence apart again. */
module Nmea {
  import opened Bytes
  import opened Packet
  import opened PacketRuns
  import opened PacketFeed

  const STAR: byte := '*' as int
  const DOLLAR: byte := '$' as int
  const BANG: byte := '!' as int
  const CR: byte := '\r' as int
  const LF: byte := '\n' as int
  const COMMA: byte := ',' as int

  // ---------- the writer ----------

  /** Star, checksum and line end behind the characters summed. */
  function Ending(summed: seq<byte>): seq<byte> {
    [STAR] + Hex2(XorFold(0, summed)) + [CR, LF]
  }

  /** Where the writer stops: the first star or NUL from `i` on. */
  predicate StopsAt(s: seq<byte>, i: nat, k: nat) {
    i <= k < |s| && (s[k] == STAR || s[k] == 0) && forall j :: i <= j < k ==> s[j] != STAR && s[j] != 0
  }

  /** nmea_add_checksum. The sum leaves out a leading '$', and nothing else. */
  method NmeaAddChecksum(sentence: array<byte>, ghost k: nat)
    requires sentence.Length > 0
    requires StopsAt(sentence[..], if sentence[0] == DOLLAR then 1 else 0, k) && k + 6 <= sentence.Length
    modifies sentence
    ensures
      var before := old(sentence[..]);
      sentence[..] == before[..k] + Ending(before[if before[0] == DOLLAR then 1 else 0..k]) + [0] + before[k + 6..]
  {
    hide XorFold, Hex2, Xor8;
    ghost var before := sentence[..];
    var p := 0;
    if sentence[p] == DOLLAR {
      p := p + 1;
    }
    ghost var start := p;
    var sum: byte := 0;
    assert before[start..p] == [];
    XorNothing();
    while sentence[p] != STAR && sentence[p] != 0
      invariant start <= p <= k && sentence[..] == before
      invariant sum == XorFold(0, before[start..p])
      decreases k - p
    {
      assert before[p] == sentence[p];
      XorNext(0, before[start..p], before[p]);
      assert before[start..p + 1] == before[start..p] + [before[p]];
      sum := Xor8(sum, sentence[p]);
      p := p + 1;
    }
    assert before[p] == sentence[p] && p == k;
    PutEnding(sentence, p, sum);
  }

  /** Star, the sum in "%02X" and the line end, which snprintf closes with a NUL. */
  method PutEnding(a: array<byte>, p: nat, sum: byte)
    requires p + 6 <= a.Length
    modifies a
    ensures a[..] == old(a[..p]) + [STAR] + Hex2(sum) + [CR, LF, 0] + old(a[p + 6..])
  {
    hide HexDigit;
    a[p] := STAR;
    a[p + 1], a[p + 2] := HexDigit(sum / 16), HexDigit(sum % 16);
    a[p + 3], a[p + 4], a[p + 5] := CR, LF, 0;
  }

  lemma XorNothing()
    ensures XorFold(0, []) == 0
  {}

  // ---------- the lexer on text ----------

  /** The state after the characters of `s`, if none of them ends a packet. */
  function Walk(state: LexState, s: seq<byte>): Option<LexState>
    decreases |s|
  {
    hide TextNext, Mid;
    if s == [] then Some(state)
    else
      var next := TextNext(state, s[0]);
      if Mid(next) then Walk(next, s[1..]) else None
  }

  lemma WalkOn(state: LexState, t: seq<byte>, next: LexState)
    requires t != [] && TextNext(state, t[0]) == next && Mid(next)
    ensures Walk(state, t) == Walk(next, t[1..])
  {
    hide TextNext, Mid;
  }

  lemma WalkTwo(state: LexState, t: seq<byte>, next: LexState, last: LexState)
    requires |t| == 2 && TextNext(state, t[0]) == next && TextNext(next, t[1]) == last && Mid(next) && Mid(last)
    ensures Walk(state, t) == Some(last)
  {
    hide TextNext, Mid;
    WalkOn(state, t, next);
    WalkOn(next, t[1..], last);
    assert t[1..][1..] == [];
  }

  lemma WalkThree(state: LexState, t: seq<byte>, next: LexState, after: LexState, last: LexState)
    requires |t| == 3 && TextNext(state, t[0]) == next && TextNext(next, t[1]) == after && TextNext(after, t[2]) == last
    requires Mid(next) && Mid(after) && Mid(last)
    ensures Walk(state, t) == Some(last)
  {
    hide TextNext, Mid;
    WalkTwo(next, t[1..], after, last);
    WalkOn(state, t, next);
  }

  lemma {:induction false} WalkConcat(state: LexState, a: seq<byte>, b: seq<byte>)
    requires Walk(state, a).Some?
    ensures Walk(state, a + b) == Walk(Walk(state, a).value, b)
    decreases |a|
  {
    hide TextNext, Mid;
    if a == [] {
      assert a + b == b;
    } else {
      assert (a + b)[1..] == a[1..] + b;
      WalkConcat(TextNext(state, a[0]), a[1..], b);
    }
  }

  /** The states that text leads to. */
  predicate Target(state: LexState) {
    || state == CommentRecognized || state == NmeaDollar || state == NmeaPubLead || state == NmeaVendorLead
    || state == SeatalkLead1 || state == SirfAckLead1 || state == SirfAckLead2 || state == AisLead1
    || state == AisLead2 || state == NmeaLeaderEnd || state == NmeaCr || state == NmeaRecognized || state == NmeaBang
  }

  lemma TextLeads(state: LexState, c: byte)
    ensures var next := TextNext(state, c); next == state || next == Ground || Target(next)
  {}

  lemma TargetIsText(state: LexState)
    requires Target(state)
    ensures FamilyOf(state) == Text
  {}

  lemma TextStays(state: LexState, c: byte)
    requires FamilyOf(state) == Text && Mid(TextNext(state, c))
    ensures FamilyOf(TextNext(state, c)) == Text
  {
    hide FamilyOf, TextNext, Target;
    var next := TextNext(state, c);
    TextLeads(state, c);
    if Target(next) {
      TargetIsText(next);
    }
  }

  lemma {:induction false} TextRun(l: Lexer, s: seq<byte>, rest: seq<byte>)
    requires Safe(l) && FamilyOf(l.state) == Text && Walk(l.state, s).Some?
    ensures
      var m := Reading(l, Walk(l.state, s).value, l.length, l.seen + s);
      Safe(m) && FamilyOf(m.state) == Text && Run(l, s + rest) == Run(m, rest)
    decreases |s|
  {
    hide Safe, Run, TextNext, Leads, Mid, FamilyOf;
    if s == [] {
      assert s + rest == rest && l.seen + s == l.seen;
    } else {
      var next := TextNext(l.state, s[0]);
      TextStays(l.state, s[0]);
      FamilyLeads(l, s[0]);
      assert [s[0]] + (s[1..] + rest) == s + rest;
      QuietRun(l, s[0], next, l.length, s[1..] + rest);
      TextRun(Reading(l, next, l.length, l.seen + [s[0]]), s[1..], rest);
      assert l.seen + [s[0]] + s[1..] == l.seen + s;
    }
  }

  // ---------- the lexer on a sentence ----------

  /** The prefixes the lexer knows: the opening character and the tag behind it. */
  predicate Leader(open: byte, t: seq<byte>) {
    if open == BANG then |t| == 3 && t[0] == 'A' as int && t[1] == 'I' as int && IsAlpha(t[2])
    else
      open == DOLLAR &&
      if |t| == 2 then
        || (t[0] == 'G' as int && t[1] == 'P' as int)
        || (t[0] == 'P' as int && IsAlpha(t[1]))
        || (t[0] == 'I' as int && (t[1] == 'I' as int || t[1] == 'N' as int))
      else
        |t| == 3 && t[0] == 'A' as int &&
        ((t[1] == 'c' as int && t[2] == 'k' as int) || (t[1] == 'I' as int && IsAlpha(t[2])))
  }

  /** Characters a sentence can go on with. */
  predicate Plain(c: byte) { IsPrint(c) && c != DOLLAR && c != STAR }

  predicate AllPlain(s: seq<byte>) { forall k :: 0 <= k < |s| ==> Plain(s[k]) }

  function Opened(c: byte): LexState { if c == BANG then NmeaBang else NmeaDollar }

  lemma NmeaMid()
    ensures Mid(NmeaDollar) && Mid(NmeaBang) && Mid(NmeaPubLead) && Mid(NmeaVendorLead) && Mid(NmeaLeaderEnd)
    ensures Mid(NmeaCr) && Mid(SirfAckLead1) && Mid(SirfAckLead2) && Mid(AisLead1) && Mid(AisLead2) && Mid(SeatalkLead1)
  {
    hide Mid;
    TagMid();
    VendorMid();
    SentenceMid();
  }

  lemma TagMid()
    ensures Mid(SirfAckLead1) && Mid(SirfAckLead2) && Mid(AisLead1) && Mid(AisLead2)
  {}

  lemma VendorMid()
    ensures Mid(SeatalkLead1) && Mid(NmeaPubLead) && Mid(NmeaVendorLead)
  {}

  lemma SentenceMid()
    ensures Mid(NmeaDollar) && Mid(NmeaBang) && Mid(NmeaLeaderEnd) && Mid(NmeaCr)
  {}

  lemma LeaderWalks(open: byte, t: seq<byte>)
    requires Leader(open, t)
    ensures Walk(Opened(open), t) == Some(NmeaLeaderEnd)
  {
    hide Mid, Walk;
    NmeaMid();
    if open == BANG {
      WalkThree(NmeaBang, t, AisLead1, AisLead2, NmeaLeaderEnd);
    } else if |t| == 3 {
      WalkThree(NmeaDollar, t, SirfAckLead1, if t[1] == 'c' as int then SirfAckLead2 else AisLead2, NmeaLeaderEnd);
    } else {
      var next :=
        if t[0] == 'G' as int then NmeaPubLead else if t[0] == 'P' as int then NmeaVendorLead else SeatalkLead1;
      WalkTwo(NmeaDollar, t, next, NmeaLeaderEnd);
    }
  }

  lemma {:induction false} PlainWalks(s: seq<byte>)
    requires AllPlain(s)
    ensures Walk(NmeaLeaderEnd, s) == Some(NmeaLeaderEnd)
    decreases |s|
  {
    if s != [] {
      assert Plain(s[0]);
      PlainWalks(s[1..]);
    }
  }

  lemma EndingWalks(a: byte, b: byte)
    requires IsPrint(a) && IsPrint(b) && a != DOLLAR && b != DOLLAR
    ensures Walk(NmeaLeaderEnd, [STAR, a, b] + [CR]) == Some(NmeaCr)
  {
    var s := [STAR, a, b];
    EndingSteps(a, b);
    NmeaMid();
    hide TextNext, Mid;
    WalkThree(NmeaLeaderEnd, s, NmeaLeaderEnd, NmeaLeaderEnd, NmeaLeaderEnd);
    WalkConcat(NmeaLeaderEnd, s, [CR]);
    WalkOn(NmeaLeaderEnd, [CR], NmeaCr);
  }

  lemma EndingSteps(a: byte, b: byte)
    requires IsPrint(a) && IsPrint(b) && a != DOLLAR && b != DOLLAR
    ensures TextNext(NmeaLeaderEnd, STAR) == TextNext(NmeaLeaderEnd, a) == TextNext(NmeaLeaderEnd, b) == NmeaLeaderEnd
    ensures TextNext(NmeaLeaderEnd, CR) == NmeaCr
  {}

  // ---------- sentences ----------

  /** A sentence as its maker fills it in, and what became of it on the line: at most one character of
      its text changed for another. */
  datatype Sentence = Sentence(open: byte, tag: seq<byte>, text: seq<byte>, damage: Option<(nat, byte)>)

  /** What the lexer sums. */
  function Summed(x: Sentence): seq<byte> { x.tag + x.text }

  /** The sentence as nmea_add_checksum leaves it, up to the NUL. */
  function Completed(x: Sentence): seq<byte> {
    [x.open] + Summed(x) + Ending(if x.open == DOLLAR then Summed(x) else [x.open] + Summed(x))
  }

  predicate WellFormed(x: Sentence) {
    && Leader(x.open, x.tag) && AllPlain(x.text) && |x.tag| + |x.text| + 6 < BUFFER_SIZE
    && (x.damage.Some? ==>
          x.open == DOLLAR && x.damage.value.0 < |x.text| && Plain(x.damage.value.1)
          && x.text[x.damage.value.0] != x.damage.value.1)
  }

  function Received(x: Sentence): seq<byte>
    requires WellFormed(x)
  {
    if x.damage.None? then x.text else x.text[x.damage.value.0 := x.damage.value.1]
  }

  /** The sentence on the line. */
  function Sent(x: Sentence): seq<byte>
    requires WellFormed(x)
  {
    [x.open] + (x.tag + Received(x)) + Ending(if x.open == DOLLAR then Summed(x) else [x.open] + Summed(x))
  }

  predicate Ready(l: Lexer) {
    Safe(l) && (l.state == Ground || l.state == NmeaRecognized) && l.seen == []
  }

  lemma HexDigits(m: nat, n: nat)
    requires m < 16 && n < 16
    ensures IsPrint(HexDigit(m)) && HexDigit(m) != DOLLAR && ToUpper(HexDigit(m)) == HexDigit(m)
    ensures HexDigit(m) == HexDigit(n) <==> m == n
  {}

  /** The check compares the exclusive or of what stands between first character and star with the one
      in the ending. */
  lemma CheckCompares(open: byte, body: seq<byte>, summed: seq<byte>)
    ensures NmeaOk([open] + body + Ending(summed)) <==> XorFold(0, body) == XorFold(0, summed)
  {
    var f := [open] + body + Ending(summed);
    var t := |f| - 5;
    var have, want := XorFold(0, body), XorFold(0, summed);
    assert f[1..t] == body && f[t] == STAR;
    assert f[t + 1] == HexDigit(want / 16) && f[t + 2] == HexDigit(want % 16);
    HexDigits(want / 16, have / 16);
    HexDigits(want % 16, have % 16);
    hide XorFold, HexDigit, ToUpper;
  }

  /** A completed sentence passes the check exactly if it began with a '$' and nothing was changed. */
  lemma SentOk(x: Sentence)
    requires WellFormed(x)
    ensures NmeaOk(Sent(x)) <==> x.open == DOLLAR && x.damage.None?
  {
    hide NmeaOk, Ending, XorFold, Plain, Leader;
    var body := x.tag + Received(x);
    if x.open == DOLLAR {
      CheckCompares(x.open, body, Summed(x));
      if x.damage.Some? {
        var (at, b) := x.damage.value;
        assert body == Summed(x)[|x.tag| + at := b];
        XorUpdate(0, Summed(x), |x.tag| + at, b);
      }
    } else {
      CheckCompares(x.open, body, [x.open] + Summed(x));
      XorPrefixed(x.open, Summed(x));
      XorStart(0, x.open, Summed(x));
      OpensWith(x);
    }
  }

  lemma OpensWith(x: Sentence)
    requires WellFormed(x)
    ensures (x.open == DOLLAR || x.open == BANG) && Leader(x.open, x.tag)
    ensures AllPlain(Received(x)) && |Sent(x)| < BUFFER_SIZE
  {}

  /** After the last sentence: in its state if it was accepted, on the ground if not. */
  function Past(l: Lexer, ok: bool): Lexer {
    Lexer(if ok then NmeaPacket else l.kind, if ok then NmeaRecognized else Ground, l.length, l.rtcm, [])
  }

  lemma OpenRun(l: Lexer, open: byte, rest: seq<byte>)
    requires Ready(l) && (open == DOLLAR || open == BANG)
    ensures var m := Reading(l, Opened(open), l.length, [open]); Safe(m) && Run(l, [open] + rest) == Run(m, rest)
  {
    NmeaMid();
    hide Safe, Run, Leads, Mid;
    if l.state == Ground {
      GroundLeads(l);
    } else {
      AfterSentence();
      FamilyLeads(l, open);
    }
    QuietRun(l, open, Opened(open), l.length, rest);
    assert [] + [open] == [open];
  }

  lemma AfterSentence()
    ensures FamilyOf(NmeaRecognized) == Text && FamilyOf(NmeaDollar) == Text && FamilyOf(NmeaBang) == Text
    ensures FamilyOf(NmeaCr) == Text
  {}

  lemma NmeaVerdict(kind: PacketType, frame: seq<byte>)
    ensures Judge(kind, NmeaRecognized, frame) == if NmeaOk(frame) then (Accept(NmeaPacket), NmeaRecognized) else (Discard, Ground)
  {
    hide NmeaOk, SirfOk, UbxOk, EvermoreOk, GarminOk, TsipOk;
  }

  /** The characters between the first and the last of a sentence. */
  lemma MiddleWalks(x: Sentence, ending: seq<byte>)
    requires WellFormed(x)
    requires |ending| == 5 && ending[0] == STAR && ending[3] == CR
    requires IsPrint(ending[1]) && IsPrint(ending[2]) && ending[1] != DOLLAR && ending[2] != DOLLAR
    ensures Walk(Opened(x.open), x.tag + Received(x) + ending[..4]) == Some(NmeaCr)
  {
    hide Walk, Leader, Plain, WellFormed, Mid, TextNext;
    OpensWith(x);
    var tag, text, end := x.tag, Received(x), ending[..4];
    assert end == [STAR, ending[1], ending[2]] + [CR];
    LeaderWalks(x.open, tag);
    PlainWalks(text);
    EndingWalks(ending[1], ending[2]);
    WalkConcat(Opened(x.open), tag, text);
    WalkConcat(Opened(x.open), tag + text, end);
  }

  lemma EndingParts(summed: seq<byte>)
    ensures var e := Ending(summed);
      |e| == 5 && e[0] == STAR && e[3] == CR && e[4] == LF
      && IsPrint(e[1]) && IsPrint(e[2]) && e[1] != DOLLAR && e[2] != DOLLAR
  {
    hide HexDigit, XorFold;
    var x := XorFold(0, summed);
    HexDigits(x / 16, x % 16);
    HexDigits(x % 16, x / 16);
  }

  /** One sentence, delivered unchanged or dropped whole. */
  lemma SentenceRun(l: Lexer, x: Sentence, rest: seq<byte>)
    requires Ready(l) && WellFormed(x)
    ensures
      var ok := x.open == DOLLAR && x.damage.None?;
      var m := Past(l, ok);
      Ready(m) && Run(l, Sent(x) + rest) == (Run(m, rest).0, (if ok then [Delivery(NmeaPacket, Completed(x))] else []) + Run(m, rest).1)
  {
    hide Safe, Run, Leads, Mid, NmeaOk, Judge, Walk, Ending, WellFormed, TextNext, FamilyOf;
    OpensWith(x);
    SentOk(x);
    AfterSentence();
    var e := Ending(if x.open == DOLLAR then Summed(x) else [x.open] + Summed(x));
    EndingParts(if x.open == DOLLAR then Summed(x) else [x.open] + Summed(x));
    var f, middle := Sent(x), x.tag + Received(x) + e[..4];
    assert f + rest == [x.open] + (middle + ([LF] + rest));
    OpenRun(l, x.open, middle + ([LF] + rest));
    var l1 := Reading(l, Opened(x.open), l.length, [x.open]);
    MiddleWalks(x, e);
    TextRun(l1, middle, [LF] + rest);
    var l2 := Reading(l, NmeaCr, l.length, [x.open] + middle);
    assert l2.seen + [LF] == f;
    FamilyLeads(l2, LF);
    LineFeed();
    NmeaVerdict(l.kind, f);
    var ok := x.open == DOLLAR && x.damage.None?;
    LastRun(l2, LF, NmeaRecognized, l.length, if ok then Accept(NmeaPacket) else Discard, if ok then NmeaRecognized else Ground, rest);
  }

  lemma LineFeed()
    ensures TextNext(NmeaCr, LF) == NmeaRecognized && !Framed(NmeaRecognized)
  {}

  // ---------- streams ----------

  function OnAir(xs: seq<Sentence>): seq<byte>
    requires forall k :: 0 <= k < |xs| ==> WellFormed(xs[k])
  {
    if xs == [] then [] else Sent(xs[0]) + OnAir(xs[1..])
  }

  /** The sentences that began with a '$' and came through unchanged. */
  function Intact(xs: seq<Sentence>): seq<Delivery> {
    if xs == [] then []
    else (if xs[0].open == DOLLAR && xs[0].damage.None? then [Delivery(NmeaPacket, Completed(xs[0]))] else []) + Intact(xs[1..])
  }

  /** A stream of completed sentences is delivered unchanged, save those damaged and those that began
      with a '!', whose checksum the writer computes over one character too many. */
  lemma {:induction false} NmeaStream(l: Lexer, xs: seq<Sentence>)
    requires Ready(l) && forall k :: 0 <= k < |xs| ==> WellFormed(xs[k])
    ensures var (m, out) := Run(l, OnAir(xs)); Ready(m) && out == Intact(xs)
    decreases |xs|
  {
    hide Safe, WellFormed, Sent, Completed;
    if xs == [] {
      assert Run(l, []) == (l, []);
    } else {
      hide Run;
      assert WellFormed(xs[0]);
      SentenceRun(l, xs[0], OnAir(xs[1..]));
      NmeaStream(Past(l, xs[0].open == DOLLAR && xs[0].damage.None?), xs[1..]);
    }
  }
}
