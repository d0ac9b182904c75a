/** When the lexer lets the decoder lock on the first word of a transmission: exactly if no two letters of a
    greeting follow each other in it. */
module RtcmFirstWord {
  import opened Bytes
  import opened IsgpsWord
  import opened Isgps
  import opened IsgpsTransport
  import opened IsgpsRoundTrip
  import opened Packet
  import opened RtcmDelivery
  import opened RtcmStream
  import opened RtcmGreeting
  import opened RtcmRegister

  // ---------- bytes and symbols ----------

  /** The six bits a byte carries, in the order in which they were sent. */
  function Sym(c: byte): Word { ReverseBits(AsWord(c)) }

  lemma StepSym(s: Decoder, c: byte)
    requires InBounds(s) && Tagged(AsWord(c))
    ensures Step(s, AsWord(c)) == Absorb(s, Sym(c))
  {}

  lemma SymIsSymbol(c: byte)
    ensures IsSymbol(Sym(c))
  {
    ReverseBitsMeaning(AsWord(c));
    hide ReverseBits, AsWord;
    assert Reversed(AsWord(c)).bits < 64;
  }

  /** A byte and the symbol it carries. */
  predicate Codes(c: byte, x: Word) { AsWord(c) == Tag(x) && Low6(x) == x }

  lemma CodeIs(c: byte, w: bv32, x: Word, reversed: bv32)
    requires c as bv32 == w && Reversed(x) == Seal(reversed) && w == 0x40 | reversed && x.bits & 0x3f == x.bits
    ensures Codes(c, x)
  {
    hide ReverseBits, Reversed;
    ReverseBitsMeaning(x);
  }

  lemma CodesSym(c: byte, x: Word)
    requires Codes(c, x)
    ensures Tagged(AsWord(c)) && Sym(c) == x && IsSymbol(x)
  {
    hide Tagged, AsWord, ReverseBits, Tag;
    TagRoundTrip(x);
    SymIsSymbol(c);
  }

  lemma Letters()
    ensures Codes('A' as int, Seal(32)) && Codes('E' as int, Seal(40)) && Codes('R' as int, Seal(18))
    ensures Codes('S' as int, Seal(50)) && Codes('T' as int, Seal(10))
  {
    CodeIs('A' as int, 0x41, Seal(32), 0x01);
    CodeIs('E' as int, 0x45, Seal(40), 0x05);
    CodeIs('R' as int, 0x52, Seal(18), 0x12);
    CodeIs('S' as int, 0x53, Seal(50), 0x13);
    CodeIs('T' as int, 0x54, Seal(10), 0x14);
  }

  /** No letter of a greeting looks like its first. */
  lemma SpellingSymbols(g: byte)
    requires Greets(g)
    ensures LetterSymbol(Sym(g)) && Spelling(g)[0] == g && GoesOn(g) == Spelling(g)[1]
    ensures Sym(Spelling(g)[1]) != Sym(g) && Sym(Spelling(g)[2]) != Sym(g)
    ensures !Greets(Spelling(g)[2]) && (Greets(Spelling(g)[1]) ==> Spelling(g)[2] != GoesOn(Spelling(g)[1]))
  {
    hide Sym, Codes;
    Letters();
    CodesSym('A' as int, Seal(32));
    CodesSym('E' as int, Seal(40));
    CodesSym('R' as int, Seal(18));
    CodesSym('S' as int, Seal(50));
    CodesSym('T' as int, Seal(10));
  }

  lemma ListenByte(s: Decoder, r: Word, o: int, c: byte)
    requires 0 < o <= 24 && Listening(s, r, o) && StartsWithZero(r) && Tagged(AsWord(c)) && Sym(c) == Inside(r, o)
    ensures var (t, status) := Step(s, AsWord(c)); status == NoSync && InBounds(t) && !t.locked && Listening(t, r, o - 6)
    ensures s.word == Shr(r, o + 6) && Step(s, AsWord(c)).0.word == Shr(r, o)
    ensures Push6(Shr(r, o + 6), Sym(c)) == Shr(r, o) && IsSymbol(Sym(c))
  {
    hide Sym, Absorb, Inside, Shr, StartsWithZero, AsWord, Tagged, Window;
    StepSym(s, c);
    ListenInside(s, r, o);
    InsideUnlocked(r, o, 0);
    SymIsSymbol(c);
  }

  /** The first word, with what the standard and the encoder make of it. */
  predicate FirstWordOf(r: Word, r2: Word) {
    StartsWithZero(r) && Preamble(r) && ParityOk(r) && !Inverted(r) && Carries(r, r2)
  }

  lemma LockByte(s: Decoder, r: Word, r2: Word, o: int, c: byte)
    requires -5 <= o <= 0 && Listening(s, r, o) && FirstWordOf(r, r2) && Tagged(AsWord(c)) && Sym(c) == Straddle(r, r2, -o)
    ensures var (t, status) := Step(s, AsWord(c)); status == Sync && Following(t, r2, o + 24, [r])
  {
    hide Sym, Absorb, Straddle, Shr, StartsWithZero, AsWord, Tagged, Preamble, ParityOk, Inverted, Carries;
    StepSym(s, c);
    ListenLock(s, r, r2, o);
  }

  // ---------- the last byte ----------

  /** The byte that ends the first word, behind others than were sent. */
  lemma LastByte(l: Lexer, inside: bool, c: byte, r: Word, r2: Word, o: int, t: Decoder)
    requires Stands(l, inside) && Going(l.rtcm) && (inside ==> l.rtcm.locked) && Tagged(AsWord(c))
    requires -5 <= o <= 0 && FirstWordOf(r, r2) && Sym(c) == Straddle(r, r2, -o) && Following(t, r2, o + 24, [r])
    requires !l.rtcm.locked ==>
      SymbolAt(l.rtcm.word, 1) != SymbolAt(Shr(r, o + 6), 1) || SymbolAt(l.rtcm.word, 2) != SymbolAt(Shr(r, o + 6), 2)
    ensures Final(l, [c]) != (t, true) && Step(l.rtcm, AsWord(c)).1 != Message
  {
    hide Sym, Absorb, Straddle, Shr, AsWord, Tagged, SymbolAt, StartsWithZero, Preamble, Inverted, Following, Packet.Safe, Final,
         Opens, Greets, GoesOn;
    StepSym(l.rtcm, c);
    LastStep(l.rtcm, r, r2, o, t);
    TaggedStays(c);
    var m, now := OneMore(l, inside, c, []);
    assert [c] + [] == [c];
    FinalNothing(m);
  }

  // ---------- two letters, from the fourth byte on ----------

  lemma SilentNext(s: Decoder, bytes: seq<byte>)
    requires InBounds(s) && bytes != []
    requires Step(s, AsWord(bytes[0])).1 != Message && Silent(Step(s, AsWord(bytes[0])).0, bytes[1..])
    ensures Silent(s, bytes)
  {
    hide Step;
  }

  /** The lexer on the ground and its decoder listening, bit `o + 6` the next to come. */
  ghost predicate Attends(l: Lexer, r: Word, o: int) {
    -6 < o <= 24 && Stands(l, false) && InBounds(l.rtcm) && Listening(l.rtcm, r, o)
  }

  /** The bytes bring the next symbols of the first word, down to its last. */
  predicate Brings(bytes: seq<byte>, r: Word, r2: Word, o: int)
    requires -5 <= o <= 24
    decreases |bytes|
  {
    bytes != [] && Tagged(AsWord(bytes[0])) &&
    if o > 0 then Sym(bytes[0]) == Inside(r, o) && Brings(bytes[1..], r, r2, o - 6)
    else Sym(bytes[0]) == Straddle(r, r2, -o) && |bytes| == 1
  }

  /** The decoder on the bytes as they were sent. */
  lemma {:induction false} DueRun(s: Decoder, r: Word, r2: Word, o: int, bytes: seq<byte>)
    requires -5 <= o <= 24 && InBounds(s) && Listening(s, r, o) && FirstWordOf(r, r2) && Brings(bytes, r, r2, o)
    ensures Silent(s, bytes) && -5 <= Last(o) <= 0 && Following(Through(s, bytes), r2, Last(o) + 24, [r])
    decreases |bytes|
  {
    hide InBounds, Step, Through, Sym, AsWord, Tagged, Inside, Straddle, Listening, Following, ParityOk, Preamble, Inverted, Carries,
         StartsWithZero, Silent;
    ThroughNext(s, bytes);
    if o > 0 {
      ListenByte(s, r, o, bytes[0]);
      DueRun(Step(s, AsWord(bytes[0])).0, r, r2, o - 6, bytes[1..]);
    } else {
      LockByte(s, r, r2, o, bytes[0]);
      ThroughNothing(Step(s, AsWord(bytes[0])).0);
      SilentNothing(Step(s, AsWord(bytes[0])).0);
      assert bytes[1..] == [];
    }
    SilentNext(s, bytes);
  }

  lemma SilentNothing(s: Decoder)
    requires InBounds(s)
    ensures Silent(s, [])
  {}

  /** The phase of the last symbol. */
  function Last(o: int): int
    requires -5 <= o
    decreases o + 6
  {
    if o > 0 then Last(o - 6) else o
  }

  /** The last two bytes are letters of a greeting. */
  lemma PairLast(l: Lexer, r: Word, r2: Word, o: int, b: seq<byte>)
    requires 0 < o <= 6 && Attends(l, r, o) && FirstWordOf(r, r2) && |b| == 2 && Brings(b, r, r2, o)
    requires Greets(b[0]) && b[1] == GoesOn(b[0])
    ensures !Final(l, b).1
  {
    hide InBounds, Brings, FirstWordOf, Silent, Greets, GoesOn, Spelling, Packet.Safe, Listening, Following, Through, Final;
    DueRun(l.rtcm, r, r2, o, b);
    SpellingSymbols(b[0]);
    assert b == Spelling(b[0])[..2];
    SpeltLast(l, b[0], 2);
  }

  /** The lexer when a greeting has stopped behind `n` letters, and what it then has to read. */
  function Stopped(l: Lexer, g: byte, n: nat): Lexer
    requires 1 <= n <= 3 && InBounds(l.rtcm)
  {
    After(l, l.kind, Ground, Through(l.rtcm, Spelling(g)[..n]), [])
  }

  lemma StopFinal(l: Lexer, g: byte, n: nat, c: byte, rest: seq<byte>)
    requires Stands(l, false) && Greets(g) && 1 <= n <= 3 && c != Spelling(g)[n]
    requires InBounds(l.rtcm) && Silent(l.rtcm, Spelling(g)[..n])
    ensures var m := Stopped(l, g, n);
      Stands(m, false) && Final(l, Spelling(g)[..n] + ([c] + rest)) == Final(m, Spelling(g)[1..n] + ([c] + rest))
  {
    hide Spelling, Packet.Safe, Run, Through, Greets, Silent;
    GreetingStops(l, g, n, c, rest);
    FinalSame(l, Spelling(g)[..n] + ([c] + rest), Stopped(l, g, n), Spelling(g)[1..n] + ([c] + rest));
  }

  /** The greeting stops behind its second letter, at the last byte. */
  lemma PairStopsAtLast(l: Lexer, r: Word, r2: Word, o: int, b: seq<byte>, t: Decoder)
    requires 6 < o <= 12 && Attends(l, r, o) && FirstWordOf(r, r2) && |b| == 3 && Brings(b, r, r2, o)
    requires Greets(b[0]) && b[1] == GoesOn(b[0]) && b[2] != Spelling(b[0])[2] && Following(t, r2, o + 12, [r])
    ensures Final(l, b) != (t, true)
  {
    hide InBounds, Brings, FirstWordOf, Silent, Greets, GoesOn, Spelling, Packet.Safe, Through, Listening, Following, Final, Stopped,
         SymbolAt, Push6;
    BringsThree(b, r, r2, o);
    FirstWordParts(r, r2);
    HeardTwo(l.rtcm, r, o, b);
    StopAfterTwo(l, b, []);
    assert [b[1], b[2]] + [] == [b[1], b[2]] && b[..3] + [] == b;
    TwoMore(l, r, r2, o, b, Stopped(l, b[0], 2), t);
  }

  /** The last three bytes begin with two letters of a greeting. */
  lemma PairBeforeLast(l: Lexer, r: Word, r2: Word, o: int, b: seq<byte>)
    requires 6 < o <= 12 && Attends(l, r, o) && FirstWordOf(r, r2) && |b| == 3 && Brings(b, r, r2, o)
    requires Greets(b[0]) && b[1] == GoesOn(b[0])
    ensures Final(l, b) != (Through(l.rtcm, b), true)
  {
    hide InBounds, Brings, FirstWordOf, Silent, Greets, GoesOn, Spelling, Packet.Safe, Through, Listening, Following, Final;
    DueRun(l.rtcm, r, r2, o, b);
    assert Last(o) == Last(o - 6) == o - 12;
    var g := b[0];
    if b[2] != Spelling(g)[2] {
      PairStopsAtLast(l, r, r2, o, b, Through(l.rtcm, b));
    } else {
      SpellingSymbols(g);
      assert b == Spelling(g)[..3];
      SpeltLast(l, g, 3);
    }
  }

  lemma StopAfterTwo(l: Lexer, b: seq<byte>, rest: seq<byte>)
    requires Stands(l, false) && |b| >= 3 && Greets(b[0]) && b[1] == GoesOn(b[0]) && b[2] != Spelling(b[0])[2]
    requires InBounds(l.rtcm) && Silent(l.rtcm, b[..2])
    ensures var m := Stopped(l, b[0], 2);
      && Stands(m, false) && InBounds(m.rtcm) && m.rtcm == Through(l.rtcm, b[..2])
      && Final(l, b[..3] + rest) == Final(m, [b[1], b[2]] + rest)
  {
    hide InBounds, Silent, Greets, GoesOn, Spelling, Packet.Safe, Through, Final, Stopped, Stands;
    var g, c := b[0], b[2];
    SpellingSymbols(g);
    assert b[..2] == Spelling(g)[..2];
    StopFinal(l, g, 2, c, rest);
    StoppedIs(l, g, 2);
    assert b[..3] + rest == b[..2] + ([c] + rest) && Spelling(g)[1..2] + ([c] + rest) == [b[1], c] + rest;
  }

  lemma StoppedIs(l: Lexer, g: byte, n: nat)
    requires 1 <= n <= 3 && InBounds(l.rtcm)
    ensures Stopped(l, g, n).rtcm == Through(l.rtcm, Spelling(g)[..n])
  {
    hide Spelling, Through, InBounds;
  }

  lemma FirstWordParts(r: Word, r2: Word)
    requires FirstWordOf(r, r2)
    ensures StartsWithZero(r) && Preamble(r) && !Inverted(r)
  {}

  lemma BringsThree(b: seq<byte>, r: Word, r2: Word, o: int)
    requires 6 < o <= 12 && |b| == 3 && Brings(b, r, r2, o)
    ensures forall i :: 0 <= i < 3 ==> Tagged(AsWord(b[i]))
    ensures Sym(b[0]) == Inside(r, o) && Sym(b[1]) == Inside(r, o - 6) && Sym(b[2]) == Straddle(r, r2, 12 - o)
  {
    hide Sym, AsWord, Tagged, Inside, Straddle;
    assert Brings(b[1..], r, r2, o - 6);
    assert Brings(b[1..][1..], r, r2, o - 12);
  }

  /** After two bytes heard as they were sent. */
  lemma HeardTwo(s: Decoder, r: Word, o: int, b: seq<byte>)
    requires 6 < o <= 24 && InBounds(s) && Listening(s, r, o) && StartsWithZero(r) && |b| >= 2
    requires Tagged(AsWord(b[0])) && Tagged(AsWord(b[1])) && Sym(b[0]) == Inside(r, o) && Sym(b[1]) == Inside(r, o - 6)
    ensures var t := Through(s, b[..2]); Silent(s, b[..2]) && !t.locked && t.word == Shr(r, o - 6) && Listening(t, r, o - 12)
    ensures Push6(Shr(r, o + 6), Sym(b[0])) == Shr(r, o) && Push6(Shr(r, o), Sym(b[1])) == Shr(r, o - 6)
    ensures IsSymbol(Sym(b[0])) && IsSymbol(Sym(b[1]))
  {
    hide InBounds, Step, Through, Sym, AsWord, Tagged, Inside, Listening, StartsWithZero, Silent, Push6, Shr, IsSymbol;
    var u := Step(s, AsWord(b[0])).0;
    ListenByte(s, r, o, b[0]);
    ListenByte(u, r, o - 6, b[1]);
    assert b[..2][1..] == [b[1]];
    ThroughNext(s, b[..2]);
    ThroughOne(u, b[1]);
    SilentNext(s, b[..2]);
  }

  /** The second of two letters, heard again and completing thirty bits. */
  lemma FifthByte(s: Decoder, r: Word, o: int, x: Word, y: Word, c: byte)
    requires 13 <= o <= 18 && InBounds(s) && !s.locked && s.word == Push6(Push6(Shr(r, o), x), y)
    requires StartsWithZero(r) && Preamble(r) && IsSymbol(x) && IsSymbol(y) && Tagged(AsWord(c))
    ensures var (t, status) := Step(s, AsWord(c));
      && Going(t) && (if t.locked then status == Sync && t.offset >= 19 else status == NoSync && t.word == Push6(s.word, Sym(c)))
  {
    hide InBounds, Absorb, Sym, AsWord, Tagged, StartsWithZero, Preamble, Push6, Shr, IsSymbol, Upfront;
    StepSym(s, c);
    SymIsSymbol(c);
    FifthUpfront(r, o, x, y, Sym(c));
    FifthStep(s, Sym(c));
  }

  /** Two letters `b[0]` and `b[1]` have been heard; the second and `b[2]` are heard next. */
  lemma TwoMore(l: Lexer, r: Word, r2: Word, o: int, b: seq<byte>, m: Lexer, t: Decoder)
    requires 6 < o <= 12 && Attends(l, r, o) && FirstWordOf(r, r2) && |b| == 3
    requires forall i :: 0 <= i < 3 ==> Tagged(AsWord(b[i]))
    requires Sym(b[0]) == Inside(r, o) && Sym(b[1]) == Inside(r, o - 6) && Sym(b[2]) == Straddle(r, r2, 12 - o)
    requires Greets(b[0]) && b[1] == GoesOn(b[0]) && Following(t, r2, o + 12, [r])
    requires Stands(m, false) && InBounds(m.rtcm) && m.rtcm == Through(l.rtcm, b[..2])
    ensures Final(m, [b[1], b[2]]) != (t, true)
  {
    hide InBounds, Step, Through, Sym, AsWord, Tagged, Inside, Straddle, Listening, Following, ParityOk, Preamble, Inverted,
         Carries, StartsWithZero, Silent, Push6, Shr, IsSymbol, SymbolAt, Greets, GoesOn, Spelling, Packet.Safe, Final, Opens;
    var g, h, c := b[0], b[1], b[2];
    HeardTwo(l.rtcm, r, o, b);
    SpellingSymbols(g);
    FifthByte(m.rtcm, r, o + 6, Sym(g), Sym(h), h);
    var u := Step(m.rtcm, AsWord(h)).0;
    SymbolsMove(Shr(r, o + 6), Sym(g));
    SymbolsMove(Shr(r, o), Sym(h));
    SymbolsMove(Shr(r, o - 6), Sym(h));
    TwoBytes(m, h, c, r, r2, o - 12, t);
  }

  /** Two bytes, the first of which completes thirty bits, and the second the first word. */
  lemma TwoBytes(m: Lexer, h: byte, c: byte, r: Word, r2: Word, o: int, t: Decoder)
    requires Stands(m, false) && InBounds(m.rtcm) && Tagged(AsWord(h)) && Tagged(AsWord(c))
    requires -5 <= o <= 0 && FirstWordOf(r, r2) && Sym(c) == Straddle(r, r2, -o) && Following(t, r2, o + 24, [r])
    requires var (u, status) := Step(m.rtcm, AsWord(h));
      && Going(u) && status == (if u.locked then Sync else NoSync)
      && (!u.locked ==>
            SymbolAt(u.word, 1) != SymbolAt(Shr(r, o + 6), 1) || SymbolAt(u.word, 2) != SymbolAt(Shr(r, o + 6), 2))
    ensures Final(m, [h, c]) != (t, true)
  {
    hide InBounds, Step, Through, Sym, AsWord, Tagged, Straddle, Following, FirstWordOf, Silent, Shr, SymbolAt, Greets, GoesOn,
         Spelling, Packet.Safe, Final, Opens;
    var u := Step(m.rtcm, AsWord(h)).0;
    TaggedStays(h);
    assert [h] + [c] == [h, c];
    if Greets(h) && c == GoesOn(h) {
      SpellingSymbols(h);
      StandsAfter(m, m.kind, u, []);
      LastByte(After(m, m.kind, Ground, u, []), false, c, r, r2, o, t);
      ThroughOne(u, c);
      assert [h, c][1..] == [c];
      SilentNext(m.rtcm, [h, c]);
      assert [h, c] == Spelling(h)[..2];
      SpeltLast(m, h, 2);
    } else {
      var n, now := OneMore(m, false, h, [c]);
      LastByte(n, now, c, r, r2, o, t);
    }
  }

  // ---------- two letters, from the second byte on ----------

  lemma BringsFour(b: seq<byte>, r: Word, r2: Word, o: int)
    requires 12 < o <= 18 && |b| == 4 && Brings(b, r, r2, o)
    ensures forall i :: 0 <= i < 4 ==> Tagged(AsWord(b[i]))
    ensures Sym(b[0]) == Inside(r, o) && Sym(b[1]) == Inside(r, o - 6) && Sym(b[2]) == Inside(r, o - 12)
    ensures Sym(b[3]) == Straddle(r, r2, 18 - o)
  {
    hide Sym, AsWord, Tagged, Inside, Straddle;
    assert Brings(b[1..], r, r2, o - 6);
    assert Brings(b[1..][1..], r, r2, o - 12);
    assert Brings(b[1..][1..][1..], r, r2, o - 18);
  }

  /** The register of the decoder as sent, after three of the four bytes. */
  lemma HeardThree(s: Decoder, r: Word, o: int, b: seq<byte>)
    requires 12 < o <= 18 && InBounds(s) && Listening(s, r, o) && StartsWithZero(r) && |b| >= 3
    requires forall i :: 0 <= i < 3 ==> Tagged(AsWord(b[i]))
    requires Sym(b[0]) == Inside(r, o) && Sym(b[1]) == Inside(r, o - 6) && Sym(b[2]) == Inside(r, o - 12)
    ensures var t := Through(s, b[..3]); Silent(s, b[..3]) && !t.locked && t.word == Shr(r, o - 12)
    ensures Push6(Shr(r, o), Sym(b[1])) == Shr(r, o - 6) && Push6(Shr(r, o - 6), Sym(b[2])) == Shr(r, o - 12)
    ensures SymbolAt(Shr(r, o - 12), 0) == Sym(b[2]) && SymbolAt(Shr(r, o - 12), 1) == Sym(b[1])
    ensures SymbolAt(Shr(r, o - 12), 2) == Sym(b[0]) && IsSymbol(Sym(b[1])) && IsSymbol(Sym(b[2]))
    ensures SymbolAt(Shr(r, o - 6), 0) == Sym(b[1]) && SymbolAt(Shr(r, o - 6), 1) == Sym(b[0])
  {
    hide InBounds, Step, Through, Sym, AsWord, Tagged, Inside, Listening, StartsWithZero, Silent, Push6, Shr, IsSymbol, SymbolAt;
    HeardTwo(s, r, o, b);
    var t := Through(s, b[..2]);
    ListenByte(t, r, o - 12, b[2]);
    ThroughOne(t, b[2]);
    assert b[..3] == b[..2] + [b[2]];
    SilentJoin(s, b[..2], [b[2]]);
    SymbolsMove(Shr(r, o + 6), Sym(b[0]));
    SymbolsMove(Shr(r, o), Sym(b[1]));
    SymbolsMove(Shr(r, o - 6), Sym(b[2]));
  }

  lemma {:induction false} SilentJoin(s: Decoder, a: seq<byte>, b: seq<byte>)
    requires InBounds(s) && Silent(s, a) && Silent(Through(s, a), b)
    ensures Silent(s, a + b) && Through(s, a + b) == Through(Through(s, a), b)
    decreases |a|
  {
    hide Step, Through, AsWord;
    if a == [] {
      assert a + b == b;
      ThroughNothing(s);
    } else {
      assert (a + b)[1..] == a[1..] + b;
      ThroughNext(s, a + b);
      ThroughNext(s, a);
      SilentJoin(Step(s, AsWord(a[0])).0, a[1..], b);
    }
  }

  /** A byte behind a letter and three others. */
  lemma SixthByte(s: Decoder, c: byte)
    requires Going(s) && Tagged(AsWord(c)) && (s.locked ==> s.offset >= 19) && (!s.locked ==> LetterSymbol(SymbolAt(s.word, 3)))
    ensures var (t, status) := Step(s, AsWord(c));
      Going(t) && (if s.locked then t.locked && status == Sync else !t.locked && status == NoSync && t.word == Push6(s.word, Sym(c)))
  {
    hide Absorb, Sym, AsWord, Tagged, Push6, SymbolAt, LetterSymbol;
    StepSym(s, c);
    SymIsSymbol(c);
    if s.locked {
      LockedStep(s, Sym(c));
    } else {
      SixthStep(s, Sym(c));
    }
  }

  /** Three letters, and the second and third once more. */
  lemma ThreeAgain(l: Lexer, r: Word, r2: Word, o: int, b: seq<byte>, m: Lexer, t: Decoder)
    requires 12 < o <= 18 && Attends(l, r, o) && FirstWordOf(r, r2) && |b| == 4
    requires forall i :: 0 <= i < 4 ==> Tagged(AsWord(b[i]))
    requires Sym(b[0]) == Inside(r, o) && Sym(b[1]) == Inside(r, o - 6) && Sym(b[2]) == Inside(r, o - 12)
    requires Sym(b[3]) == Straddle(r, r2, 18 - o)
    requires Greets(b[0]) && b[..3] == Spelling(b[0])[..3] && Following(t, r2, o + 6, [r])
    requires Stands(m, false) && InBounds(m.rtcm) && m.rtcm == Through(l.rtcm, b[..3])
    ensures Final(m, [b[1], b[2], b[3]]) != (t, true)
  {
    hide InBounds, Step, Through, Sym, AsWord, Tagged, Inside, Straddle, Listening, Following, ParityOk, Preamble, Inverted,
         Carries, StartsWithZero, Silent, Push6, Shr, IsSymbol, SymbolAt, Greets, GoesOn, Spelling, Packet.Safe, Final, Opens,
         LetterSymbol;
    var g, h, c, d := b[0], b[1], b[2], b[3];
    HeardThree(l.rtcm, r, o, b);
    assert h == Spelling(g)[..3][1] && c == Spelling(g)[..3][2];
    SpellingSymbols(g);
    FifthByte(m.rtcm, r, o, Sym(h), Sym(c), h);
    var u := Step(m.rtcm, AsWord(h)).0;
    SymIsSymbol(h);
    SymbolsMove(Shr(r, o - 12), Sym(h));
    TaggedStays(h);
    TaggedStays(c);
    assert [h] + [c, d] == [h, c, d] && [c] + [d] == [c, d];
    var n, now := OneMore(m, false, h, [c, d]);
    SixthByte(u, c);
    SymbolsMove(u.word, Sym(c));
    var k, after := OneMore(n, now, c, [d]);
    LastByte(k, after, d, r, r2, o - 18, t);
  }

  /** The second letter again, then two bytes more, none of them part of a greeting. */
  lemma OtherAgain(l: Lexer, r: Word, r2: Word, o: int, b: seq<byte>, m: Lexer, t: Decoder)
    requires 12 < o <= 18 && Attends(l, r, o) && FirstWordOf(r, r2) && |b| == 4
    requires forall i :: 0 <= i < 4 ==> Tagged(AsWord(b[i]))
    requires Sym(b[0]) == Inside(r, o) && Sym(b[1]) == Inside(r, o - 6) && Sym(b[2]) == Inside(r, o - 12)
    requires Sym(b[3]) == Straddle(r, r2, 18 - o)
    requires Greets(b[0]) && b[1] == GoesOn(b[0]) && Following(t, r2, o + 6, [r])
    requires Stands(m, false) && InBounds(m.rtcm) && m.rtcm == Through(l.rtcm, b[..2])
    requires !(Greets(b[1]) && b[2] == GoesOn(b[1]))
    ensures Final(m, [b[1], b[2], b[3]]) != (t, true)
  {
    hide InBounds, Step, Through, Sym, AsWord, Tagged, Inside, Straddle, Listening, Following, ParityOk, Preamble, Inverted,
         Carries, StartsWithZero, Silent, Push6, Shr, IsSymbol, SymbolAt, Greets, GoesOn, Spelling, Packet.Safe, Final, Opens,
         LetterSymbol;
    var g, h, c, d := b[0], b[1], b[2], b[3];
    HeardThree(l.rtcm, r, o, b);
    HeardTwo(l.rtcm, r, o, b);
    SpellingSymbols(g);
    FourthByte(m.rtcm, r, o, h);
    var u := Step(m.rtcm, AsWord(h)).0;
    FifthByte(u, r, o, Sym(h), Sym(h), c);
    var v := Step(u, AsWord(c)).0;
    SymIsSymbol(c);
    SymbolsMove(Shr(r, o - 6), Sym(h));
    SymbolsMove(u.word, Sym(c));
    TaggedStays(h);
    assert [h] + [c, d] == [h, c, d];
    var n, now := OneMore(m, false, h, [c, d]);
    TwoBytes(n, c, d, r, r2, o - 18, t);
  }

  lemma FourthByte(s: Decoder, r: Word, o: int, c: byte)
    requires 12 < o <= 18 && InBounds(s) && !s.locked && s.word == Shr(r, o - 6) && StartsWithZero(r) && Tagged(AsWord(c))
    ensures var (t, status) := Step(s, AsWord(c)); status == NoSync && InBounds(t) && !t.locked && t.word == Push6(s.word, Sym(c))
  {
    hide InBounds, Absorb, Sym, AsWord, Tagged, Push6, Shr, IsSymbol, StartsWithZero;
    StepSym(s, c);
    SymIsSymbol(c);
    SmallRegister(r, o - 6);
    YoungStep(s, Sym(c));
  }

  lemma SmallRegisterBy(r: Word, o: bv6)
    requires 7 <= o < 32 && StartsWithZero(r)
    ensures ShrBy(r, o).bits < 0x400000
  {}

  lemma SmallRegister(r: Word, o: nat)
    requires 7 <= o < 13 && StartsWithZero(r)
    ensures Shr(r, o).bits < 0x400000
  {
    assert 7 <= Count(o);
    hide Count, ShrBy;
    SmallRegisterBy(r, Count(o));
  }

  /** EA and S, of which A and S begin another greeting: its second letter is heard again, too. */
  lemma EasAgain(l: Lexer, r: Word, r2: Word, o: int, b: seq<byte>, m: Lexer, t: Decoder)
    requires 12 < o <= 18 && Attends(l, r, o) && FirstWordOf(r, r2) && |b| == 4
    requires forall i :: 0 <= i < 4 ==> Tagged(AsWord(b[i]))
    requires Sym(b[0]) == Inside(r, o) && Sym(b[1]) == Inside(r, o - 6) && Sym(b[2]) == Inside(r, o - 12)
    requires Sym(b[3]) == Straddle(r, r2, 18 - o)
    requires Greets(b[0]) && b[1] == GoesOn(b[0]) && Following(t, r2, o + 6, [r])
    requires Stands(m, false) && InBounds(m.rtcm) && m.rtcm == Through(l.rtcm, b[..2])
    requires Greets(b[1]) && b[2] == GoesOn(b[1])
    ensures Final(m, [b[1], b[2], b[3]]) != (t, true)
  {
    hide InBounds, Step, Through, Sym, AsWord, Tagged, Inside, Straddle, Listening, Following, ParityOk, Preamble, Inverted,
         Carries, StartsWithZero, Silent, Push6, Shr, IsSymbol, SymbolAt, Greets, GoesOn, Spelling, Packet.Safe, Final, Opens,
         LetterSymbol;
    var g, h, c, d := b[0], b[1], b[2], b[3];
    HeardThree(l.rtcm, r, o, b);
    HeardTwo(l.rtcm, r, o, b);
    SpellingSymbols(g);
    SpellingSymbols(h);
    FourthByte(m.rtcm, r, o, h);
    var u := Step(m.rtcm, AsWord(h)).0;
    FifthByte(u, r, o, Sym(h), Sym(h), c);
    var v := Step(u, AsWord(c)).0;
    SymIsSymbol(h);
    SymIsSymbol(c);
    SymbolsMove(Shr(r, o - 6), Sym(h));
    SymbolsMove(u.word, Sym(c));
    SymbolsMove(v.word, Sym(c));
    SixthByte(v, c);
    EasLast(m, h, c, d, r, r2, o - 18, t);
  }

  lemma EasLast(m: Lexer, h: byte, c: byte, d: byte, r: Word, r2: Word, o: int, t: Decoder)
    requires Stands(m, false) && InBounds(m.rtcm) && Greets(h) && c == GoesOn(h) && Tagged(AsWord(c)) && Tagged(AsWord(d))
    requires -5 <= o <= 0 && FirstWordOf(r, r2) && Sym(d) == Straddle(r, r2, -o) && Following(t, r2, o + 24, [r])
    requires var (u, first) := Step(m.rtcm, AsWord(h));
      var (v, second) := Step(u, AsWord(c));
      var (w, third) := Step(v, AsWord(c));
      && first != Message && second != Message && Going(v) && Going(w) && third == (if w.locked then Sync else NoSync)
      && (!v.locked ==>
            SymbolAt(v.word, 1) != SymbolAt(Shr(r, o + 6), 1) || SymbolAt(v.word, 2) != SymbolAt(Shr(r, o + 6), 2))
      && (!w.locked ==>
            SymbolAt(w.word, 1) != SymbolAt(Shr(r, o + 6), 1) || SymbolAt(w.word, 2) != SymbolAt(Shr(r, o + 6), 2))
    ensures Final(m, [h, c, d]) != (t, true)
  {
    hide InBounds, Step, Through, Sym, AsWord, Tagged, Straddle, Following, FirstWordOf, Silent, Shr, SymbolAt, Greets, GoesOn,
         Spelling, Packet.Safe, Final, Opens, Stopped;
    var u := Step(m.rtcm, AsWord(h)).0;
    var v := Step(u, AsWord(c)).0;
    ThroughTwo(m.rtcm, h, c);
    SpellingSymbols(h);
    if d == Spelling(h)[2] {
      StandsAfter(m, m.kind, v, []);
      LastByte(After(m, m.kind, Ground, v, []), false, d, r, r2, o, t);
      ThroughOne(v, d);
      SilentJoin(m.rtcm, [h, c], [d]);
      assert [h, c] + [d] == [h, c, d] == Spelling(h)[..3];
      SpeltLast(m, h, 3);
    } else {
      var b := [h, c, d];
      assert b[..2] == [h, c] && b[..3] + [] == b && [c, d] + [] == [c, d];
      StopAfterTwo(m, b, []);
      TwoBytes(Stopped(m, h, 2), c, d, r, r2, o, t);
    }
  }

  lemma ThroughTwo(s: Decoder, a: byte, b: byte)
    requires InBounds(s) && Step(s, AsWord(a)).1 != Message && Step(Step(s, AsWord(a)).0, AsWord(b)).1 != Message
    ensures Through(s, [a, b]) == Step(Step(s, AsWord(a)).0, AsWord(b)).0 && Silent(s, [a, b])
  {
    hide Step, Through, AsWord, Silent, InBounds;
    var t := Step(s, AsWord(a)).0;
    assert [a, b][1..] == [b];
    ThroughNext(s, [a, b]);
    ThroughOne(t, b);
    SilentNext(s, [a, b]);
  }

  /** The greeting stops behind its second letter. */
  lemma PairStops(l: Lexer, r: Word, r2: Word, o: int, b: seq<byte>, t: Decoder)
    requires 12 < o <= 18 && Attends(l, r, o) && FirstWordOf(r, r2) && |b| == 4 && Brings(b, r, r2, o)
    requires Greets(b[0]) && b[1] == GoesOn(b[0]) && b[2] != Spelling(b[0])[2] && Following(t, r2, o + 6, [r])
    ensures Final(l, b) != (t, true)
  {
    hide InBounds, Brings, FirstWordOf, Silent, Greets, GoesOn, Spelling, Packet.Safe, Through, Listening, Following, Final, Stopped,
         SymbolAt, Push6;
    BringsFour(b, r, r2, o);
    FirstWordParts(r, r2);
    assert [b[1], b[2]] + [b[3]] == [b[1], b[2], b[3]] && b[..3] + [b[3]] == b;
    HeardTwo(l.rtcm, r, o, b);
    StopAfterTwo(l, b, [b[3]]);
    var m := Stopped(l, b[0], 2);
    if Greets(b[1]) && b[2] == GoesOn(b[1]) {
      EasAgain(l, r, r2, o, b, m, t);
    } else {
      OtherAgain(l, r, r2, o, b, m, t);
    }
  }

  /** It stops behind its third. */
  lemma TripleStops(l: Lexer, r: Word, r2: Word, o: int, b: seq<byte>, t: Decoder)
    requires 12 < o <= 18 && Attends(l, r, o) && FirstWordOf(r, r2) && |b| == 4 && Brings(b, r, r2, o)
    requires Greets(b[0]) && b[1] == GoesOn(b[0]) && b[2] == Spelling(b[0])[2] && b[3] != Spelling(b[0])[3]
    requires Following(t, r2, o + 6, [r])
    ensures Final(l, b) != (t, true)
  {
    hide InBounds, Brings, FirstWordOf, Silent, Greets, GoesOn, Spelling, Packet.Safe, Through, Listening, Following, Final, Stopped,
         SymbolAt, Push6;
    BringsFour(b, r, r2, o);
    FirstWordParts(r, r2);
    HeardThree(l.rtcm, r, o, b);
    StopAfterThree(l, b);
    ThreeAgain(l, r, r2, o, b, Stopped(l, b[0], 3), t);
  }

  /** The last four bytes begin with two letters of a greeting. */
  lemma PairFirst(l: Lexer, r: Word, r2: Word, o: int, b: seq<byte>)
    requires 12 < o <= 18 && Attends(l, r, o) && FirstWordOf(r, r2) && |b| == 4 && Brings(b, r, r2, o)
    requires Greets(b[0]) && b[1] == GoesOn(b[0])
    ensures Final(l, b) != (Through(l.rtcm, b), true)
  {
    hide InBounds, Brings, FirstWordOf, Silent, Greets, GoesOn, Spelling, Packet.Safe, Through, Listening, Following, Final;
    DueRun(l.rtcm, r, r2, o, b);
    assert Last(o) == Last(o - 6) == Last(o - 12) == o - 18;
    var g := b[0];
    if b[2] != Spelling(g)[2] {
      PairStops(l, r, r2, o, b, Through(l.rtcm, b));
    } else if b[3] != Spelling(g)[3] {
      TripleStops(l, r, r2, o, b, Through(l.rtcm, b));
    } else {
      SpellingSymbols(g);
      assert b == Spelling(g)[..4];
      SpeltLast(l, g, 4);
    }
  }

  lemma StopAfterThree(l: Lexer, b: seq<byte>)
    requires Stands(l, false) && |b| == 4 && Greets(b[0]) && b[1] == GoesOn(b[0]) && b[2] == Spelling(b[0])[2]
    requires b[3] != Spelling(b[0])[3] && InBounds(l.rtcm) && Silent(l.rtcm, b[..3])
    ensures var m := Stopped(l, b[0], 3);
      && Stands(m, false) && InBounds(m.rtcm) && m.rtcm == Through(l.rtcm, b[..3]) && b[..3] == Spelling(b[0])[..3]
      && Final(l, b) == Final(m, [b[1], b[2], b[3]])
  {
    hide InBounds, Silent, Greets, GoesOn, Spelling, Packet.Safe, Through, Final, Stopped, Stands;
    var g, d := b[0], b[3];
    SpellingSymbols(g);
    assert b[..3] == Spelling(g)[..3];
    StopFinal(l, g, 3, d, []);
    StoppedIs(l, g, 3);
    assert b == b[..3] + ([d] + []) && Spelling(g)[1..3] + ([d] + []) == [b[1], b[2], d];
  }

  // ---------- the first word ----------

  /** No two letters of a greeting follow each other. */
  predicate NoPair(p: seq<byte>) {
    forall i :: 0 <= i < |p| - 1 ==> !(Greets(p[i]) && p[i + 1] == GoesOn(p[i]))
  }

  lemma NoPairNext(p: seq<byte>)
    requires p != []
    ensures NoPair(p) <==> (|p| > 1 && Greets(p[0]) ==> p[1] != GoesOn(p[0])) && NoPair(p[1..])
  {
    hide Greets, GoesOn;
    var q := p[1..];
    if NoPair(p) {
      forall i | 0 <= i < |q| - 1 ensures !(Greets(q[i]) && q[i + 1] == GoesOn(q[i])) {
        assert q[i] == p[i + 1] && q[i + 1] == p[i + 1 + 1];
      }
    } else {
      var i :| 0 <= i < |p| - 1 && Greets(p[i]) && p[i + 1] == GoesOn(p[i]);
      if i > 0 {
        assert q[i - 1] == p[i] && q[i - 1 + 1] == p[i + 1];
      }
    }
  }

  /** A byte of the first word or of the idle line before it, heard as it was sent. */
  lemma PassByte(l: Lexer, c: byte, rest: seq<byte>) returns (m: Lexer)
    requires Stands(l, false) && InBounds(l.rtcm) && Tagged(AsWord(c)) && Step(l.rtcm, AsWord(c)).1 == NoSync
    requires Greets(c) && rest != [] ==> rest[0] != GoesOn(c)
    ensures Stands(m, false) && InBounds(m.rtcm) && m.rtcm == Step(l.rtcm, AsWord(c)).0
    ensures Final(l, [c] + rest) == Final(m, rest) && Through(l.rtcm, [c] + rest) == Through(m.rtcm, rest)
  {
    hide InBounds, Step, Through, AsWord, Tagged, Greets, GoesOn, Packet.Safe, Final, Opens;
    TaggedStays(c);
    var now;
    m, now := OneMore(l, false, c, rest);
    assert ([c] + rest)[1..] == rest;
    ThroughNext(l.rtcm, [c] + rest);
  }

  lemma {:induction false} NoPairHeard(l: Lexer, r: Word, r2: Word, o: int, b: seq<byte>)
    requires -5 <= o <= 24 && Attends(l, r, o) && FirstWordOf(r, r2) && Brings(b, r, r2, o) && NoPair(b)
    ensures Final(l, b) == (Through(l.rtcm, b), true)
    decreases |b|
  {
    hide InBounds, Step, Through, Sym, AsWord, Tagged, Inside, Straddle, Listening, Following, ParityOk, Preamble, Inverted,
         Carries, StartsWithZero, Greets, GoesOn, Packet.Safe, Final, Opens, NoPair;
    NoPairNext(b);
    var c, rest := b[0], b[1..];
    assert [c] + rest == b;
    if o > 0 {
      ListenByte(l.rtcm, r, o, c);
      var m := PassByte(l, c, rest);
      NoPairHeard(m, r, r2, o - 6, rest);
    } else {
      assert rest == [] && b == [c] && [c] + [] == [c];
      LockByte(l.rtcm, r, r2, o, c);
      TaggedStays(c);
      var m, now := OneMore(l, false, c, []);
      FinalNothing(m);
      ThroughOne(l.rtcm, c);
      StandsLevel(m, now);
    }
  }

  lemma StandsLevel(m: Lexer, now: bool)
    requires Stands(m, now)
    ensures Level(m.state)
  {}

  lemma {:induction false} BringsLength(b: seq<byte>, r: Word, r2: Word, o: int)
    requires -5 <= o <= 24 && Brings(b, r, r2, o)
    ensures |b| == (o + 5) / 6 + 1
    decreases o + 6
  {
    hide Sym, AsWord, Tagged, Inside, Straddle;
    if o > 0 {
      BringsLength(b[1..], r, r2, o - 6);
    }
  }

  lemma {:induction false} PairDisturbs(l: Lexer, r: Word, r2: Word, o: int, b: seq<byte>)
    requires -5 <= o <= 24 && Attends(l, r, o) && FirstWordOf(r, r2) && Brings(b, r, r2, o) && !NoPair(b)
    requires o > 18 ==> !Greets(b[0])
    ensures Final(l, b) != (Through(l.rtcm, b), true)
    decreases |b|
  {
    hide InBounds, Step, Through, Sym, AsWord, Tagged, Inside, Straddle, Listening, Following, ParityOk, Preamble, Inverted,
         Carries, StartsWithZero, Greets, GoesOn, Packet.Safe, Final, Opens, NoPair;
    BringsLength(b, r, r2, o);
    NoPairNext(b);
    if |b| > 1 && Greets(b[0]) && b[1] == GoesOn(b[0]) {
      if o > 12 {
        PairFirst(l, r, r2, o, b);
      } else if o > 6 {
        PairBeforeLast(l, r, r2, o, b);
      } else {
        PairLast(l, r, r2, o, b);
      }
    } else {
      var c, rest := b[0], b[1..];
      assert [c] + rest == b;
      NoPairShort(rest);
      ListenByte(l.rtcm, r, o, c);
      var m := PassByte(l, c, rest);
      PairDisturbs(m, r, r2, o - 6, rest);
    }
  }

  lemma NoPairShort(p: seq<byte>)
    ensures p == [] ==> NoPair(p)
  {}

  lemma FirstSymbolBy(r: Word, o: bv6, x: Word)
    requires 19 <= o <= 24 && StartsWithZero(r) && Preamble(r) && x == InsideBy(r, o)
    ensures !LetterSymbol(x)
  {}

  /** The first whole symbol of the first word is no letter: it is in the preamble. */
  lemma FirstSymbol(r: Word, o: int)
    requires 19 <= o <= 24 && StartsWithZero(r) && Preamble(r)
    ensures !LetterSymbol(Inside(r, o))
  {
    assert 19 <= Count(o) <= 24;
    hide Count, InsideBy, LetterSymbol;
    FirstSymbolBy(r, Count(o), Inside(r, o));
  }

  /** The first word is heard exactly if it has no two letters of a greeting in it. */
  lemma WordHeard(l: Lexer, r: Word, r2: Word, o: int, b: seq<byte>)
    requires 18 < o <= 24 && Attends(l, r, o) && FirstWordOf(r, r2) && Brings(b, r, r2, o)
    ensures Final(l, b) == (Through(l.rtcm, b), true) <==> NoPair(b)
    ensures var t := Through(l.rtcm, b); t.locked && t.bufindex == 1 && t.buf[..1] == [r]
  {
    hide InBounds, Step, Through, Sym, AsWord, Tagged, Inside, Straddle, ParityOk, Preamble, Inverted,
         Carries, StartsWithZero, Greets, GoesOn, Packet.Safe, Final, Opens, NoPair, Spelling;
    FirstSymbol(r, o);
    DueRun(l.rtcm, r, r2, o, b);
    if NoPair(b) {
      NoPairHeard(l, r, r2, o, b);
    } else {
      if Greets(b[0]) {
        SpellingSymbols(b[0]);
      }
      PairDisturbs(l, r, r2, o, b);
    }
  }

  // ---------- behind any amount of idle line ----------

  /** The bytes carry the symbols, each with the data tag. */
  predicate Conveys(p: seq<byte>, syms: seq<Word>) {
    |p| == |syms| && forall i :: 0 <= i < |p| ==> Tagged(AsWord(p[i])) && Sym(p[i]) == syms[i]
  }

  /** The symbols of a line up to the one that ends the first word that is not idle. */
  function UpToLock(n: nat, airs: seq<Word>, o: int): (r: seq<Word>)
    requires -5 <= o <= 24
    decreases n, o + 6
  {
    var rs := Idle(n) + airs;
    if rs == [] then []
    else if o > 0 then [Inside(rs[0], o)] + UpToLock(n, airs, o - 6)
    else [Straddle(rs[0], Next(rs), -o)] + if n > 0 then UpToLock(n - 1, airs, o + 24) else []
  }

  lemma LockAtStep(n: nat, o: int)
    requires -5 <= o <= 24
    ensures LockAt(n, o) == 1 + if o > 0 then LockAt(n, o - 6) else if n > 0 then LockAt(n - 1, o + 24) else 0
  {}

  lemma {:induction false} UpToLockIs(n: nat, airs: seq<Word>, o: int)
    requires -5 <= o <= 24 && airs != []
    ensures LockAt(n, o) <= |Symbols(Idle(n) + airs, o)| && UpToLock(n, airs, o) == Symbols(Idle(n) + airs, o)[..LockAt(n, o)]
    decreases n, o + 6
  {
    hide Inside, Straddle, Next, LockAt, Symbols;
    LockAtStep(n, o);
    var rs := Idle(n) + airs;
    SymbolsNext(rs, o);
    if o > 0 {
      UpToLockIs(n, airs, o - 6);
      PrefixNext(Inside(rs[0], o), Symbols(rs, o - 6), LockAt(n, o - 6));
    } else if n > 0 {
      UpToLockIs(n - 1, airs, o + 24);
      assert rs[1..] == Idle(n - 1) + airs;
      PrefixNext(Straddle(rs[0], Next(rs), -o), Symbols(rs[1..], o + 24), LockAt(n - 1, o + 24));
    } else {
      PrefixNext(Straddle(rs[0], Next(rs), -o), Symbols(rs[1..], o + 24), 0);
    }
  }

  lemma SymbolsNext(rs: seq<Word>, o: int)
    requires -5 <= o <= 24 && rs != []
    ensures Symbols(rs, o) ==
      if o > 0 then [Inside(rs[0], o)] + Symbols(rs, o - 6) else [Straddle(rs[0], Next(rs), -o)] + Symbols(rs[1..], o + 24)
  {
    hide Inside, Straddle, Next;
  }

  lemma PrefixNext(x: Word, rest: seq<Word>, k: nat)
    requires k <= |rest|
    ensures ([x] + rest)[..1 + k] == [x] + rest[..k]
  {}

  lemma ConveysNext(p: seq<byte>, x: Word, syms: seq<Word>)
    requires Conveys(p, [x] + syms)
    ensures p != [] && Tagged(AsWord(p[0])) && Sym(p[0]) == x && Conveys(p[1..], syms)
  {
    hide Tagged, AsWord, Sym;
    var all := [x] + syms;
    forall i | 0 <= i < |p[1..]| ensures Tagged(AsWord(p[1..][i])) && Sym(p[1..][i]) == syms[i] {
      assert p[1..][i] == p[i + 1] && syms[i] == all[i + 1];
    }
    assert all[0] == x;
  }

  lemma {:induction false} ConveysBrings(p: seq<byte>, airs: seq<Word>, o: int)
    requires -5 <= o <= 24 && airs != [] && Conveys(p, UpToLock(0, airs, o))
    ensures Brings(p, airs[0], Next(airs), o)
    decreases o + 6
  {
    hide Inside, Straddle, Next, Tagged, AsWord, Sym, Conveys;
    assert Idle(0) + airs == airs;
    if o > 0 {
      ConveysNext(p, Inside(airs[0], o), UpToLock(0, airs, o - 6));
      ConveysBrings(p[1..], airs, o - 6);
    } else {
      ConveysNext(p, Straddle(airs[0], Next(airs), -o), []);
      NothingConveyed(p[1..]);
    }
  }

  lemma NothingConveyed(p: seq<byte>)
    requires Conveys(p, [])
    ensures p == []
  {}

  lemma EarlySymbolBy(r: Word, q: bv6, x: Word)
    requires q <= 5 && StartsWithZero(r) && x == StraddleBy(ZERO, r, q)
    ensures !LetterSymbol(x)
  {
    assert x.bits < 32;
  }

  /** No symbol that begins in the idle line is a letter. */
  lemma EarlySymbol(r: Word, o: int)
    requires -5 <= o <= 24 && StartsWithZero(r)
    ensures if o > 0 then !LetterSymbol(Inside(ZERO, o)) else !LetterSymbol(Straddle(ZERO, r, -o))
  {
    if o > 0 {
      IdleSymbol(Count(o));
    } else {
      CountsLow(-o);
      hide Count, StraddleBy, LetterSymbol;
      EarlySymbolBy(r, Count(-o), Straddle(ZERO, r, -o));
    }
  }

  lemma IdleSymbol(k: bv6)
    requires k < 32
    ensures InsideBy(ZERO, k).bits == 0
  {}

  lemma NextWord(data: seq<Word>)
    requires data != [] && IsgpsRoundTrip.Framed([], Clears(ZERO, data))
    ensures var airs := Airs(ZERO, data);
            airs != [] && airs[0] == Clear(ZERO, data[0]) && FirstWordOf(airs[0], Next(airs))
  {
    hide OnAir, Clear, Preamble, StartsWithZero, ParityOk, Inverted, Carries, Upright;
    FirstFramed(data);
    FirstWord(data[0]);
    HeadersSurvive(ZERO, data[0]);
    WordOnAir(ZERO, data[0]);
    FirstWordUpright(data[0]);
    NextCarries(ZERO, data);
  }

  /** What the decoder's register holds of the line, `n` idle words and then the first word to come. */
  ghost predicate OnTheLine(l: Lexer, n: nat, r: Word, o: int) {
    -5 <= o <= 24 && (n == 0 ==> o > 18) && Attends(l, if n == 0 then r else ZERO, o)
  }

  /** One symbol of the idle line. */
  lemma IdlePass(l: Lexer, n: nat, r: Word, o: int, c: byte, rest: seq<byte>) returns (m: Lexer)
    requires n > 0 && OnTheLine(l, n, r, o) && StartsWithZero(r) && Tagged(AsWord(c))
    requires Sym(c) == if o > 0 then Inside(ZERO, o) else Straddle(ZERO, if n > 1 then ZERO else r, -o)
    ensures if o > 0 then OnTheLine(m, n, r, o - 6) else OnTheLine(m, n - 1, r, o + 24)
    ensures Final(l, [c] + rest) == Final(m, rest) && Through(l.rtcm, [c] + rest) == Through(m.rtcm, rest)
    ensures NoPair([c] + rest) <==> NoPair(rest)
  {
    hide InBounds, Step, Through, Sym, AsWord, Tagged, Inside, Straddle, Greets, GoesOn, Packet.Safe, Final, NoPair, LetterSymbol,
         StartsWithZero, Absorb, Shr, Spelling;
    var next := if n > 1 then ZERO else r;
    ZeroStartsWithZero();
    EarlySymbol(next, o);
    StepSym(l.rtcm, c);
    if o > 0 {
      ListenInside(l.rtcm, ZERO, o);
    } else {
      ListenIdle(l.rtcm, next, o);
    }
    if Greets(c) {
      SpellingSymbols(c);
    }
    m := PassByte(l, c, rest);
    NoPairNext([c] + rest);
    assert ([c] + rest)[1..] == rest;
  }

  /** The first word behind `n` idle words. */
  lemma {:induction false} LineHeard(l: Lexer, n: nat, airs: seq<Word>, o: int, p: seq<byte>)
    requires airs != [] && FirstWordOf(airs[0], Next(airs)) && OnTheLine(l, n, airs[0], o) && Conveys(p, UpToLock(n, airs, o))
    ensures Final(l, p) == (Through(l.rtcm, p), true) <==> NoPair(p)
    ensures var t := Through(l.rtcm, p); t.locked && t.bufindex == 1 && t.buf[..1] == [airs[0]]
    decreases n, o + 6
  {
    hide InBounds, Step, Through, Sym, AsWord, Tagged, Inside, Straddle, Packet.Safe, Final, NoPair, Conveys, Listening,
         Preamble, ParityOk, Inverted, Carries, StartsWithZero;
    if n == 0 {
      ConveysBrings(p, airs, o);
      WordHeard(l, airs[0], Next(airs), o, p);
    } else {
      var rs := Idle(n) + airs;
      assert rs[0] == ZERO && rs[1..] == Idle(n - 1) + airs;
      assert Next(rs) == if n > 1 then ZERO else airs[0];
      if o > 0 {
        ConveysNext(p, Inside(ZERO, o), UpToLock(n, airs, o - 6));
        var c, rest := p[0], p[1..];
        assert [c] + rest == p;
        var m := IdlePass(l, n, airs[0], o, c, rest);
        LineHeard(m, n, airs, o - 6, rest);
      } else {
        ConveysNext(p, Straddle(ZERO, Next(rs), -o), UpToLock(n - 1, airs, o + 24));
        var c, rest := p[0], p[1..];
        assert [c] + rest == p;
        var m := IdlePass(l, n, airs[0], o, c, rest);
        LineHeard(m, n - 1, airs, o + 24, rest);
      }
    }
  }

  lemma {:induction false} TagsConvey(p: seq<byte>, syms: seq<Word>)
    requires Words(p) == Tags(syms) && AllSix(syms)
    ensures Conveys(p, syms)
  {
    hide Tagged, AsWord, ReverseBits, Tag;
    WordsAre(p);
    forall i | 0 <= i < |p| ensures Tagged(AsWord(p[i])) && Sym(p[i]) == syms[i] {
      assert Words(p)[i] == Tags(syms)[i] == Tag(syms[i]);
      TagRoundTrip(syms[i]);
    }
  }

  lemma {:induction false} WordsAre(p: seq<byte>)
    ensures forall i :: 0 <= i < |p| ==> Words(p)[i] == AsWord(p[i])
    decreases |p|
  {
    hide AsWord;
    if p != [] {
      WordsAre(p[1..]);
    }
  }

  /** The bytes of a clean transmission up to the one that ends the first word. */
  predicate BeginsLine(p: seq<byte>, msgs: seq<seq<Word>>, idle: nat, o: int) {
    && msgs != [] && (forall i :: 0 <= i < |msgs| ==> WellFormed(msgs[i]))
    && -5 <= o <= 24 && (idle == 0 ==> o == 24)
    && LockAt(idle, o) <= |OnLine(msgs, idle, o)| && Words(p) == Tags(OnLine(msgs, idle, o)[..LockAt(idle, o)])
  }

  /** Exactly when the first word is heard. The undisturbed decoder has locked and holds the first word of
      the first message at the end of these bytes; and the lexer, from the ground and with a fresh
      decoder, leaves its decoder like that and itself not in the middle of a greeting if and only if no
      two letters of a greeting follow each other in them. */
  lemma FirstWordHeard(l: Lexer, msgs: seq<seq<Word>>, idle: nat, o: int, p: seq<byte>)
    requires Stands(l, false) && IsInit(l.rtcm) && BeginsLine(p, msgs, idle, o)
    ensures InBounds(l.rtcm) && msgs[0] != []
    ensures var t := Through(l.rtcm, p); t.locked && t.bufindex == 1 && t.buf[..1] == [Clear(ZERO, msgs[0][0])]
    ensures Final(l, p) == (Through(l.rtcm, p), true) <==> NoPair(p)
  {
    hide WellFormed, IsInit, OnAir, Clear, Words, Tags, NoPair, Final, Through, Packet.Safe, FirstWordOf, Airs, Symbols, Listening,
         UpToLock, Conveys, Idle;
    InitInBounds(l.rtcm);
    var data := Flatten(msgs);
    assert data == msgs[0] + Flatten(msgs[1..]);
    WellFormedNotEmpty(msgs);
    MarksMessages(ZERO, msgs);
    NextWord(data);
    var airs := Airs(ZERO, data);
    StartsListening(l.rtcm, data, idle, o);
    FirstAir(ZERO, data);
    UpToLockIs(idle, airs, o);
    SymbolsAreSix(Idle(idle) + airs, o);
    var syms := OnLine(msgs, idle, o)[..LockAt(idle, o)];
    assert AllSix(syms);
    TagsConvey(p, syms);
    LineHeard(l, idle, airs, o, p);
  }

  // ---------- a clean transmission ----------

  /** What the sender can look at: the bytes up to lock, if the last of them is not itself a first letter. */
  lemma {:induction false} PeacefulIs(wait: nat, bytes: seq<byte>)
    requires 0 < wait <= |bytes| && !Greets(bytes[wait - 1])
    requires forall i :: 0 <= i < wait ==> Tagged(AsWord(bytes[i]))
    ensures Peaceful(wait, bytes) <==> NoPair(bytes[..wait])
    decreases wait
  {
    hide Tagged, AsWord, Greets, GoesOn, Opens, NoPair;
    TaggedStays(bytes[0]);
    NoPairNext(bytes[..wait]);
    if wait == 1 {
      assert bytes[..1][1..] == [];
      NoPairShort([]);
    } else {
      assert bytes[..wait][1..] == bytes[1..][..wait - 1];
      PeacefulIs(wait - 1, bytes[1..]);
    }
  }

  lemma {:induction false} AllTagged(words: seq<Word>)
    requires |OnlyTagged(words)| == |words|
    ensures OnlyTagged(words) == words && forall i :: 0 <= i < |words| ==> Tagged(words[i])
    decreases |words|
  {
    hide Tagged;
    if words != [] {
      TaggedShorter(words[1..]);
      AllTagged(words[1..]);
    }
  }

  lemma {:induction false} TaggedShorter(words: seq<Word>)
    ensures |OnlyTagged(words)| <= |words|
    decreases |words|
  {
    hide Tagged;
    if words != [] {
      TaggedShorter(words[1..]);
    }
  }

  lemma LockOnLine(msgs: seq<seq<Word>>, idle: nat, o: int)
    requires -5 <= o <= 24 && Flatten(msgs) != []
    ensures 0 < LockAt(idle, o) <= |OnLine(msgs, idle, o)|
  {
    hide Symbols, Idle, Airs, UpToLock, Flatten;
    UpToLockIs(idle, Airs(ZERO, Flatten(msgs)), o);
  }

  lemma {:induction false} WordsPrefix(p: seq<byte>, n: nat)
    requires n <= |p|
    ensures Words(p[..n]) == Words(p)[..n]
    decreases n
  {
    hide AsWord;
    if n > 0 {
      assert p[..n][1..] == p[1..][..n - 1];
      WordsPrefix(p[1..], n - 1);
    }
  }

  lemma TagsPrefix(syms: seq<Word>, n: nat)
    requires n <= |syms|
    ensures Tags(syms[..n]) == Tags(syms)[..n]
  {
    hide Tag;
  }

  lemma AllBytesTagged(bytes: seq<byte>)
    requires |OnlyTagged(Words(bytes))| == |bytes|
    ensures OnlyTagged(Words(bytes)) == Words(bytes) && forall i :: 0 <= i < |bytes| ==> Tagged(AsWord(bytes[i]))
  {
    hide Tagged, AsWord, OnlyTagged, Words;
    AllTagged(Words(bytes));
    WordsAre(bytes);
    forall i | 0 <= i < |bytes| ensures Tagged(AsWord(bytes[i])) {
      assert Words(bytes)[i] == AsWord(bytes[i]);
    }
  }

  lemma CleanWords(bytes: seq<byte>, syms: seq<Word>, n: nat)
    requires OnlyTagged(Words(bytes)) == Tags(syms) && |bytes| == |syms| && n <= |bytes|
    ensures Words(bytes[..n]) == Tags(syms[..n])
    ensures forall i :: 0 <= i < |bytes| ==> Tagged(AsWord(bytes[i]))
  {
    hide *;
    TagsLength(syms);
    AllBytesTagged(bytes);
    WordsPrefix(bytes, n);
    TagsPrefix(syms, n);
    SamePrefix(Words(bytes), Tags(syms), n);
  }

  lemma TagsLength(syms: seq<Word>)
    ensures |Tags(syms)| == |syms|
  {}

  lemma SamePrefix(a: seq<Word>, b: seq<Word>, n: nat)
    requires a == b && n <= |a|
    ensures a[..n] == b[..n]
  {}

  lemma CleanBegins(msgs: seq<seq<Word>>, idle: nat, o: int, bytes: seq<byte>)
    requires Transmits(msgs, idle, o, Words(bytes)) && |bytes| == |OnLine(msgs, idle, o)|
    ensures -5 <= o && 0 < LockAt(idle, o) <= |bytes| && BeginsLine(bytes[..LockAt(idle, o)], msgs, idle, o)
    ensures forall i :: 0 <= i < |bytes| ==> Tagged(AsWord(bytes[i]))
  {
    hide Tagged, AsWord, OnlyTagged, Words, Tags, OnLine, WellFormed, Transmits, BeginsLine, LockAt, Flatten;
    TransmitsParts(msgs, idle, o, Words(bytes));
    NotEmpty(msgs);
    LockOnLine(msgs, idle, o);
    var n, syms := LockAt(idle, o), OnLine(msgs, idle, o);
    CleanWords(bytes, syms, n);
    BeginsParts(bytes[..n], msgs, idle, o);
  }

  lemma TransmitsParts(msgs: seq<seq<Word>>, idle: nat, o: int, words: seq<Word>)
    requires Transmits(msgs, idle, o, words)
    ensures msgs != [] && (forall i :: 0 <= i < |msgs| ==> WellFormed(msgs[i])) && -5 <= o <= 24 && (idle == 0 ==> o == 24)
    ensures OnlyTagged(words) == Tags(OnLine(msgs, idle, o)) && |OnlyTagged(words)| == |OnLine(msgs, idle, o)|
  {
    hide OnlyTagged, OnLine, WellFormed, Tag;
  }

  lemma BeginsParts(p: seq<byte>, msgs: seq<seq<Word>>, idle: nat, o: int)
    requires msgs != [] && (forall i :: 0 <= i < |msgs| ==> WellFormed(msgs[i])) && -5 <= o <= 24 && (idle == 0 ==> o == 24)
    requires LockAt(idle, o) <= |OnLine(msgs, idle, o)| && Words(p) == Tags(OnLine(msgs, idle, o)[..LockAt(idle, o)])
    ensures BeginsLine(p, msgs, idle, o)
  {
    hide OnLine, WellFormed, Words, Tags, LockAt;
  }

  lemma NotEmpty(msgs: seq<seq<Word>>)
    requires msgs != [] && forall i :: 0 <= i < |msgs| ==> WellFormed(msgs[i])
    ensures Flatten(msgs) != []
  {
    assert Flatten(msgs) == msgs[0] + Flatten(msgs[1..]);
    hide Flatten, WellFormed;
    WellFormedNotEmpty(msgs);
  }

  /** A clean transmission whose first word does not end in a first letter. With no two letters of a
      greeting in the bytes up to lock, every message makes its packet; and only then is the first word
      heard. */
  lemma ExactlyHeard(l: Lexer, msgs: seq<seq<Word>>, idle: nat, o: int, bytes: seq<byte>)
    requires Stands(l, false) && IsInit(l.rtcm)
    requires Transmits(msgs, idle, o, Words(bytes)) && |bytes| == |OnLine(msgs, idle, o)|
    ensures -5 <= o && 0 < LockAt(idle, o) <= |bytes| && InBounds(l.rtcm)
    ensures
      var p := bytes[..LockAt(idle, o)];
      Final(l, p) == (Through(l.rtcm, p), true) <==> NoPair(p)
    ensures
      var p, got := bytes[..LockAt(idle, o)], Trimmed(PickedUp(l, bytes));
      NoPair(p) && !Greets(p[|p| - 1]) ==>
        && Run(l, bytes).1 == Packets(got)
        && |got| == |msgs| && forall i :: 0 <= i < |msgs| ==> SameData(got[i].words, msgs[i])
  {
    hide *;
    InitInBounds(l.rtcm);
    CleanBegins(msgs, idle, o, bytes);
    var p := bytes[..LockAt(idle, o)];
    FirstWordHeard(l, msgs, idle, o, p);
    if NoPair(p) && !Greets(p[|p| - 1]) {
      PeacefulIs(LockAt(idle, o), bytes);
      CleanStreamDelivered(l, msgs, idle, o, bytes);
    }
  }
}
