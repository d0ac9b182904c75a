/** A transmission that is lost: a type 3 message from station 130, as the encoder sends it, to a lexer on
    the ground with a fresh decoder. Its first word begins with the letters f, A, S and P; the lexer puts
    S to the decoder twice, which never locks, and no packet is handed over. */
module RtcmLost {
  import opened Bytes
  import opened IsgpsWord
  import opened Isgps
  import opened IsgpsTransport
  import opened IsgpsRoundTrip
  import opened Packet
  import opened RtcmStream
  import opened RtcmDelivery
  import opened RtcmGreeting
  import opened RtcmRegister
  import opened RtcmFirstWord
  import PacketRuns

  // ---------- the message ----------

  /** Type 3, station 130, four words of coordinates, all zero. */
  const STATION_130: seq<Word> := [Seal(0x19832080), Seal(0x800), ZERO, ZERO, ZERO, ZERO]

  /** What comes before the zeros. */
  const HEADERS: seq<byte> :=
    ['f' as int, 'A' as int, 'S' as int, 'P' as int, 'Q' as int, '@' as int, '@' as int, '@' as int, 'A' as int, 'C' as int]

  function Zeros(n: nat): (s: seq<byte>)
    ensures |s| == n
  {
    if n == 0 then [] else ['@' as int] + Zeros(n - 1)
  }

  /** The message on the line. */
  const STATION_130_SENT: seq<byte> := HEADERS + Zeros(20)

  lemma FirstOnAir()
    ensures OnAir(ZERO, Seal(0x19832080)) == Seal(0x198320a2)
  {
    var t := WithCarry(ZERO, Seal(0x19832080));
    assert t.bits == 0x19832080;
    assert ParityBits(t).bits == 0x22;
    assert Clear(ZERO, Seal(0x19832080)).bits == 0x198320a2;
  }

  lemma SecondOnAir()
    ensures OnAir(Seal(0x198320a2), Seal(0x800)) == Seal(0x80000830)
  {
    var t := WithCarry(Seal(0x198320a2), Seal(0x800));
    assert t.bits == 0x80000800;
    assert ParityBits(t).bits == 0x30;
    assert Clear(Seal(0x198320a2), Seal(0x800)).bits == 0x80000830;
  }

  lemma ZeroOnAir(prev: Word)
    requires prev == Seal(0x80000830) || prev == ZERO
    ensures OnAir(prev, ZERO) == ZERO
  {
    var t := WithCarry(prev, ZERO);
    assert t.bits == 0;
    assert ParityBits(t).bits == 0;
    assert Clear(prev, ZERO).bits == 0;
  }

  lemma MessageIs()
    ensures WellFormed(STATION_130)
  {
    var m := STATION_130;
    assert Preamble(m[0]) && FrameLength(m[1]) == 4;
  }

  lemma AirsAre()
    ensures Airs(ZERO, STATION_130) == [Seal(0x198320a2), Seal(0x80000830), ZERO, ZERO, ZERO, ZERO]
  {
    hide OnAir;
    FirstOnAir();
    SecondOnAir();
    ZeroOnAir(Seal(0x80000830));
    ZeroOnAir(ZERO);
    var m := STATION_130;
    assert m[1..][0] == Seal(0x800) && m[1..][1..] == [ZERO, ZERO, ZERO, ZERO];
    assert [ZERO, ZERO, ZERO, ZERO][1..] == [ZERO, ZERO, ZERO] && [ZERO, ZERO, ZERO][1..] == [ZERO, ZERO];
    assert [ZERO, ZERO][1..] == [ZERO];
    assert Airs(ZERO, [ZERO]) == [ZERO];
    assert Airs(ZERO, [ZERO, ZERO]) == [ZERO, ZERO];
    assert Airs(ZERO, [ZERO, ZERO, ZERO]) == [ZERO, ZERO, ZERO];
    assert Airs(Seal(0x80000830), [ZERO, ZERO, ZERO, ZERO]) == [ZERO, ZERO, ZERO, ZERO];
    assert Airs(Seal(0x198320a2), m[1..]) == [Seal(0x80000830), ZERO, ZERO, ZERO, ZERO];
  }

  // ---------- its symbols and bytes ----------

  /** The symbols of a word. */
  function FiveOf(r: Word): seq<Word> { [Inside(r, 24), Inside(r, 18), Inside(r, 12), Inside(r, 6), Inside(r, 0)] }

  lemma FirstFive()
    ensures FiveOf(Seal(0x198320a2)) == [Seal(25), Seal(32), Seal(50), Seal(2), Seal(34)]
  {
    var r: Word := Seal(0x198320a2);
    assert Inside(r, 24).bits == 25 && Inside(r, 18).bits == 32 && Inside(r, 12).bits == 50;
    assert Inside(r, 6).bits == 2 && Inside(r, 0).bits == 34;
  }

  lemma SecondFive()
    ensures FiveOf(Seal(0x80000830)) == [ZERO, ZERO, ZERO, Seal(32), Seal(48)]
  {
    var r: Word := Seal(0x80000830);
    assert Inside(r, 24).bits == 0 && Inside(r, 18).bits == 0 && Inside(r, 12).bits == 0;
    assert Inside(r, 6).bits == 32 && Inside(r, 0).bits == 48;
  }

  lemma ZeroFive()
    ensures FiveOf(ZERO) == [ZERO, ZERO, ZERO, ZERO, ZERO]
  {
    hide Count, InsideBy;
    IdleSymbol(Count(24));
    IdleSymbol(Count(18));
    IdleSymbol(Count(12));
    IdleSymbol(Count(6));
    IdleSymbol(Count(0));
  }

  lemma CodesAre()
    ensures Codes('f' as int, Seal(25)) && Codes('P' as int, Seal(2)) && Codes('Q' as int, Seal(34))
    ensures Codes('C' as int, Seal(48)) && Codes('@' as int, ZERO)
  {
    CodeIs('f' as int, 0x66, Seal(25), 0x26);
    CodeIs('P' as int, 0x50, Seal(2), 0x10);
    CodeIs('Q' as int, 0x51, Seal(34), 0x11);
    CodeIs('C' as int, 0x43, Seal(48), 0x03);
    CodeIs('@' as int, 0x40, ZERO, 0x00);
  }

  // ---------- the transmission ----------

  const HEADER_SYMBOLS: seq<Word> :=
    [Seal(25), Seal(32), Seal(50), Seal(2), Seal(34), ZERO, ZERO, ZERO, Seal(32), Seal(48)]

  function Nothings(n: nat): (s: seq<Word>)
    ensures |s| == n && forall i :: 0 <= i < n ==> s[i] == ZERO
  {
    if n == 0 then [] else [ZERO] + Nothings(n - 1)
  }

  lemma FiveNext(r: Word, rest: seq<Word>)
    ensures Symbols([r] + rest, 24) == FiveOf(r) + Symbols(rest, 24)
  {
    hide Inside, Symbols;
    FiveSymbols(r, rest);
  }

  lemma SymbolsAre()
    ensures OnLine([STATION_130], 0, 24) == HEADER_SYMBOLS + Nothings(20)
  {
    hide Inside, OnAir, Airs, FiveOf, Symbols;
    assert Flatten([STATION_130]) == STATION_130 by {
      assert [STATION_130][1..] == [] && STATION_130 + [] == STATION_130;
    }
    AirsAre();
    FirstFive();
    SecondFive();
    var a, b: Word := Seal(0x198320a2), Seal(0x80000830);
    var airs := [a, b, ZERO, ZERO, ZERO, ZERO];
    assert Idle(0) + airs == airs;
    assert airs == [a] + ([b] + [ZERO, ZERO, ZERO, ZERO]);
    FiveNext(a, [b] + [ZERO, ZERO, ZERO, ZERO]);
    FiveNext(b, [ZERO, ZERO, ZERO, ZERO]);
    ZeroSymbols();
    assert HEADER_SYMBOLS == FiveOf(a) + FiveOf(b);
    assert (FiveOf(a) + FiveOf(b)) + Nothings(20) == FiveOf(a) + (FiveOf(b) + Nothings(20));
  }

  lemma ZeroSymbols()
    ensures Symbols([ZERO, ZERO, ZERO, ZERO], 24) == Nothings(20)
  {
    hide Inside, FiveOf, Symbols;
    ZeroFive();
    var f := [ZERO, ZERO, ZERO, ZERO, ZERO];
    FiveNext(ZERO, [ZERO, ZERO, ZERO]);
    FiveNext(ZERO, [ZERO, ZERO]);
    FiveNext(ZERO, [ZERO]);
    FiveNext(ZERO, []);
    assert [ZERO] + [ZERO, ZERO, ZERO] == [ZERO, ZERO, ZERO, ZERO] && [ZERO] + [ZERO, ZERO] == [ZERO, ZERO, ZERO];
    assert [ZERO] + [ZERO] == [ZERO, ZERO] && [ZERO] + [] == [ZERO];
    assert Symbols([], 24) == [] by { NoSymbols(); }
    assert f + (f + (f + (f + []))) == Nothings(20);
  }

  lemma NoSymbols()
    ensures Symbols([], 24) == []
  {}

  /** The bytes carry the symbols. */
  predicate Coded(p: seq<byte>, syms: seq<Word>) {
    |p| == |syms| && forall i :: 0 <= i < |p| ==> Codes(p[i], syms[i])
  }

  lemma {:induction false} ZerosCoded(n: nat)
    requires Codes('@' as int, ZERO)
    ensures Coded(Zeros(n), Nothings(n))
  {
    hide Codes;
    if n > 0 {
      ZerosCoded(n - 1);
    }
  }

  lemma SentCoded()
    ensures Coded(STATION_130_SENT, HEADER_SYMBOLS + Nothings(20))
  {
    hide Codes;
    CodesAre();
    Letters();
    ZerosCoded(20);
    assert Coded(HEADERS, HEADER_SYMBOLS);
    var p, syms := STATION_130_SENT, HEADER_SYMBOLS + Nothings(20);
    forall i | 0 <= i < |p| ensures Codes(p[i], syms[i]) {
      if i >= 10 {
        assert p[i] == Zeros(20)[i - 10] && syms[i] == Nothings(20)[i - 10];
      } else {
        assert p[i] == HEADERS[i] && syms[i] == HEADER_SYMBOLS[i];
      }
    }
  }

  lemma {:induction false} CodedWords(p: seq<byte>, syms: seq<Word>)
    requires Coded(p, syms)
    ensures Words(p) == Tags(syms) && forall i :: 0 <= i < |p| ==> Tagged(Words(p)[i])
  {
    hide Tagged, Tag, AsWord, Low6, Sym, Words;
    WordsAre(p);
    forall i | 0 <= i < |p| ensures Words(p)[i] == Tag(syms[i]) && Tagged(Words(p)[i]) {
      assert Codes(p[i], syms[i]);
      CodesSym(p[i], syms[i]);
    }
  }

  lemma {:induction false} AllKeptTagged(words: seq<Word>)
    requires forall i :: 0 <= i < |words| ==> Tagged(words[i])
    ensures OnlyTagged(words) == words
    decreases |words|
  {
    hide Tagged;
    if words != [] {
      assert Tagged(words[0]);
      forall i | 0 <= i < |words[1..]| ensures Tagged(words[1..][i]) {
        assert words[1..][i] == words[i + 1];
      }
      AllKeptTagged(words[1..]);
    }
  }

  /** It is a clean transmission of the one message. */
  lemma ItIsSent()
    ensures Transmits([STATION_130], 0, 24, Words(STATION_130_SENT))
    ensures |STATION_130_SENT| == |OnLine([STATION_130], 0, 24)|
  {
    hide Words, Tags, OnLine, OnlyTagged, WellFormed, Tagged, Coded;
    MessageIs();
    SymbolsAre();
    SentCoded();
    CodedWords(STATION_130_SENT, HEADER_SYMBOLS + Nothings(20));
    AllKeptTagged(Words(STATION_130_SENT));
  }

  // ---------- the run ----------

  /** The lexer on the ground, its decoder unlocked and with `w` in the register. */
  predicate Waits(l: Lexer, w: Word) {
    Stands(l, false) && InBounds(l.rtcm) && !l.rtcm.locked && l.rtcm.word == w
  }

  lemma DropsByte(s: Decoder, c: byte, x: Word)
    requires InBounds(s) && !s.locked && Codes(c, x) && NoLock(s.word, x)
    ensures var (t, status) := Step(s, AsWord(c)); status == NoSync && InBounds(t) && !t.locked && t.word == Push6(s.word, x)
  {
    hide Window, Tagged, Tag, Low6, AsWord, ReverseBits, Locks, NoLock, Track, Sym;
    CodesSym(c, x);
    StepSym(s, c);
    NoLockPointThen(s.word, x, 5);
  }

  /** A byte that leaves the lexer where it is, and the register with one symbol more. */
  lemma Dropped(l: Lexer, w: Word, c: byte, x: Word, v: Word, rest: seq<byte>) returns (m: Lexer)
    requires Waits(l, w) && Codes(c, x) && NoLock(w, x) && v == Push6(w, x)
    requires Greets(c) ==> rest != [] && rest[0] != GoesOn(c)
    ensures Waits(m, v) && Run(l, [c] + rest) == Run(m, rest)
  {
    hide Codes, NoLock, Push6, InBounds, Step, OneTurn, Run, Packet.Safe, AsWord, Opens, GoesOn, Greets, Spelling, Silent, Through,
         Tagged, Sym;
    CodesSym(c, x);
    TaggedStays(c);
    DropsByte(l.rtcm, c, x);
    var t := Step(l.rtcm, AsWord(c)).0;
    StandsAfter(l, l.kind, t, []);
    m := After(l, l.kind, Ground, t, []);
    if Greets(c) {
      SpellingSymbols(c);
      ThroughOne(l.rtcm, c);
      assert Spelling(c)[..1] == [c] && Spelling(c)[1..1] == [];
      GreetingStops(l, c, 1, rest[0], rest[1..]);
      assert [rest[0]] + rest[1..] == rest && [] + rest == rest;
    } else {
      NotALetter(c);
      GroundTurn(l, c);
      NextRun(l, c, m, [], rest);
      assert [] + rest == rest;
    }
  }

  lemma NotALetter(c: byte)
    requires !Greets(c)
    ensures c != 'A' as int && c != 'E' as int
  {}

  // ---------- the registers it leaves ----------

  /** No eight bits that one more symbol can bring to the place of the preamble are the preamble. */
  predicate Blank(w: bv32) {
    && (w >> 16) & 0xff != 0x66 && (w >> 17) & 0xff != 0x66 && (w >> 18) & 0xff != 0x66
    && (w >> 19) & 0xff != 0x66 && (w >> 20) & 0xff != 0x66 && (w >> 21) & 0xff != 0x66
  }

  lemma BlankBy(w: Word, x: Word, k: bv6)
    requires k <= 5 && Blank(w.bits) && IsSymbol(x)
    ensures !Preamble(WindowBy(w, x, k))
  {}

  lemma BlankNoLock(w: Word, x: Word)
    requires Blank(w.bits) && IsSymbol(x)
    ensures NoLock(w, x)
  {
    hide WindowBy, Preamble, ParityOk, Blank, Count;
    forall k | 0 <= k <= 5 ensures !Locks(Window(w, x, k)) {
      CountsLow(k);
      BlankBy(w, x, Count(k));
    }
  }

  /** The register with one more symbol, in numbers. */
  predicate Shifts(w: bv32, x: bv32, v: bv32) { WindowBy(Seal(w), Seal(x), 0) == Seal(v) }

  lemma SpoiltShift()
    ensures Shifts(0x660cb2, 2, 0x19832c82)
  {
    assert WindowBy(Seal(0x660cb2), Seal(2), 0).bits == 0x19832c82;
  }

  /** The same for a register without the preamble. */
  lemma DroppedBlank(l: Lexer, w: bv32, c: byte, x: bv32, v: bv32, rest: seq<byte>) returns (m: Lexer)
    requires Waits(l, Seal(w)) && Codes(c, Seal(x)) && Blank(w) && Shifts(w, x, v)
    requires Greets(c) ==> rest != [] && rest[0] != GoesOn(c)
    ensures Waits(m, Seal(v)) && Run(l, [c] + rest) == Run(m, rest)
  {
    hide Waits, Codes, Run, NoLock, Push6;
    CodesSym(c, Seal(x));
    BlankNoLock(Seal(w), Seal(x));
    PushIs(Seal(w), Seal(x));
    m := Dropped(l, Seal(w), c, Seal(x), Seal(v), rest);
  }

  /** The four symbols heard first, f, A, S and S, and P look like a first word, but for the parity. */
  lemma SpoiltWord()
    ensures NoLock(Seal(0x660cb2), Seal(2))
  {
    var w, x: Word := Seal(0x660cb2), Seal(2);
    forall k | 0 <= k <= 5 ensures !Locks(Window(w, x, k)) {
      SpoiltWindow(k);
    }
  }

  lemma SpoiltWindow(k: nat)
    requires k <= 5
    ensures !Locks(Window(Seal(0x660cb2), Seal(2), k))
  {
    var w, x: Word := Seal(0x660cb2), Seal(2);
    if k == 0 {
      PushIs(w, x);
      SpoiltShift();
      SpoiltParity();
    } else {
      CountsLow(k);
      SpoiltBy(Count(k));
    }
  }

  lemma SpoiltParity()
    ensures !ParityOk(Seal(0x19832c82))
  {
    var w: Word := Seal(0x19832c82);
    assert Low6(w).bits == 2;
  }

  lemma SpoiltBy(k: bv6)
    requires 0 < k <= 5
    ensures !Preamble(WindowBy(Seal(0x660cb2), Seal(2), k))
  {}

  lemma FirstRegisters()
    ensures Blank(0x0) && Shifts(0x0, 25, 0x19)
    ensures Blank(0x19) && Shifts(0x19, 32, 0x660)
    ensures Blank(0x660) && Shifts(0x660, 50, 0x19832)
    ensures Blank(0x19832) && Shifts(0x19832, 50, 0x660cb2)
  {
    assert WindowBy(Seal(0x0), Seal(25), 0).bits == 0x19;
    assert WindowBy(Seal(0x19), Seal(32), 0).bits == 0x660;
    assert WindowBy(Seal(0x660), Seal(50), 0).bits == 0x19832;
    assert WindowBy(Seal(0x19832), Seal(50), 0).bits == 0x660cb2;
  }

  lemma MiddleRegisters()
    ensures Blank(0x19832c82) && Shifts(0x19832c82, 34, 0x60cb20a2)
    ensures Blank(0x60cb20a2) && Shifts(0x60cb20a2, 0, 0x32c82880)
    ensures Blank(0x32c82880) && Shifts(0x32c82880, 0, 0xb20a2000)
  {
    assert WindowBy(Seal(0x19832c82), Seal(34), 0).bits == 0x60cb20a2;
    assert WindowBy(Seal(0x60cb20a2), Seal(0), 0).bits == 0x32c82880;
    assert WindowBy(Seal(0x32c82880), Seal(0), 0).bits == 0xb20a2000;
  }

  lemma LaterRegisters()
    ensures Blank(0xb20a2000) && Shifts(0xb20a2000, 0, 0x82880000)
    ensures Blank(0x82880000) && Shifts(0x82880000, 32, 0xa2000020)
    ensures Blank(0xa2000020) && Shifts(0xa2000020, 48, 0x80000830)
  {
    assert WindowBy(Seal(0xb20a2000), Seal(0), 0).bits == 0x82880000;
    assert WindowBy(Seal(0x82880000), Seal(32), 0).bits == 0xa2000020;
    assert WindowBy(Seal(0xa2000020), Seal(48), 0).bits == 0x80000830;
  }

  lemma ZeroRegisters()
    ensures Blank(0x80000830) && Shifts(0x80000830, 0, 0x20c00)
    ensures Blank(0x20c00) && Shifts(0x20c00, 0, 0x830000)
    ensures Blank(0x830000) && Shifts(0x830000, 0, 0x20c00000)
  {
    assert WindowBy(Seal(0x80000830), Seal(0), 0).bits == 0x20c00;
    assert WindowBy(Seal(0x20c00), Seal(0), 0).bits == 0x830000;
    assert WindowBy(Seal(0x830000), Seal(0), 0).bits == 0x20c00000;
  }

  lemma LastRegisters()
    ensures Blank(0x20c00000) && Shifts(0x20c00000, 0, 0x30000000)
    ensures Blank(0x30000000) && Shifts(0x30000000, 0, 0x0)
    ensures Blank(0x0) && Shifts(0x0, 0, 0x0)
  {
    assert WindowBy(Seal(0x20c00000), Seal(0), 0).bits == 0x30000000;
    assert WindowBy(Seal(0x30000000), Seal(0), 0).bits == 0x0;
    assert WindowBy(Seal(0x0), Seal(0), 0).bits == 0x0;
  }

  // ---------- the loss ----------

  lemma {:induction false} ZerosDropped(l: Lexer, n: nat) returns (m: Lexer)
    requires Waits(l, ZERO) && Codes('@' as int, ZERO)
    ensures Waits(m, ZERO) && Run(l, Zeros(n)) == (m, [])
    decreases n
  {
    hide Waits, Codes, Run, Blank, Shifts;
    if n == 0 {
      m := l;
      RunNothing(l);
    } else {
      LastRegisters();
      m := DroppedBlank(l, 0, '@' as int, 0, 0, Zeros(n - 1));
      m := ZerosDropped(m, n - 1);
    }
  }

  lemma RunNothing(l: Lexer)
    requires Waits(l, ZERO)
    ensures Run(l, []) == (l, [])
  {}

  /** Five more zeros clear the register. */
  lemma Cleared(l: Lexer) returns (m: Lexer)
    requires Waits(l, Seal(0x80000830))
    ensures Waits(m, ZERO) && Run(l, Zeros(20)) == (m, [])
  {
    hide Waits, Codes, Run, Blank, Shifts, Zeros;
    CodesAre();
    ZeroRegisters();
    LastRegisters();
    var z := '@' as int;
    ZerosAre(20);
    ZerosAre(19);
    ZerosAre(18);
    ZerosAre(17);
    ZerosAre(16);
    m := DroppedBlank(l, 0x80000830, z, 0, 0x20c00, Zeros(19));
    m := DroppedBlank(m, 0x20c00, z, 0, 0x830000, Zeros(18));
    m := DroppedBlank(m, 0x830000, z, 0, 0x20c00000, Zeros(17));
    m := DroppedBlank(m, 0x20c00000, z, 0, 0x30000000, Zeros(16));
    m := DroppedBlank(m, 0x30000000, z, 0, 0, Zeros(15));
    m := ZerosDropped(m, 15);
  }

  lemma ZerosAre(n: nat)
    requires n > 0
    ensures Zeros(n) == ['@' as int] + Zeros(n - 1)
  {}

  /** The second word, behind the spoilt first. */
  lemma SecondWordDropped(l: Lexer) returns (m: Lexer)
    requires Waits(l, Seal(0x19832c82))
    ensures Waits(m, ZERO) && Run(l, HEADERS[4..] + Zeros(20)) == (m, [])
  {
    hide Waits, Codes, Run, Blank, Shifts, Zeros;
    CodesAre();
    Letters();
    MiddleRegisters();
    LaterRegisters();
    var z, q, a, c, t := '@' as int, 'Q' as int, 'A' as int, 'C' as int, Zeros(20);
    assert HEADERS[4..] + t == [q] + ([z] + ([z] + ([z] + ([a] + ([c] + t)))));
    m := DroppedBlank(l, 0x19832c82, q, 34, 0x60cb20a2, [z] + ([z] + ([z] + ([a] + ([c] + t)))));
    m := DroppedBlank(m, 0x60cb20a2, z, 0, 0x32c82880, [z] + ([z] + ([a] + ([c] + t))));
    m := DroppedBlank(m, 0x32c82880, z, 0, 0xb20a2000, [z] + ([a] + ([c] + t)));
    m := DroppedBlank(m, 0xb20a2000, z, 0, 0x82880000, [a] + ([c] + t));
    m := DroppedBlank(m, 0x82880000, a, 32, 0xa2000020, [c] + t);
    m := DroppedBlank(m, 0xa2000020, c, 48, 0x80000830, t);
    m := Cleared(m);
  }

  /** The decoder takes A and S. */
  lemma TwoLetters(l: Lexer)
    requires Waits(l, Seal(0x19))
    ensures var t := Through(l.rtcm, ['A' as int, 'S' as int]);
            Silent(l.rtcm, ['A' as int, 'S' as int]) && InBounds(t) && !t.locked && t.word == Seal(0x19832)
  {
    hide Codes, Blank, Shifts, Step, AsWord, InBounds, Packet.Safe, NoLock, Through, Silent, Push6;
    Letters();
    FirstRegisters();
    var a, c := 'A' as int, 'S' as int;
    CodesSym(a, Seal(32));
    CodesSym(c, Seal(50));
    BlankNoLock(Seal(0x19), Seal(32));
    BlankNoLock(Seal(0x660), Seal(50));
    ShiftsPush(0x19, 32, 0x660);
    ShiftsPush(0x660, 50, 0x19832);
    DropsByte(l.rtcm, a, Seal(32));
    DropsByte(Step(l.rtcm, AsWord(a)).0, c, Seal(50));
    ThroughTwo(l.rtcm, a, c);
  }

  lemma ShiftsPush(w: bv32, x: bv32, v: bv32)
    requires Shifts(w, x, v)
    ensures Push6(Seal(w), Seal(x)) == Seal(v)
  {
    PushIs(Seal(w), Seal(x));
  }

  /** A and S, then P: the lexer takes them for a greeting and reads S again. */
  lemma GreetingDropped(l: Lexer, rest: seq<byte>) returns (m: Lexer)
    requires Waits(l, Seal(0x19))
    ensures Waits(m, Seal(0x19832c82)) && Run(l, ['A' as int, 'S' as int, 'P' as int] + rest) == Run(m, rest)
  {
    hide Codes, Run, Blank, Shifts, InBounds, Packet.Safe, NoLock, Through, Silent, Push6;
    CodesAre();
    Letters();
    FirstRegisters();
    TwoLetters(l);
    var a, c, p := 'A' as int, 'S' as int, 'P' as int;
    assert Spelling(a)[..2] == [a, c] && Spelling(a)[1..2] == [c];
    GreetingStops(l, a, 2, p, rest);
    assert [a, c, p] + rest == [a, c] + ([p] + rest);
    m := After(l, l.kind, Ground, Through(l.rtcm, [a, c]), []);
    StandsAfter(l, l.kind, m.rtcm, []);
    m := DroppedBlank(m, 0x19832, c, 50, 0x660cb2, [p] + rest);
    SpoiltWord();
    SpoiltShift();
    ShiftsPush(0x660cb2, 2, 0x19832c82);
    m := Dropped(m, Seal(0x660cb2), p, Seal(2), Seal(0x19832c82), rest);
  }

  lemma {:induction false} PickedUpIsDelivered(l: Lexer, bytes: seq<byte>)
    requires Packet.Safe(l)
    ensures |PickedUp(l, bytes)| <= |Run(l, bytes).1|
    decreases |l.seen| + |bytes|, |bytes|
  {
    hide OneTurn, Packet.Safe;
    if bytes != [] {
      var t := OneTurn(l, bytes[0]);
      PickTurn(l, bytes);
      PickedUpIsDelivered(t.lexer, t.back + bytes[1..]);
    }
  }

  /** The message is sent, alone and whole, and no packet is handed over. */
  lemma MessageLost(l: Lexer)
    requires Stands(l, false) && IsInit(l.rtcm)
    ensures WellFormed(STATION_130) && Transmits([STATION_130], 0, 24, Words(STATION_130_SENT))
    ensures |STATION_130_SENT| == |OnLine([STATION_130], 0, 24)|
    ensures Run(l, STATION_130_SENT).1 == [] && PickedUp(l, STATION_130_SENT) == []
  {
    hide Codes, Run, Blank, Shifts, InBounds, Packet.Safe, PickedUp, WellFormed, Transmits, OnLine, Zeros;
    MessageIs();
    ItIsSent();
    InitInBounds(l.rtcm);
    CodesAre();
    FirstRegisters();
    var rest := HEADERS[4..] + Zeros(20);
    assert STATION_130_SENT == ['f' as int] + (['A' as int, 'S' as int, 'P' as int] + rest);
    var m := DroppedBlank(l, 0, 'f' as int, 25, 0x19, ['A' as int, 'S' as int, 'P' as int] + rest);
    m := GreetingDropped(m, rest);
    m := SecondWordDropped(m);
    PickedUpIsDelivered(l, STATION_130_SENT);
  }
}
