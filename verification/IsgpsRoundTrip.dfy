/** The decoder recovers every message of a transmission, at any bit offset, between any amount of
    idle line and untagged bytes; and what it does with a damaged word. */
module IsgpsRoundTrip {
  import opened IsgpsWord
  import opened Isgps
  import opened IsgpsTransport
  import opened Bytes

  // ---------- words on the air ----------

  predicate NoParity(t: Word) { t.bits & 0x3f == 0 }

  predicate SixBits(p: Word) { p.bits < 64 }

  lemma JoinMask25(t: Word, p: Word)
    requires SixBits(p)
    ensures Mask25(Join(t, p)) == Mask25(t)
  {
    assert Mask25(Join(t, p)).bits == Mask25(t).bits;
  }

  lemma JoinMask26(t: Word, p: Word)
    requires SixBits(p)
    ensures Mask26(Join(t, p)) == Mask26(t)
  {
    assert Mask26(Join(t, p)).bits == Mask26(t).bits;
  }

  lemma JoinMask27(t: Word, p: Word)
    requires SixBits(p)
    ensures Mask27(Join(t, p)) == Mask27(t)
  {
    assert Mask27(Join(t, p)).bits == Mask27(t).bits;
  }

  lemma JoinMask28(t: Word, p: Word)
    requires SixBits(p)
    ensures Mask28(Join(t, p)) == Mask28(t)
  {
    assert Mask28(Join(t, p)).bits == Mask28(t).bits;
  }

  lemma JoinMask29(t: Word, p: Word)
    requires SixBits(p)
    ensures Mask29(Join(t, p)) == Mask29(t)
  {
    assert Mask29(Join(t, p)).bits == Mask29(t).bits;
  }

  lemma JoinMask30(t: Word, p: Word)
    requires SixBits(p)
    ensures Mask30(Join(t, p)) == Mask30(t)
  {
    assert Mask30(Join(t, p)).bits == Mask30(t).bits;
  }

  lemma JoinLow(t: Word, p: Word)
    requires NoParity(t) && SixBits(p)
    ensures Low6(Join(t, p)) == p
  {
    assert Low6(Join(t, p)).bits == p.bits;
  }

  lemma PackIsSixBits(a: bool, b: bool, c: bool, d: bool, e: bool, f: bool)
    ensures SixBits(Pack(a, b, c, d, e, f))
  {}

  lemma WithCarryHasNoParity(prev: Word, data: Word)
    ensures NoParity(WithCarry(prev, data))
  {}

  /** A word as transmitted passes the receiver's check once it is the right way round. */
  lemma ClearIsSound(prev: Word, data: Word)
    ensures ParityOk(Clear(prev, data))
  {
    hide Odd, Pack, Mask25, Mask26, Mask27, Mask28, Mask29, Mask30, Low6, Join, WithCarry, SixBits, NoParity;
    var t := WithCarry(prev, data);
    PackIsSixBits(Odd(Mask25(t)), Odd(Mask26(t)), Odd(Mask27(t)), Odd(Mask28(t)), Odd(Mask29(t)), Odd(Mask30(t)));
    WithCarryHasNoParity(prev, data);
    JoinMask25(t, ParityBits(t));
    JoinMask26(t, ParityBits(t));
    JoinMask27(t, ParityBits(t));
    JoinMask28(t, ParityBits(t));
    JoinMask29(t, ParityBits(t));
    JoinMask30(t, ParityBits(t));
    JoinLow(t, ParityBits(t));
  }

  lemma InvertTwice(w: Word, v: Word)
    requires v == Invert(w)
    ensures Invert(v) == w
  {
    assert Invert(v).bits == w.bits;
  }

  lemma InvertKeepsRest(w: Word)
    ensures Inverted(Invert(w)) == Inverted(w) && SameTail(Invert(w), w)
  {}

  lemma UprightUndoes(w: Word)
    ensures Upright(Upright(w)) == w
    ensures SameTail(w, Upright(w))
  {
    hide Invert, Inverted, SameTail;
    InvertTwice(w, Invert(w));
    InvertKeepsRest(w);
    SameTailReflexive(w);
    SameTailSymmetric(w, Invert(w));
  }

  lemma SameTailReflexive(w: Word)
    ensures SameTail(w, w)
  {}

  lemma SameTailSymmetric(v: Word, w: Word)
    ensures SameTail(v, w) == SameTail(w, v)
  {}

  lemma InvertKeepsCarry(prev: Word, w: Word)
    ensures Carries(prev, Invert(w)) == Carries(prev, w)
  {}

  lemma JoinKeepsCarry(prev: Word, data: Word, p: Word)
    requires SixBits(p)
    ensures Carries(prev, Join(WithCarry(prev, data), p))
  {}

  lemma OnAirCarries(prev: Word, data: Word)
    ensures Carries(prev, OnAir(prev, data))
  {
    hide Odd, Pack, Mask25, Mask26, Mask27, Mask28, Mask29, Mask30, Join, WithCarry, SixBits, Carries, Invert, Inverted;
    var t := WithCarry(prev, data);
    PackIsSixBits(Odd(Mask25(t)), Odd(Mask26(t)), Odd(Mask27(t)), Odd(Mask28(t)), Odd(Mask29(t)), Odd(Mask30(t)));
    JoinKeepsCarry(prev, data, ParityBits(t));
    InvertKeepsCarry(prev, Clear(prev, data));
  }

  lemma PaddingCarries(r: Word)
    ensures Carries(r, Shl(r, 30))
  {
    assert Count(30) == 30;
    hide Count;
  }

  lemma JoinKeepsData(prev: Word, data: Word, p: Word)
    requires SixBits(p)
    ensures Data(Join(WithCarry(prev, data), p)) == Data(data)
  {
    assert Data(Join(WithCarry(prev, data), p)).bits == Data(data).bits;
  }

  /** All 24 data bits survive. */
  lemma ClearKeepsData(prev: Word, data: Word)
    ensures Data(Clear(prev, data)) == Data(data)
  {
    hide Odd, Pack, Mask25, Mask26, Mask27, Mask28, Mask29, Mask30, Join, WithCarry, SixBits, Data;
    var t := WithCarry(prev, data);
    PackIsSixBits(Odd(Mask25(t)), Odd(Mask26(t)), Odd(Mask27(t)), Odd(Mask28(t)), Odd(Mask29(t)), Odd(Mask30(t)));
    JoinKeepsData(prev, data, ParityBits(t));
  }

  lemma PreambleIsData(w: Word)
    ensures Preamble(Data(w)) == Preamble(w)
  {}

  lemma FrameLengthIsData(w: Word)
    ensures FrameLength(Data(w)) == FrameLength(w)
  {
    assert (Data(w).bits >> 9) & 0x1f == (w.bits >> 9) & 0x1f;
  }

  lemma HeadersSurvive(prev: Word, data: Word)
    ensures Preamble(Clear(prev, data)) == Preamble(data)
    ensures FrameLength(Clear(prev, data)) == FrameLength(data)
  {
    hide Clear, Preamble, FrameLength, Data;
    ClearKeepsData(prev, data);
    PreambleIsData(data);
    PreambleIsData(Clear(prev, data));
    FrameLengthIsData(data);
    FrameLengthIsData(Clear(prev, data));
  }

  lemma NotInvertedAfterZero(data: Word, p: Word)
    requires SixBits(p)
    ensures !Inverted(Join(WithCarry(ZERO, data), p))
    ensures Preamble(data) ==> StartsWithZero(Join(WithCarry(ZERO, data), p))
  {}

  /** The first word of a transmission goes out uninverted, its first bit zero. */
  lemma FirstWord(data: Word)
    ensures OnAir(ZERO, data) == Clear(ZERO, data)
    ensures Preamble(data) ==> StartsWithZero(OnAir(ZERO, data))
  {
    hide Odd, Pack, Mask25, Mask26, Mask27, Mask28, Mask29, Mask30, Join, WithCarry, SixBits, Inverted, Invert,
         Preamble, StartsWithZero;
    var t := WithCarry(ZERO, data);
    PackIsSixBits(Odd(Mask25(t)), Odd(Mask26(t)), Odd(Mask27(t)), Odd(Mask28(t)), Odd(Mask29(t)), Odd(Mask30(t)));
    NotInvertedAfterZero(data, ParityBits(t));
  }

  // ---------- one symbol at a time ----------

  /** Not locked, all but the low `o + 6` bits of `r` received so far. */
  ghost predicate Listening(s: Decoder, r: Word, o: int)
    requires -6 < o <= 24
  {
    InBounds(s) && !s.locked && s.word == Shr(r, o + 6)
  }

  /** Locked, all but the low `o + 6` bits of `r` received so far, `words` stored. */
  ghost predicate Following(s: Decoder, r: Word, o: int, words: seq<Word>)
    requires -6 < o <= 24
  {
    && InBounds(s) && s.locked && s.offset == o && s.word == Keep(r, o + 6)
    && |words| < RTCM_WORDS_MAX && s.bufindex == |words| && s.buf[..|words|] == words
  }

  lemma ListenInside(s: Decoder, r: Word, o: int)
    requires 0 < o <= 24 && Listening(s, r, o) && StartsWithZero(r)
    ensures var (t, status) := Absorb(s, Inside(r, o)); status == NoSync && Listening(t, r, o - 6)
  {
    hide Window, Inside, Shr, StartsWithZero, Preamble, ParityOk, Track;
    var sym := Inside(r, o);
    forall k | 0 <= k <= 5
      ensures !Preamble(Window(s.word, sym, k))
    {
      InsideUnlocked(r, o, k);
    }
    InsideUnlocked(r, o, 0);
    NoLockPoint(s.word, sym, 5);
  }

  lemma ListenIdle(s: Decoder, r2: Word, o: int)
    requires -5 <= o <= 0 && Listening(s, ZERO, o) && StartsWithZero(r2)
    ensures var (t, status) := Absorb(s, Straddle(ZERO, r2, -o)); status == NoSync && Listening(t, r2, o + 24)
  {
    hide Window, Straddle, Shr, StartsWithZero, Preamble, ParityOk, Track;
    var sym := Straddle(ZERO, r2, -o);
    ShrZero(o + 6);
    forall k | 0 <= k <= 5
      ensures !Preamble(Window(s.word, sym, k))
    {
      IdleUnlocked(r2, o, k);
    }
    IdleUnlocked(r2, o, 0);
    NoLockPoint(s.word, sym, 5);
  }

  lemma FollowInside(s: Decoder, r: Word, o: int, words: seq<Word>)
    requires 0 < o <= 24 && Following(s, r, o, words)
    ensures var (t, status) := Absorb(s, Inside(r, o)); status == Sync && Following(t, r, o - 6, words)
  {
    hide Inside, Keep, Merge;
    MergeInside(r, o);
  }

  /** The symbol that completes a sound word stores it, and completes a message exactly when the words
      stored make one. */
  lemma FollowWord(s: Decoder, r: Word, r2: Word, o: int, words: seq<Word>)
    requires -5 <= o <= 0 && Following(s, r, o, words)
    requires ParityOk(Upright(r)) && Carries(r, r2)
    requires words == [] ==> Preamble(Upright(r))
    requires !Complete(words + [Upright(r)]) ==> |words| + 1 < RTCM_WORDS_MAX
    ensures
      var (t, status) := Absorb(s, Straddle(r, r2, -o));
      var stored := words + [Upright(r)];
      && |t.buf| == RTCM_WORDS_MAX && t.buf[..|stored|] == stored
      && if Complete(stored) then status == Message && Following(t, r2, o + 24, [])
         else status == Sync && Following(t, r2, o + 24, stored)
  {
    hide Straddle, Keep, Merge, Upright, ParityOk, Preamble, FrameLength, Carries, Shl, SameTail;
    MergeStraddle(r, r2, o);
    UprightUndoes(r);
    SameTailSymmetric(r, Upright(r));
    MergeRest(r, r2, Upright(r), o);
    var stored := words + [Upright(r)];
    assert s.buf[s.bufindex := Upright(r)][..s.bufindex + 1] == stored;
  }

  /** Lock comes with the last bit of the first word, which is stored at once. */
  lemma ListenLock(s: Decoder, r: Word, r2: Word, o: int)
    requires -5 <= o <= 0 && Listening(s, r, o)
    requires StartsWithZero(r) && Preamble(r) && ParityOk(r) && !Inverted(r) && Carries(r, r2)
    ensures var (t, status) := Absorb(s, Straddle(r, r2, -o)); status == Sync && Following(t, r2, o + 24, [r])
  {
    hide Window, Straddle, Keep, Merge, Shr, Shl, Inverted, ParityOk, Preamble, FrameLength, Carries, StartsWithZero, SameTail;
    var sym := Straddle(r, r2, -o);
    forall k | -o <= k <= 5
      ensures if k == -o then Window(s.word, sym, k) == r else !Preamble(Window(s.word, sym, k))
    {
      StraddleUnlocked(r, r2, o, k);
    }
    LockPointIs(s.word, sym, 5, -o);
    MergeTwice(s.word, sym, -o);
    SameTailReflexive(r);
    MergeRest(r, r2, r, o);
    assert s.buf[0 := r][..1] == [r];
  }

  // ---------- whole transmissions ----------

  /** What one byte brings: the status returned and, with a message, its words. */
  datatype Receipt = Receipt(status: Status, words: seq<Word>)

  const NOTHING_YET: Receipt := Receipt(NoSync, [])
  const IN_SYNC: Receipt := Receipt(Sync, [])

  function Report(t: Decoder, status: Status): Receipt
    requires InBounds(t)
  {
    Receipt(status, if status == Message then t.buf[..FrameLength(t.buf[1]) + 2] else [])
  }

  /** The decoder fed six bits at a time. */
  function Hear(s: Decoder, symbols: seq<Word>): (r: (Decoder, seq<Receipt>))
    requires InBounds(s)
    ensures InBounds(r.0) && |r.1| == |symbols|
    decreases |symbols|
  {
    if symbols == [] then (s, []) else
      var (t, status) := Absorb(s, symbols[0]);
      var (u, rest) := Hear(t, symbols[1..]);
      (u, [Report(t, status)] + rest)
  }

  /** The decoder fed byte by byte. */
  function Receive(s: Decoder, bytes: seq<Word>): (r: (Decoder, seq<Receipt>))
    requires InBounds(s)
    ensures InBounds(r.0) && |r.1| == |bytes|
    decreases |bytes|
  {
    if bytes == [] then (s, []) else
      var (t, status) := Step(s, bytes[0]);
      var (u, rest) := Receive(t, bytes[1..]);
      (u, [Report(t, status)] + rest)
  }

  /** The receipts due to a listener when each word of a stream is due `marks[i]` on its last bit:
      nothing in between but whether lock has been reached. */
  function Due(locked: bool, marks: seq<Receipt>, o: int): seq<Receipt>
    requires -5 <= o <= 24
    decreases |marks|, o + 6
  {
    if marks == [] then []
    else if o > 0 then [if locked then IN_SYNC else NOTHING_YET] + Due(locked, marks, o - 6)
    else [marks[0]] + Due(marks[0].status != NoSync, marks[1..], o + 24)
  }

  /** Words grouped as the receiver groups them, each with what it is due. */
  function Marks(words: seq<Word>, clears: seq<Word>): (r: seq<Receipt>)
    ensures |r| == |clears|
    decreases |clears|
  {
    if clears == [] then [] else
      var stored := words + [clears[0]];
      if Complete(stored) then [Receipt(Message, stored)] + Marks([], clears[1..])
      else [IN_SYNC] + Marks(stored, clears[1..])
  }

  /** Every message starts with a preamble. */
  predicate Framed(words: seq<Word>, clears: seq<Word>)
    decreases |clears|
  {
    clears == [] ||
    (var stored := words + [clears[0]];
     && (words == [] ==> Preamble(clears[0]))
     && Framed(if Complete(stored) then [] else stored, clears[1..]))
  }

  lemma ReportMessage(t: Decoder, stored: seq<Word>)
    requires InBounds(t) && Complete(stored) && |stored| == FrameLength(stored[1]) + 2
    requires |stored| <= |t.buf| && t.buf[..|stored|] == stored
    ensures Report(t, Message) == Receipt(Message, stored)
  {
    assert t.buf[1] == t.buf[..|stored|][1];
  }

  lemma WordOnAir(prev: Word, data: Word)
    ensures Upright(OnAir(prev, data)) == Clear(prev, data) && ParityOk(Clear(prev, data))
  {
    hide Clear, ParityOk, Upright;
    UprightUndoes(Clear(prev, data));
    ClearIsSound(prev, data);
  }

  lemma NextCarries(prev: Word, data: seq<Word>)
    requires data != []
    ensures Carries(OnAir(prev, data[0]), Next(Airs(prev, data)))
  {
    hide OnAir, Carries, Shl;
    var r := OnAir(prev, data[0]);
    if |data| > 1 {
      OnAirCarries(r, data[1]);
    } else {
      PaddingCarries(r);
    }
  }

  /** The words the receiver holds once `clear` has joined `words`. */
  function Held(words: seq<Word>, clear: Word): seq<Word> {
    if Complete(words + [clear]) then [] else words + [clear]
  }

  lemma FollowOneWord(s: Decoder, prev: Word, data: seq<Word>, o: int, words: seq<Word>)
    requires -5 <= o <= 0 && data != []
    requires Following(s, OnAir(prev, data[0]), o, words)
    requires Framed(words, Clears(prev, data)) && !Complete(words)
    ensures
      var r, clear := OnAir(prev, data[0]), Clear(prev, data[0]);
      var (t, status) := Absorb(s, Straddle(r, Next(Airs(prev, data)), -o));
      && Report(t, status) == Marks(words, Clears(prev, data))[0]
      && Report(t, status).status != NoSync
      && (|data| > 1 ==> Following(t, OnAir(r, data[1]), o + 24, Held(words, clear)))
  {
    hide OnAir, Clear, Straddle, Absorb, Keep, Preamble, FrameLength, Carries, ParityOk, Shl, Upright;
    var rs := Airs(prev, data);
    var r, r2 := OnAir(prev, data[0]), Next(rs);
    WordOnAir(prev, data[0]);
    var stored := words + [Clear(prev, data[0])];
    NextCarries(prev, data);
    FollowWord(s, r, r2, o, words);
    var (t, status) := Absorb(s, Straddle(r, r2, -o));
    if Complete(stored) {
      assert stored[..|words|] == words;
      ReportMessage(t, stored);
    }
  }

  /** Once locked, the decoder hands over exactly the words sent, however they straddle its symbols. */
  lemma {:induction false} FollowStream(s: Decoder, prev: Word, data: seq<Word>, o: int, words: seq<Word>)
    requires -5 <= o <= 24 && data != []
    requires Following(s, OnAir(prev, data[0]), o, words)
    requires Framed(words, Clears(prev, data)) && !Complete(words)
    ensures Hear(s, Symbols(Airs(prev, data), o)).1 == Due(true, Marks(words, Clears(prev, data)), o)
    decreases |data|, o + 6
  {
    hide OnAir, Clear, Inside, Straddle, Absorb, Keep, Preamble, FrameLength, Next, Report;
    var rs := Airs(prev, data);
    var r := OnAir(prev, data[0]);
    if o > 0 {
      FollowInside(s, r, o, words);
      var (t, status) := Absorb(s, Inside(r, o));
      ReportSync(t, status);
      FollowStream(t, prev, data, o - 6, words);
      assert Symbols(rs, o)[1..] == Symbols(rs, o - 6);
    } else {
      FollowOneWord(s, prev, data, o, words);
      var t := Absorb(s, Straddle(r, Next(rs), -o)).0;
      if |data| > 1 {
        FollowStream(t, r, data[1..], o + 24, Held(words, Clear(prev, data[0])));
      }
      assert Symbols(rs, o)[1..] == Symbols(Airs(r, data[1..]), o + 24);
    }
  }

  lemma ReportSync(t: Decoder, status: Status)
    requires InBounds(t) && status != Message
    ensures Report(t, status) == Receipt(status, [])
  {}

  lemma ListenOneWord(s: Decoder, data: seq<Word>, o: int)
    requires -5 <= o <= 0 && data != []
    requires Listening(s, OnAir(ZERO, data[0]), o)
    requires Framed([], Clears(ZERO, data))
    ensures
      var r := OnAir(ZERO, data[0]);
      var (t, status) := Absorb(s, Straddle(r, Next(Airs(ZERO, data)), -o));
      && Report(t, status) == IN_SYNC
      && Clear(ZERO, data[0]) == r
      && (|data| > 1 ==> Following(t, OnAir(r, data[1]), o + 24, [r]) && Framed([r], Clears(r, data[1..])))
  {
    hide OnAir, Clear, Straddle, Absorb, Keep, Preamble, FrameLength, Report, Inverted, ParityOk,
         StartsWithZero, Carries, Upright;
    var rs := Airs(ZERO, data);
    var r := OnAir(ZERO, data[0]);
    FirstWord(data[0]);
    HeadersSurvive(ZERO, data[0]);
    WordOnAir(ZERO, data[0]);
    FirstWordUpright(data[0]);
    NextCarries(ZERO, data);
    ListenLock(s, r, Next(rs), o);
    var (t, status) := Absorb(s, Straddle(r, Next(rs), -o));
    ReportSync(t, status);
    assert [] + [r] == [r];
  }

  /** From power-up: nothing until the last bit of the first word, then every word. */
  lemma {:induction false} ListenStream(s: Decoder, data: seq<Word>, o: int)
    requires -5 <= o <= 24 && data != []
    requires Listening(s, OnAir(ZERO, data[0]), o)
    requires Framed([], Clears(ZERO, data))
    ensures Hear(s, Symbols(Airs(ZERO, data), o)).1 == Due(false, Marks([], Clears(ZERO, data)), o)
    decreases o + 6
  {
    hide OnAir, Clear, Inside, Straddle, Absorb, Keep, Preamble, FrameLength, Report, Next, StartsWithZero;
    var rs := Airs(ZERO, data);
    var r := OnAir(ZERO, data[0]);
    assert [] + [r] == [r];
    if o > 0 {
      FirstFramed(data);
      FirstWord(data[0]);
      HeadersSurvive(ZERO, data[0]);
      ListenInside(s, r, o);
      var (t, status) := Absorb(s, Inside(r, o));
      ReportSync(t, status);
      ListenStream(t, data, o - 6);
      assert Symbols(rs, o)[1..] == Symbols(rs, o - 6);
    } else {
      ListenOneWord(s, data, o);
      var t := Absorb(s, Straddle(r, Next(rs), -o)).0;
      if |data| > 1 {
        FollowStream(t, r, data[1..], o + 24, [r]);
      }
      assert Symbols(rs, o)[1..] == Symbols(Airs(r, data[1..]), o + 24);
    }
  }

  lemma FirstWordUpright(data: Word)
    ensures !Inverted(OnAir(ZERO, data))
  {
    hide Odd, Pack, Mask25, Mask26, Mask27, Mask28, Mask29, Mask30, Join, WithCarry, SixBits, Invert, Inverted;
    var t := WithCarry(ZERO, data);
    PackIsSixBits(Odd(Mask25(t)), Odd(Mask26(t)), Odd(Mask27(t)), Odd(Mask28(t)), Odd(Mask29(t)), Odd(Mask30(t)));
    NotInvertedAfterZero(data, ParityBits(t));
  }

  /** `n` words of idle line. */
  function Idle(n: nat): (r: seq<Word>)
    ensures |r| == n
  {
    if n == 0 then [] else [ZERO] + Idle(n - 1)
  }

  function Silence(n: nat): seq<Receipt> {
    if n == 0 then [] else [NOTHING_YET] + Silence(n - 1)
  }

  lemma NextIdle(n: nat, data: seq<Word>)
    requires n > 0 && data != []
    ensures Next(Idle(n) + Airs(ZERO, data)) == if n > 1 then ZERO else OnAir(ZERO, data[0])
  {
    hide OnAir;
    assert Idle(n)[1..] == Idle(n - 1);
    assert n > 1 ==> Idle(n)[1] == Idle(n - 1)[0] == ZERO;
  }

  lemma IdleOneWord(s: Decoder, n: nat, data: seq<Word>, o: int)
    requires -5 <= o <= 0 && data != [] && n > 0
    requires Listening(s, ZERO, o) && Framed([], Clears(ZERO, data))
    ensures
      var (t, status) := Absorb(s, Straddle(ZERO, Next(Idle(n) + Airs(ZERO, data)), -o));
      && Report(t, status) == NOTHING_YET
      && if n == 1 then Listening(t, OnAir(ZERO, data[0]), o + 24) else Listening(t, ZERO, o + 24)
  {
    hide OnAir, Clear, Straddle, Absorb, Preamble, FrameLength, Report, StartsWithZero, Airs, Clears, Shr;
    var r2 := Next(Idle(n) + Airs(ZERO, data));
    NextIdle(n, data);
    ZeroStartsWithZero();
    FirstFramed(data);
    FirstWord(data[0]);
    HeadersSurvive(ZERO, data[0]);
    ListenIdle(s, r2, o);
    var (t, status) := Absorb(s, Straddle(ZERO, r2, -o));
    ReportSync(t, status);
  }

  /** The same behind any amount of idle line, cut at any bit. */
  lemma {:induction false} IdleStream(s: Decoder, n: nat, data: seq<Word>, o: int)
    requires -5 <= o <= 24 && data != []
    requires if n == 0 then Listening(s, OnAir(ZERO, data[0]), o) else Listening(s, ZERO, o)
    requires Framed([], Clears(ZERO, data))
    ensures Hear(s, Symbols(Idle(n) + Airs(ZERO, data), o)).1 == Due(false, Silence(n) + Marks([], Clears(ZERO, data)), o)
    decreases n, o + 6
  {
    hide OnAir, Inside, Straddle, Absorb, Report, StartsWithZero, Marks, Airs, Clears, Framed, Shr, Next;
    var airs, marks := Airs(ZERO, data), Marks([], Clears(ZERO, data));
    var rs := Idle(n) + airs;
    if n == 0 {
      assert rs == airs && Silence(0) + marks == marks;
      ListenStream(s, data, o);
    } else {
      assert rs != [] && rs[0] == ZERO && rs[1..] == Idle(n - 1) + airs;
      assert (Silence(n) + marks)[1..] == Silence(n - 1) + marks;
      if o > 0 {
        ZeroStartsWithZero();
        ListenInside(s, ZERO, o);
        var (t, status) := Absorb(s, Inside(ZERO, o));
        ReportSync(t, status);
        IdleStream(t, n, data, o - 6);
        assert Symbols(rs, o)[1..] == Symbols(rs, o - 6);
      } else {
        IdleOneWord(s, n, data, o);
        var (t, status) := Absorb(s, Straddle(ZERO, Next(rs), -o));
        IdleStream(t, n - 1, data, o + 24);
        assert Symbols(rs, o)[1..] == Symbols(rs[1..], o + 24);
      }
    }
  }

  lemma ZeroStartsWithZero()
    ensures StartsWithZero(ZERO)
  {}

  lemma FirstAir(prev: Word, data: seq<Word>)
    requires data != []
    ensures Airs(prev, data)[0] == OnAir(prev, data[0])
  {
    hide OnAir;
  }

  lemma FirstFramed(data: seq<Word>)
    requires data != [] && Framed([], Clears(ZERO, data))
    ensures Preamble(Clear(ZERO, data[0]))
  {
    hide Clear, Preamble;
  }

  // ---------- messages ----------

  /** A message: a first header word with the preamble, and as many words as the second announces. */
  predicate WellFormed(m: seq<Word>) {
    |m| >= 2 && Preamble(m[0]) && |m| == FrameLength(m[1]) + 2
  }

  /** The last word on the air after `data`. */
  function LastAir(prev: Word, data: seq<Word>): Word
    decreases |data|
  {
    if data == [] then prev else LastAir(OnAir(prev, data[0]), data[1..])
  }

  function InSync(n: nat): (r: seq<Receipt>)
    ensures |r| == n
  {
    if n == 0 then [] else [IN_SYNC] + InSync(n - 1)
  }

  /** What a run of messages is due: the message, whole, on its last word and nothing before. */
  function MessageMarks(prev: Word, msgs: seq<seq<Word>>): seq<Receipt>
    requires forall i :: 0 <= i < |msgs| ==> msgs[i] != []
    decreases |msgs|
  {
    if msgs == [] then [] else
      InSync(|msgs[0]| - 1) + [Receipt(Message, Clears(prev, msgs[0]))]
      + MessageMarks(LastAir(prev, msgs[0]), msgs[1..])
  }

  lemma {:induction false} ClearsConcat(prev: Word, a: seq<Word>, b: seq<Word>)
    ensures Clears(prev, a + b) == Clears(prev, a) + Clears(LastAir(prev, a), b)
    decreases |a|
  {
    hide OnAir, Clear;
    if a == [] {
      assert a + b == b;
    } else {
      assert (a + b)[1..] == a[1..] + b;
      ClearsConcat(OnAir(prev, a[0]), a[1..], b);
    }
  }

  lemma {:induction false} ClearsKeepMessage(prev: Word, m: seq<Word>)
    requires WellFormed(m)
    ensures WellFormed(Clears(prev, m))
  {
    hide OnAir, Clear, Preamble, FrameLength;
    HeadersSurvive(prev, m[0]);
    HeadersSurvive(OnAir(prev, m[0]), m[1]);
    assert Clears(prev, m)[1] == Clears(OnAir(prev, m[0]), m[1..])[0];
  }

  lemma {:induction false} MarksOneMessage(cs: seq<Word>, k: nat, rest: seq<Word>)
    requires WellFormed(cs) && k < |cs|
    ensures Marks(cs[..k], cs[k..] + rest) == InSync(|cs| - 1 - k) + [Receipt(Message, cs)] + Marks([], rest)
    ensures Framed([], rest) ==> Framed(cs[..k], cs[k..] + rest)
    decreases |cs| - k
  {
    hide Preamble, FrameLength;
    var clears := cs[k..] + rest;
    assert clears[0] == cs[k] && clears[1..] == cs[k + 1..] + rest;
    assert cs[..k] + [cs[k]] == cs[..k + 1];
    assert k >= 1 ==> cs[..k + 1][1] == cs[1];
    if k + 1 == |cs| {
      assert cs[..k + 1] == cs && cs[k + 1..] + rest == rest;
    } else {
      MarksOneMessage(cs, k + 1, rest);
      assert InSync(|cs| - 1 - k) == [IN_SYNC] + InSync(|cs| - 2 - k);
    }
  }

  lemma {:induction false} MarksMessages(prev: Word, msgs: seq<seq<Word>>)
    requires forall i :: 0 <= i < |msgs| ==> msgs[i] != []
    requires forall i :: 0 <= i < |msgs| ==> WellFormed(msgs[i])
    ensures Marks([], Clears(prev, Flatten(msgs))) == MessageMarks(prev, msgs)
    ensures Framed([], Clears(prev, Flatten(msgs)))
    decreases |msgs|
  {
    hide WellFormed, OnAir, Clear;
    if msgs != [] {
      var m, rest := msgs[0], msgs[1..];
      ClearsConcat(prev, m, Flatten(rest));
      ClearsKeepMessage(prev, m);
      var cs := Clears(prev, m);
      MarksMessages(LastAir(prev, m), rest);
      MarksOneMessage(cs, 0, Clears(LastAir(prev, m), Flatten(rest)));
      assert cs[..0] == [] && cs[0..] == cs;
    }
  }

  lemma WellFormedNotEmpty(msgs: seq<seq<Word>>)
    requires forall i :: 0 <= i < |msgs| ==> WellFormed(msgs[i])
    ensures forall i :: 0 <= i < |msgs| ==> msgs[i] != []
  {}

  // ---------- bytes ----------

  predicate AllSix(symbols: seq<Word>) {
    forall i :: 0 <= i < |symbols| ==> Low6(symbols[i]) == symbols[i]
  }

  lemma InsideIsSix(r: Word, k: bv6, v: Word)
    requires k < 32 && v == InsideBy(r, k)
    ensures Low6(v) == v
  {
    assert Low6(v).bits == v.bits;
  }

  lemma StraddleIsSix(r: Word, r2: Word, k: bv6, v: Word)
    requires k <= 5 && v == StraddleBy(r, r2, k)
    ensures Low6(v) == v
  {
    assert Low6(v).bits == v.bits;
  }

  lemma {:induction false} SymbolsAreSix(rs: seq<Word>, o: int)
    requires -5 <= o <= 24
    ensures AllSix(Symbols(rs, o))
    decreases |rs|, o + 6
  {
    hide InsideBy, StraddleBy, Low6, Count, Next;
    if rs != [] {
      if o > 0 {
        InsideIsSix(rs[0], Count(o), Inside(rs[0], o));
        SymbolsAreSix(rs, o - 6);
      } else {
        CountsLow(-o);
        StraddleIsSix(rs[0], Next(rs), Count(-o), Straddle(rs[0], Next(rs), -o));
        SymbolsAreSix(rs[1..], o + 24);
      }
    }
  }

  lemma {:induction false} ReceiveTags(s: Decoder, symbols: seq<Word>)
    requires InBounds(s) && AllSix(symbols)
    ensures Receive(s, Tags(symbols)) == Hear(s, symbols)
    decreases |symbols|
  {
    hide Absorb, Tagged, Tag, ReverseBits, Low6, Report;
    if symbols != [] {
      TagRoundTrip(symbols[0]);
      assert Tags(symbols)[1..] == Tags(symbols[1..]);
      ReceiveTags(Absorb(s, symbols[0]).0, symbols[1..]);
    }
  }

  /** The bytes that carry the data tag. */
  function OnlyTagged(bytes: seq<Word>): seq<Word>
    decreases |bytes|
  {
    if bytes == [] then []
    else if Tagged(bytes[0]) then [bytes[0]] + OnlyTagged(bytes[1..])
    else OnlyTagged(bytes[1..])
  }

  /** The receipts other than "skipped". */
  function Heeded(receipts: seq<Receipt>): seq<Receipt>
    decreases |receipts|
  {
    if receipts == [] then []
    else if receipts[0].status == Skip then Heeded(receipts[1..])
    else [receipts[0]] + Heeded(receipts[1..])
  }

  lemma AbsorbNeverSkips(s: Decoder, sym: Word)
    requires InBounds(s)
    ensures Absorb(s, sym).1 != Skip
  {
    hide Merge, Window, Preamble, ParityOk, Upright, FrameLength, Shl, Acquire;
  }

  /** Bytes with a wrong tag, wherever they fall, change nothing. */
  lemma {:induction false} UntaggedBytesIgnored(s: Decoder, bytes: seq<Word>)
    requires InBounds(s)
    ensures Receive(s, bytes).0 == Receive(s, OnlyTagged(bytes)).0
    ensures Heeded(Receive(s, bytes).1) == Receive(s, OnlyTagged(bytes)).1
    decreases |bytes|
  {
    hide Absorb, Tagged, ReverseBits;
    if bytes != [] {
      var (t, status) := Step(s, bytes[0]);
      UntaggedBytesIgnored(t, bytes[1..]);
      if Tagged(bytes[0]) {
        AbsorbNeverSkips(s, ReverseBits(bytes[0]));
      }
    }
  }

  /** Round trip. From power-up, with any number of idle words first and listening from any bit of the
      first of them, with untagged bytes interleaved anywhere: each message is returned whole on the
      byte that carries its last bit, and nothing else is returned. */
  lemma TransportRoundTrip(init: Decoder, msgs: seq<seq<Word>>, idle: nat, o: int, bytes: seq<Word>)
    requires IsInit(init)
    requires msgs != [] && forall i :: 0 <= i < |msgs| ==> WellFormed(msgs[i])
    requires -5 <= o <= 24 && (idle == 0 ==> o == 24)
    requires OnlyTagged(bytes) == Tags(Symbols(Idle(idle) + Airs(ZERO, Flatten(msgs)), o))
    ensures forall i :: 0 <= i < |msgs| ==> msgs[i] != []
    ensures Heeded(Receive(init, bytes).1) == Due(false, Silence(idle) + MessageMarks(ZERO, msgs), o)
  {
    hide WellFormed, OnAir, Shr, Symbols, Tags, Receive, Hear, Due, Silence, Idle, Airs, Clears, Marks, MessageMarks;
    var data := Flatten(msgs);
    WellFormedNotEmpty(msgs);
    assert data == msgs[0] + Flatten(msgs[1..]);
    MarksMessages(ZERO, msgs);
    StartsListening(init, data, idle, o);
    IdleStream(init, idle, data, o);
    SymbolsAreSix(Idle(idle) + Airs(ZERO, data), o);
    ReceiveTags(init, Symbols(Idle(idle) + Airs(ZERO, data), o));
    UntaggedBytesIgnored(init, bytes);
  }

  lemma StartsListening(init: Decoder, data: seq<Word>, idle: nat, o: int)
    requires IsInit(init) && data != [] && Framed([], Clears(ZERO, data))
    requires -5 <= o <= 24 && (idle == 0 ==> o == 24)
    ensures if idle == 0 then Listening(init, OnAir(ZERO, data[0]), o) else Listening(init, ZERO, o)
  {
    hide OnAir, Shr, StartsWithZero, Preamble, Clear;
    ShrZero(o + 6);
    FirstFramed(data);
    FirstWord(data[0]);
    HeadersSurvive(ZERO, data[0]);
    ShrThirty(OnAir(ZERO, data[0]));
  }

  lemma ShrThirty(r: Word)
    requires StartsWithZero(r)
    ensures Shr(r, 30) == ZERO
  {
    assert Count(30) == 30;
    hide Count;
    assert Shr(r, 30).bits == 0;
  }

  /** The reassembly bound over whole runs: after any bytes at all there is room for the next word. */
  lemma {:induction false} RunKeepsValid(s: Decoder, bytes: seq<Word>)
    requires Valid(s)
    ensures Valid(Receive(s, bytes).0)
    ensures Receive(s, bytes).0.bufindex < RTCM_WORDS_MAX
    decreases |bytes|
  {
    hide Step, FrameLength;
    if bytes != [] {
      StepKeepsValid(s, bytes[0]);
      RunKeepsValid(Step(s, bytes[0]).0, bytes[1..]);
    }
  }

  // ---------- what the round trip means for the messages ----------

  /** The messages among the receipts. */
  function Messages(receipts: seq<Receipt>): seq<seq<Word>>
    decreases |receipts|
  {
    if receipts == [] then []
    else (if receipts[0].status == Message then [receipts[0].words] else []) + Messages(receipts[1..])
  }

  /** Two messages with the same data bits in every word. */
  predicate SameData(a: seq<Word>, b: seq<Word>) {
    |a| == |b| && forall i :: 0 <= i < |a| ==> Data(a[i]) == Data(b[i])
  }

  lemma {:induction false} DueMessages(locked: bool, marks: seq<Receipt>, o: int)
    requires -5 <= o <= 24
    ensures Messages(Due(locked, marks, o)) == Messages(marks)
    decreases |marks|, o + 6
  {
    if marks != [] {
      if o > 0 {
        DueMessages(locked, marks, o - 6);
        assert Due(locked, marks, o)[1..] == Due(locked, marks, o - 6);
      } else {
        DueMessages(marks[0].status != NoSync, marks[1..], o + 24);
        assert Due(locked, marks, o)[1..] == Due(marks[0].status != NoSync, marks[1..], o + 24);
      }
    }
  }

  lemma {:induction false} MessagesConcat(a: seq<Receipt>, b: seq<Receipt>)
    ensures Messages(a + b) == Messages(a) + Messages(b)
    decreases |a|
  {
    if a == [] {
      assert a + b == b;
    } else {
      assert (a + b)[1..] == a[1..] + b;
      MessagesConcat(a[1..], b);
    }
  }

  lemma {:induction false} NoMessages(n: nat)
    ensures Messages(Silence(n)) == [] && Messages(InSync(n)) == []
  {
    if n > 0 {
      NoMessages(n - 1);
      assert Silence(n)[1..] == Silence(n - 1) && InSync(n)[1..] == InSync(n - 1);
    }
  }

  lemma {:induction false} ClearsSameData(prev: Word, data: seq<Word>)
    ensures SameData(Clears(prev, data), data)
    decreases |data|
  {
    hide OnAir, Clear, Data;
    if data != [] {
      ClearKeepsData(prev, data[0]);
      ClearsSameData(OnAir(prev, data[0]), data[1..]);
    }
  }

  lemma {:induction false} MarkedMessages(prev: Word, msgs: seq<seq<Word>>)
    requires forall i :: 0 <= i < |msgs| ==> msgs[i] != []
    ensures var got := Messages(MessageMarks(prev, msgs));
            |got| == |msgs| && forall i :: 0 <= i < |msgs| ==> SameData(got[i], msgs[i])
    decreases |msgs|
  {
    hide SameData, Clears, LastAir;
    if msgs != [] {
      var m := msgs[0];
      var head, last, tail := InSync(|m| - 1), [Receipt(Message, Clears(prev, m))], MessageMarks(LastAir(prev, m), msgs[1..]);
      MessagesConcat(head + last, tail);
      MessagesConcat(head, last);
      NoMessages(|m| - 1);
      ClearsSameData(prev, m);
      MarkedMessages(LastAir(prev, m), msgs[1..]);
      assert Messages(last) == [Clears(prev, m)];
    }
  }

  /** The decoder returns the messages sent, all of them, in order, with all their data bits. */
  lemma MessagesRecovered(init: Decoder, msgs: seq<seq<Word>>, idle: nat, o: int, bytes: seq<Word>)
    requires IsInit(init)
    requires msgs != [] && forall i :: 0 <= i < |msgs| ==> WellFormed(msgs[i])
    requires -5 <= o <= 24 && (idle == 0 ==> o == 24)
    requires OnlyTagged(bytes) == Tags(Symbols(Idle(idle) + Airs(ZERO, Flatten(msgs)), o))
    ensures var got := Messages(Heeded(Receive(init, bytes).1));
            |got| == |msgs| && forall i :: 0 <= i < |msgs| ==> SameData(got[i], msgs[i])
  {
    hide WellFormed, SameData, Symbols, Tags, Receive, Due, Airs, MessageMarks, Silence, IsInit, OnlyTagged, Flatten, Idle;
    TransportRoundTrip(init, msgs, idle, o, bytes);
    var marks := MessageMarks(ZERO, msgs);
    DueMessages(false, Silence(idle) + marks, o);
    MessagesConcat(Silence(idle), marks);
    NoMessages(idle);
    MarkedMessages(ZERO, msgs);
  }

  // ---------- damage ----------

  lemma InvertedXor(r: Word, e: Word)
    requires SmallError(e)
    ensures Inverted(Xor(r, e)) == Inverted(r)
  {
    hide OneBit, TwoBits, ThreeBits;
  }

  lemma InvertXor(r: Word, e: Word)
    ensures Invert(Xor(r, e)) == Xor(Invert(r), e)
  {
    assert Invert(Xor(r, e)).bits == Xor(Invert(r), e).bits;
  }

  /** Error detection in a locked decoder. `r` is a sound word as sent, inverted or not, `e` an error of
      one to three bits in it, the two bits carried from the word before intact: on the last bit of the
      damaged word the decoder drops lock and stores nothing; the register keeps what it has read. */
  lemma DamagedWordDropsLock(s: Decoder, r: Word, e: Word, r2: Word, o: int, words: seq<Word>)
    requires -5 <= o <= 0 && Following(s, Xor(r, e), o, words)
    requires ParityOk(Upright(r)) && SmallError(e)
    ensures
      var (t, status) := Absorb(s, Straddle(Xor(r, e), r2, -o));
      status == Sync && !t.locked && t.buf == s.buf && t.bufindex == s.bufindex && t.word == Upright(Xor(r, e))
  {
    hide Straddle, Keep, Merge, Inverted, Invert, ParityOk, Preamble, FrameLength, Shl, SmallError, Xor;
    InvertedXor(r, e);
    MergeStraddle(Xor(r, e), r2, o);
    InvertXor(r, e);
    ErrorDetected(Upright(r), e);
  }
}
