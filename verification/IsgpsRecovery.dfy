/** How the decoder comes to lock without idle line before: when it starts to listen in the middle of a
    transmission, or has lost lock on a damaged word. */
module IsgpsRecovery {
  import opened Bytes
  import opened IsgpsWord
  import opened Isgps
  import opened IsgpsTransport
  import opened IsgpsRoundTrip

  // ---------- the register in the middle of a transmission ----------

  /** Not locked, and the register holds, in its low bits, all of `r` but the low `o + 6` bits; what is above
      may be anything. */
  ghost predicate Tuned(s: Decoder, r: Word, o: int)
    requires -6 < o <= 24
  {
    InBounds(s) && !s.locked && Shl(s.word, o + 6) == Keep(r, o + 6)
  }

  /** A symbol that brings no lock is taken into the register. */
  lemma PassSymbol(s: Decoder, x: Word)
    requires InBounds(s) && !s.locked && NoLock(s.word, x)
    ensures var (t, status) := Absorb(s, x); status == NoSync && InBounds(t) && !t.locked && t.word == Window(s.word, x, 0)
  {
    hide Window, Locks, NoLock, Track;
    NoLockPointThen(s.word, x, 5);
  }

  lemma TunedInsideBy(w: Word, r: Word, o: bv6, o6: bv6, x: Word, v: Word)
    requires 0 < o <= 24 && o6 == o + 6 && ShlBy(w, o6) == KeepBy(r, o6) && x == InsideBy(r, o) && v == WindowBy(w, x, 0)
    ensures ShlBy(v, o) == KeepBy(r, o)
  {
    assert ShlBy(v, o).bits == KeepBy(r, o).bits;
  }

  lemma TunedInside(s: Decoder, r: Word, o: int)
    requires 0 < o <= 24 && Tuned(s, r, o) && NoLock(s.word, Inside(r, o))
    ensures var (t, status) := Absorb(s, Inside(r, o));
            status == NoSync && Tuned(t, r, o - 6) && t.word == Window(s.word, Inside(r, o), 0)
  {
    CountSix(o);
    assert Count(0) == 0;
    hide Count, ShlBy, KeepBy, InsideBy, WindowBy, NoLock, Absorb;
    var x := Inside(r, o);
    PassSymbol(s, x);
    TunedInsideBy(s.word, r, Count(o), Count(o + 6), x, Window(s.word, x, 0));
  }

  lemma TunedWindowBy(w: Word, r: Word, r2: Word, q: bv6, n: bv6, x: Word)
    requires q <= 5 && n == 6 - q && ShlBy(w, n) == KeepBy(r, n) && x == StraddleBy(r, r2, q)
    ensures WindowBy(w, x, q) == r
  {
    assert WindowBy(w, x, q).bits == r.bits;
  }

  lemma TunedWindow(s: Decoder, r: Word, r2: Word, o: int)
    requires -5 <= o <= 0 && Tuned(s, r, o)
    ensures Window(s.word, Straddle(r, r2, -o), -o) == r
  {
    CountsLow(-o);
    hide Count, ShlBy, KeepBy, StraddleBy, WindowBy;
    TunedWindowBy(s.word, r, r2, Count(-o), Count(o + 6), Straddle(r, r2, -o));
  }

  lemma {:induction false} LockPointThen(w: Word, x: Word, k: nat, j: nat)
    requires j <= k <= 5 && Locks(Window(w, x, j)) && forall i :: j < i <= k ==> !Locks(Window(w, x, i))
    ensures LockPoint(w, x, k) == j
  {
    hide Window, Locks;
    if j < k {
      LockPointThen(w, x, k - 1, j);
    }
  }

  /** No window before the last bit of `r` shows a sound first word. */
  predicate LocksLate(w: Word, x: Word, q: nat)
    requires q <= 5
  {
    forall k :: q < k <= 5 ==> !Locks(Window(w, x, k))
  }

  /** Lock comes with the last bit of a first word that is sent the right way round. */
  lemma TunedLock(s: Decoder, r: Word, r2: Word, o: int)
    requires -5 <= o <= 0 && Tuned(s, r, o) && LocksLate(s.word, Straddle(r, r2, -o), -o)
    requires Preamble(r) && ParityOk(r) && !Inverted(r) && Carries(r, r2)
    ensures var (t, status) := Absorb(s, Straddle(r, r2, -o)); status == Sync && Following(t, r2, o + 24, [r])
  {
    hide Window, Straddle, Keep, Merge, Shl, Inverted, ParityOk, Preamble, FrameLength, Carries, SameTail;
    var x := Straddle(r, r2, -o);
    TunedWindow(s, r, r2, o);
    LockPointThen(s.word, x, 5, -o);
    MergeTwice(s.word, x, -o);
    SameTailReflexive(r);
    MergeRest(r, r2, r, o);
    assert s.buf[0 := r][..1] == [r];
  }

  // ---------- words passed over ----------

  /** The last bit in the register is the last of `r` received, where one bit more is still to come. */
  predicate LastBit(w: Word, r: Word) { w.bits & 1 == (r.bits >> 1) & 1 }

  /** Not locked, the register holding anything; but for the last bit of `r` but one, when it is the last
      received. */
  ghost predicate Hears(s: Decoder, r: Word, o: int) {
    InBounds(s) && !s.locked && (o == -5 ==> LastBit(s.word, r))
  }

  lemma LastBitBy(w: Word, r: Word, x: Word, v: Word, o: bv6)
    requires o == 1 && x == InsideBy(r, o) && v == WindowBy(w, x, 0)
    ensures LastBit(v, r)
  {}

  lemma PassInside(s: Decoder, r: Word, o: int)
    requires 0 < o <= 24 && Hears(s, r, o) && NoLock(s.word, Inside(r, o))
    ensures var (t, status) := Absorb(s, Inside(r, o));
            status == NoSync && Hears(t, r, o - 6) && t.word == Window(s.word, Inside(r, o), 0)
  {
    CountSix(o);
    assert Count(0) == 0 && Count(1) == 1;
    hide Count, InsideBy, WindowBy, NoLock, Absorb, LastBit;
    var x := Inside(r, o);
    PassSymbol(s, x);
    if o == 1 {
      LastBitBy(s.word, r, x, Window(s.word, x, 0), Count(1));
    }
  }

  lemma NextTunedBy(w: Word, r: Word, r2: Word, q: bv6, n: bv6, x: Word, v: Word)
    requires q <= 5 && n == 30 - q && Carries(r, r2) && (q == 5 ==> LastBit(w, r))
    requires x == StraddleBy(r, r2, q) && v == WindowBy(w, x, 0)
    ensures ShlBy(v, n) == KeepBy(r2, n)
  {
    assert ShlBy(v, n).bits == KeepBy(r2, n).bits;
  }

  lemma FiveIsFive(q: nat)
    requires q <= 5
    ensures Count(q) == 5 <==> q == 5
  {}

  /** Behind a word passed over, the register holds the beginning of the next. */
  lemma PassStraddle(s: Decoder, r: Word, r2: Word, o: int)
    requires -5 <= o <= 0 && Hears(s, r, o) && Carries(r, r2) && NoLock(s.word, Straddle(r, r2, -o))
    ensures var (t, status) := Absorb(s, Straddle(r, r2, -o));
            status == NoSync && Tuned(t, r2, o + 24) && Hears(t, r2, o + 24) && t.word == Window(s.word, Straddle(r, r2, -o), 0)
  {
    CountsLow(-o);
    FiveIsFive(-o);
    assert Count(0) == 0;
    hide Count, ShlBy, KeepBy, StraddleBy, WindowBy, NoLock, Absorb, LastBit, Carries;
    var x := Straddle(r, r2, -o);
    PassSymbol(s, x);
    NextTunedBy(s.word, r, r2, Count(-o), Count(o + 30), x, Window(s.word, x, 0));
  }

  /** Nothing that the register shows before the last bit of the word behind `n` others is a sound first
      word. */
  predicate NoChance(w: Word, rs: seq<Word>, n: nat, o: int)
    requires -5 <= o <= 24 && n < |rs|
    decreases n, o + 6
  {
    if o > 0 then
      NoLock(w, Inside(rs[0], o)) && NoChance(Window(w, Inside(rs[0], o), 0), rs, n, o - 6)
    else if n > 0 then
      NoLock(w, Straddle(rs[0], Next(rs), -o)) && NoChance(Window(w, Straddle(rs[0], Next(rs), -o), 0), rs[1..], n - 1, o + 24)
    else LocksLate(w, Straddle(rs[0], Next(rs), -o), -o)
  }

  /** D30 of the word: the data bits of the next are inverted if it is set. */
  predicate EndsInZero(w: Word) { w.bits & 1 == 0 }

  lemma AfterZero(prev: Word, data: Word)
    requires EndsInZero(prev)
    ensures OnAir(prev, data) == Clear(prev, data) && !Inverted(Clear(prev, data))
  {
    hide Odd, Pack, Mask25, Mask26, Mask27, Mask28, Mask29, Mask30, Join, WithCarry, SixBits, Invert, Inverted;
    var t := WithCarry(prev, data);
    PackIsSixBits(Odd(Mask25(t)), Odd(Mask26(t)), Odd(Mask27(t)), Odd(Mask28(t)), Odd(Mask29(t)), Odd(Mask30(t)));
    NotInvertedAfter(prev, data, ParityBits(t));
  }

  lemma NotInvertedAfter(prev: Word, data: Word, p: Word)
    requires SixBits(p) && EndsInZero(prev)
    ensures !Inverted(Join(WithCarry(prev, data), p))
  {}

  /** Behind a word that ends in a one, the preamble is sent inverted and does not show. */
  lemma PreambleHidden(prev: Word, data: Word)
    requires Preamble(data) && !EndsInZero(prev)
    ensures !Preamble(OnAir(prev, data))
  {
    hide Odd, Pack, Mask25, Mask26, Mask27, Mask28, Mask29, Mask30, Join, WithCarry, SixBits, Invert, Inverted, Preamble;
    var t := WithCarry(prev, data);
    PackIsSixBits(Odd(Mask25(t)), Odd(Mask26(t)), Odd(Mask27(t)), Odd(Mask28(t)), Odd(Mask29(t)), Odd(Mask30(t)));
    HiddenBy(prev, data, ParityBits(t));
  }

  lemma HiddenBy(prev: Word, data: Word, p: Word)
    requires SixBits(p) && !EndsInZero(prev) && Preamble(data)
    ensures var c := Join(WithCarry(prev, data), p); Inverted(c) && !Preamble(Invert(c))
  {}

  // ---------- locking behind other words ----------

  /** The decoder is ready for the word that comes next: it may still have to pass it over, or has all of
      it that has come. */
  ghost predicate Ready(s: Decoder, r: Word, o: int, first: bool)
    requires -6 < o <= 24
  {
    if first then Tuned(s, r, o) else Hears(s, r, o)
  }

  /** The first word of a message is stored on its last bit. */
  lemma JoinOneWord(s: Decoder, prev: Word, data: seq<Word>, o: int)
    requires -5 <= o <= 0 && data != [] && EndsInZero(prev) && Framed([], Clears(prev, data))
    requires Tuned(s, OnAir(prev, data[0]), o)
    requires LocksLate(s.word, Straddle(OnAir(prev, data[0]), Next(Airs(prev, data)), -o), -o)
    ensures
      var r := OnAir(prev, data[0]);
      var (t, status) := Absorb(s, Straddle(r, Next(Airs(prev, data)), -o));
      && Report(t, status) == IN_SYNC
      && Clear(prev, data[0]) == r
      && (|data| > 1 ==> Following(t, OnAir(r, data[1]), o + 24, [r]) && Framed([r], Clears(r, data[1..])))
  {
    hide OnAir, Clear, Straddle, Absorb, Keep, Preamble, ParityOk, Report, Inverted, Carries, Upright, Shl, LocksLate,
         Framed, Airs, Clears, EndsInZero, Next;
    var r2 := Next(Airs(prev, data));
    var r := OnAir(prev, data[0]);
    AfterZero(prev, data[0]);
    WordOnAir(prev, data[0]);
    NextCarries(prev, data);
    FirstOfStream(prev, data);
    TunedLock(s, r, r2, o);
    var (t, status) := Absorb(s, Straddle(r, r2, -o));
    ReportSync(t, status);
  }

  lemma FirstOfStream(prev: Word, data: seq<Word>)
    requires data != [] && Framed([], Clears(prev, data)) && OnAir(prev, data[0]) == Clear(prev, data[0])
    ensures Preamble(OnAir(prev, data[0]))
    ensures var r := OnAir(prev, data[0]);
            |data| > 1 ==> Next(Airs(prev, data)) == OnAir(r, data[1]) && Framed([r], Clears(r, data[1..]))
  {
    hide OnAir, Clear, Preamble, FrameLength;
    var r := OnAir(prev, data[0]);
    assert [] + [r] == [r];
  }

  /** A decoder that has all that was sent so far of the first word locks on its last bit. */
  lemma {:induction false} JoinStream(s: Decoder, prev: Word, data: seq<Word>, o: int)
    requires -5 <= o <= 24 && data != [] && EndsInZero(prev) && Framed([], Clears(prev, data))
    requires Tuned(s, OnAir(prev, data[0]), o) && NoChance(s.word, Airs(prev, data), 0, o)
    ensures Hear(s, Symbols(Airs(prev, data), o)).1 == Due(false, Marks([], Clears(prev, data)), o)
    decreases o + 6
  {
    hide OnAir, Clear, Inside, Straddle, Absorb, Preamble, FrameLength, Report, Next, Keep, Shl, NoLock, LocksLate, Window;
    var rs := Airs(prev, data);
    var r := OnAir(prev, data[0]);
    assert [] + [r] == [r];
    if o > 0 {
      TunedInside(s, r, o);
      var (t, status) := Absorb(s, Inside(r, o));
      ReportSync(t, status);
      JoinStream(t, prev, data, o - 6);
      assert Symbols(rs, o)[1..] == Symbols(rs, o - 6);
    } else {
      JoinOneWord(s, prev, data, o);
      var t := Absorb(s, Straddle(r, Next(rs), -o)).0;
      if |data| > 1 {
        FollowStream(t, r, data[1..], o + 24, [r]);
      }
      assert Symbols(rs, o)[1..] == Symbols(Airs(r, data[1..]), o + 24);
    }
  }

  /** The same behind other words, none of which need be heard from its beginning. */
  lemma {:induction false} LateStream(s: Decoder, prev: Word, junk: seq<Word>, data: seq<Word>, o: int)
    requires -5 <= o <= 24 && data != []
    requires Ready(s, OnAir(prev, (junk + data)[0]), o, junk == [])
    requires NoChance(s.word, Airs(prev, junk + data), |junk|, o)
    requires EndsInZero(LastAir(prev, junk)) && Framed([], Clears(LastAir(prev, junk), data))
    ensures Hear(s, Symbols(Airs(prev, junk + data), o)).1
            == Due(false, Silence(|junk|) + Marks([], Clears(LastAir(prev, junk), data)), o)
    decreases |junk|, o + 6
  {
    hide OnAir, Inside, Straddle, Absorb, Report, Marks, Clears, Framed, Next, Keep, Shl, LastBit, NoLock, LocksLate, Window,
         EndsInZero;
    var all := junk + data;
    var rs := Airs(prev, all);
    var marks := Marks([], Clears(LastAir(prev, junk), data));
    if junk == [] {
      assert all == data && Silence(0) + marks == marks;
      JoinStream(s, prev, data, o);
    } else {
      var r := OnAir(prev, all[0]);
      assert all[1..] == junk[1..] + data;
      assert (Silence(|junk|) + marks)[1..] == Silence(|junk| - 1) + marks;
      if o > 0 {
        PassInside(s, r, o);
        var (t, status) := Absorb(s, Inside(r, o));
        ReportSync(t, status);
        LateStream(t, prev, junk, data, o - 6);
        assert Symbols(rs, o)[1..] == Symbols(rs, o - 6);
      } else {
        NextIs(prev, all);
        NextCarries(prev, all);
        PassStraddle(s, r, Next(rs), o);
        var (t, status) := Absorb(s, Straddle(r, Next(rs), -o));
        ReportSync(t, status);
        LateStream(t, r, junk[1..], data, o + 24);
        assert Symbols(rs, o)[1..] == Symbols(rs[1..], o + 24);
      }
    }
  }

  lemma NextIs(prev: Word, data: seq<Word>)
    requires |data| > 1
    ensures Next(Airs(prev, data)) == OnAir(OnAir(prev, data[0]), data[1..][0])
    ensures Airs(prev, data)[1..] == Airs(OnAir(prev, data[0]), data[1..])
  {
    hide OnAir;
  }

  // ---------- messages ----------

  lemma MessagesDue(prev: Word, junk: seq<Word>, msgs: seq<seq<Word>>, o: int, received: seq<Receipt>)
    requires -5 <= o <= 24 && forall i :: 0 <= i < |msgs| ==> msgs[i] != []
    requires received == Due(false, Silence(|junk|) + MessageMarks(LastAir(prev, junk), msgs), o)
    ensures var got := Messages(received); |got| == |msgs| && forall i :: 0 <= i < |msgs| ==> SameData(got[i], msgs[i])
  {
    hide SameData, Due, MessageMarks, Silence, LastAir;
    var marks := MessageMarks(LastAir(prev, junk), msgs);
    DueMessages(false, Silence(|junk|) + marks, o);
    MessagesConcat(Silence(|junk|), marks);
    NoMessages(|junk|);
    MarkedMessages(LastAir(prev, junk), msgs);
  }

  /** Listening from the middle of a transmission. The decoder has no lock and comes in at any bit of any
      word; `junk` is what is sent until the first message that follows a word ending in a zero. If nothing
      on the way looks like a sound first word, that message and all behind it are returned, each whole on
      the byte of its last bit, with all their data bits and nothing else. */
  lemma LateMessages(s: Decoder, prev: Word, junk: seq<Word>, msgs: seq<seq<Word>>, o: int, bytes: seq<Word>)
    requires -5 <= o <= 24 && msgs != [] && forall i :: 0 <= i < |msgs| ==> WellFormed(msgs[i])
    requires var rs := Airs(prev, junk + Flatten(msgs));
             && OnlyTagged(bytes) == Tags(Symbols(rs, o))
             && rs != [] && Ready(s, rs[0], o, junk == [])
             && |junk| < |rs| && NoChance(s.word, rs, |junk|, o)
    requires EndsInZero(LastAir(prev, junk))
    ensures forall i :: 0 <= i < |msgs| ==> msgs[i] != []
    ensures var received := Heeded(Receive(s, bytes).1);
            && received == Due(false, Silence(|junk|) + MessageMarks(LastAir(prev, junk), msgs), o)
            && |Messages(received)| == |msgs| && forall i :: 0 <= i < |msgs| ==> SameData(Messages(received)[i], msgs[i])
  {
    hide WellFormed, OnAir, Symbols, Tags, Receive, Hear, Due, Silence, Clears, Marks, MessageMarks, SameData, NoChance,
         EndsInZero, Tuned, Hears, Framed, LastAir, OnlyTagged, Messages;
    var data := Flatten(msgs);
    var last := LastAir(prev, junk);
    WellFormedNotEmpty(msgs);
    assert data == msgs[0] + Flatten(msgs[1..]);
    MarksMessages(last, msgs);
    HearsUnlocked(s, Airs(prev, junk + data)[0], o, junk == []);
    LateStream(s, prev, junk, data, o);
    SymbolsAreSix(Airs(prev, junk + data), o);
    ReceiveTags(s, Symbols(Airs(prev, junk + data), o));
    UntaggedBytesIgnored(s, bytes);
    MessagesDue(prev, junk, msgs, o, Heeded(Receive(s, bytes).1));
  }

  lemma HearsUnlocked(s: Decoder, r: Word, o: int, first: bool)
    requires -5 <= o <= 24 && Ready(s, r, o, first)
    ensures InBounds(s)
  {}

  // ---------- recovery after damage ----------

  /** The two bits that the next word carries. */
  predicate TailIntact(e: Word) { e.bits & 3 == 0 }

  lemma TailXor(r: Word, e: Word)
    requires TailIntact(e)
    ensures SameTail(Xor(r, e), r)
  {}

  lemma TailTuned(w: Word, r: Word, v: Word, r2: Word)
    requires SameTail(w, r) && SameTail(w, v) && Carries(r, r2)
    ensures Shl(v, 30) == Keep(r2, 30)
  {
    assert Count(30) == 30;
    hide Count;
    assert Shl(v, 30).bits == Keep(r2, 30).bits;
  }

  /** What a damaged word leaves: a decoder without lock whose register holds the two bits carried into the
      next word, if they are intact and the symbol brought no bits behind them. */
  lemma ReadyAfterDamage(s: Decoder, r: Word, e: Word, r2: Word, o: int, words: seq<Word>, first: bool)
    requires -5 <= o <= 0 && Following(s, Xor(r, e), o, words) && ParityOk(Upright(r)) && SmallError(e)
    requires Carries(r, r2) && (first ==> o == 0 && TailIntact(e))
    ensures var (t, status) := Absorb(s, Straddle(Xor(r, e), r2, -o));
            status == Sync && Ready(t, r2, o + 24, first) && t.word == Upright(Xor(r, e))
  {
    hide Xor, SmallError, ParityOk, Upright, Straddle, Absorb, Shl, Keep, TailIntact, Carries, SameTail;
    DamagedWordDropsLock(s, r, e, r2, o, words);
    if first {
      TailXor(r, e);
      UprightUndoes(Xor(r, e));
      TailTuned(Xor(r, e), r, Upright(Xor(r, e)), r2);
    }
  }

  /** Recovery. A locked decoder meets a sound word with one to three flipped bits. It stores nothing, drops
      lock, and returns every message from the first that follows a word ending in a zero: at once, if
      the symbols end where the words do and the two carried bits are intact; else from the first message with
      a word before it. */
  lemma DamageRecovered(s: Decoder, r: Word, e: Word, words: seq<Word>, junk: seq<Word>, msgs: seq<seq<Word>>, o: int,
                        bytes: seq<Word>)
    requires -5 <= o <= 0 && Following(s, Xor(r, e), o, words) && ParityOk(Upright(r)) && SmallError(e)
    requires msgs != [] && forall i :: 0 <= i < |msgs| ==> WellFormed(msgs[i])
    requires junk == [] ==> o == 0 && TailIntact(e)
    requires var rs := Airs(r, junk + Flatten(msgs));
             && |junk| < |rs| && NoChance(Upright(Xor(r, e)), rs, |junk|, o + 24)
             && OnlyTagged(bytes) == Tags([Straddle(Xor(r, e), rs[0], -o)] + Symbols(rs, o + 24))
    requires EndsInZero(LastAir(r, junk))
    ensures forall i :: 0 <= i < |msgs| ==> msgs[i] != []
    ensures var received := Heeded(Receive(s, bytes).1);
            && received == [IN_SYNC] + Due(false, Silence(|junk|) + MessageMarks(LastAir(r, junk), msgs), o + 24)
            && |Messages(received)| == |msgs| && forall i :: 0 <= i < |msgs| ==> SameData(Messages(received)[i], msgs[i])
  {
    hide WellFormed, OnAir, Symbols, Tags, Receive, Due, Silence, Clears, Marks, MessageMarks, SameData, NoChance, Xor,
         EndsInZero, Tuned, Hears, Framed, LastAir, OnlyTagged, Upright, ParityOk, SmallError, Keep, Straddle, Absorb,
         TailIntact, Report, Carries, AllSix;
    var data := Flatten(msgs);
    var last := LastAir(r, junk);
    WellFormedNotEmpty(msgs);
    assert data == msgs[0] + Flatten(msgs[1..]);
    MarksMessages(last, msgs);
    var all := junk + data;
    var rs := Airs(r, all);
    OnAirCarries(r, all[0]);
    ReadyAfterDamage(s, r, e, rs[0], o, words, junk == []);
    var first := Straddle(Xor(r, e), rs[0], -o);
    var (t, status) := Absorb(s, first);
    ReportSync(t, status);
    LateStream(t, r, junk, data, o + 24);
    var symbols := [first] + Symbols(rs, o + 24);
    assert symbols[1..] == Symbols(rs, o + 24);
    SymbolsAreSix(rs, o + 24);
    FirstIsSix(Xor(r, e), rs[0], o, Symbols(rs, o + 24));
    ReceiveTags(s, symbols);
    UntaggedBytesIgnored(s, bytes);
    var due := Due(false, Silence(|junk|) + MessageMarks(last, msgs), o + 24);
    MessagesDue(r, junk, msgs, o + 24, due);
    MessagesConcat([IN_SYNC], due);
  }

  lemma FirstIsSix(r: Word, r2: Word, o: int, symbols: seq<Word>)
    requires -5 <= o <= 0 && AllSix(symbols)
    ensures AllSix([Straddle(r, r2, -o)] + symbols)
  {
    CountsLow(-o);
    hide Count, StraddleBy, Low6;
    StraddleIsSix(r, r2, Count(-o), Straddle(r, r2, -o));
  }

  // ---------- idle line behind a message ----------

  lemma NothingMerged(x: Word, r2: Word, q: bv6)
    requires q <= 5 && x == StraddleBy(ZERO, r2, q)
    ensures MergeBelow(ZERO, x, q) == ZERO
  {
    assert MergeBelow(ZERO, x, q).bits == 0;
  }

  lemma KeepZero(n: nat)
    requires n < 32
    ensures Keep(ZERO, n) == ZERO
  {
    hide Count;
    assert Keep(ZERO, n).bits == 0;
  }

  lemma ZeroIsSound()
    ensures ParityOk(ZERO) && Upright(ZERO) == ZERO && !Preamble(ZERO)
  {
    assert ParityBits(ZERO).bits == 0;
  }

  /** A locked decoder between messages reads an idle word as a sound one without a preamble: it keeps its
      lock, and its offset too, so that it takes the next symbol for the last of the word again. What the symbol
      brought of the word behind is lost. */
  lemma IdleWaits(s: Decoder, r2: Word, o: int)
    requires -5 <= o <= 0 && Following(s, ZERO, o, [])
    ensures var (t, status) := Absorb(s, Straddle(ZERO, r2, -o)); status == NoSync && Following(t, ZERO, o, [])
  {
    CountsLow(-o);
    KeepZero(o + 6);
    ZeroIsSound();
    hide Count, Keep, StraddleBy, MergeBelow, ParityOk, Preamble, Upright;
    NothingMerged(Straddle(ZERO, r2, -o), r2, Count(-o));
  }

  lemma FirstSymbol(r: Word, v: Word, k: bv6)
    requires Preamble(r) && StartsWithZero(r) && k == 24 && v == InsideBy(r, k)
    ensures v == Seal(0x19) && v == ShrBy(r, k) && MergeBelow(ZERO, v, 0) == v
  {
    assert v.bits == 0x19 && ShrBy(r, k).bits == 0x19;
  }

  lemma NotSound(v: Word)
    requires v == Seal(0x19)
    ensures !ParityOk(Upright(v)) && Upright(v) == v
  {
    assert ParityBits(v).bits == 0;
  }

  /** The first symbol of a message drops the lock of a decoder that waits, but nothing of it is lost if
      symbols end where words do. */
  lemma WaitEnds(s: Decoder, r: Word)
    requires Following(s, ZERO, 0, []) && Preamble(r) && StartsWithZero(r)
    ensures var (t, status) := Absorb(s, Inside(r, 24)); status == Sync && Listening(t, r, 18)
  {
    assert Count(24) == 24 && Count(0) == 0;
    KeepZero(6);
    hide Count, Keep, InsideBy, ShrBy, MergeBelow, ParityOk, Preamble, Upright, StartsWithZero;
    FirstSymbol(r, Inside(r, 24), Count(24));
    NotSound(Inside(r, 24));
  }

  lemma ZeroInside(o: nat)
    requires o <= 24
    ensures Inside(ZERO, o) == ZERO && Straddle(ZERO, ZERO, 0) == ZERO
  {
    hide Count;
    assert Inside(ZERO, o).bits == 0;
    assert Straddle(ZERO, ZERO, 0).bits == 0;
  }

  /** The first of the words after `n` idle ones. */
  lemma IdleHead(n: nat, airs: seq<Word>)
    requires n > 0
    ensures (Idle(n) + airs)[0] == ZERO && (Idle(n) + airs)[1..] == Idle(n - 1) + airs
  {}

  /** How many symbols are left of `n` idle words, the first of which goes on at `o`. */
  function IdleSymbols(n: nat, o: nat): nat { if n == 0 then 0 else 5 * (n - 1) + o / 6 + 1 }

  lemma AfterWait(s: Decoder, data: seq<Word>)
    requires Following(s, ZERO, 0, []) && data != [] && Framed([], Clears(ZERO, data))
    ensures Hear(s, Symbols(Airs(ZERO, data), 24)).1 == [IN_SYNC] + Due(false, Marks([], Clears(ZERO, data)), 18)
  {
    hide OnAir, Inside, Straddle, Absorb, Report, Marks, Clears, Framed, Keep, Shr, Due, StartsWithZero, Preamble, Clear;
    var airs := Airs(ZERO, data);
    FirstAir(ZERO, data);
    FirstFramed(data);
    FirstWord(data[0]);
    HeadersSurvive(ZERO, data[0]);
    WaitEnds(s, airs[0]);
    var (t, status) := Absorb(s, Inside(airs[0], 24));
    ReportSync(t, status);
    ListenStream(t, data, 18);
    assert Symbols(airs, 24)[1..] == Symbols(airs, 18);
  }

  lemma IdleStep(rs: seq<Word>, o: nat)
    requires o <= 24 && rs != [] && rs[0] == ZERO
    ensures Symbols(rs, o) == [ZERO] + (if o > 0 then Symbols(rs, o - 6) else Symbols(rs[1..], 24))
  {
    hide Inside, Straddle, Next;
    ZeroInside(o);
    ZeroInside(0);
    StraddleZero(ZERO, Next(rs));
  }

  lemma {:induction false} WaitStream(s: Decoder, n: nat, data: seq<Word>, o: nat)
    requires o <= 24 && o % 6 == 0 && (n == 0 ==> o == 24)
    requires Following(s, ZERO, 0, []) && data != [] && Framed([], Clears(ZERO, data))
    ensures Hear(s, Symbols(Idle(n) + Airs(ZERO, data), o)).1
            == Silence(IdleSymbols(n, o)) + ([IN_SYNC] + Due(false, Marks([], Clears(ZERO, data)), 18))
    decreases n, o
  {
    hide Inside, Straddle, Absorb, Report, Marks, Clears, Framed, Keep, Due, Idle, Airs, Symbols;
    var rs := Idle(n) + Airs(ZERO, data);
    if n == 0 {
      assert rs == Airs(ZERO, data);
      AfterWait(s, data);
    } else {
      IdleHead(n, Airs(ZERO, data));
      ZeroInside(0);
      IdleWaits(s, ZERO, 0);
      var (t, status) := Absorb(s, ZERO);
      ReportSync(t, status);
      IdleStep(rs, o);
      if o > 0 {
        WaitStream(t, n, data, o - 6);
      } else {
        WaitStream(t, n - 1, data, 24);
      }
    }
  }

  /** What a decoder reports from a message behind idle line: it keeps its lock through the first idle word,
      finds no preamble on any other idle symbol, loses lock on the first symbol of the message and finds it again
      on the last bit of the first word. */
  function AfterIdle(n: nat, marks: seq<Receipt>): seq<Receipt>
    requires n > 0
  {
    InSync(4) + Silence(IdleSymbols(n, 0)) + [IN_SYNC] + Due(false, marks, 18)
  }

  lemma {:induction false} IdleBegins(s: Decoder, n: nat, data: seq<Word>, o: nat)
    requires o <= 24 && o % 6 == 0 && n > 0
    requires Following(s, ZERO, o, []) && data != [] && Framed([], Clears(ZERO, data))
    ensures Hear(s, Symbols(Idle(n) + Airs(ZERO, data), o)).1
            == InSync(o / 6) + (Silence(IdleSymbols(n, 0)) + ([IN_SYNC] + Due(false, Marks([], Clears(ZERO, data)), 18)))
    decreases o
  {
    hide Inside, Straddle, Absorb, Report, Marks, Clears, Framed, Keep, Due, Idle, Airs, Symbols, Silence;
    var rs := Idle(n) + Airs(ZERO, data);
    if o == 0 {
      WaitStream(s, n, data, 0);
    } else {
      IdleHead(n, Airs(ZERO, data));
      ZeroInside(o);
      FollowInside(s, ZERO, o, []);
      var (t, status) := Absorb(s, ZERO);
      ReportSync(t, status);
      IdleStep(rs, o);
      IdleBegins(t, n, data, o - 6);
    }
  }

  /** Idle line behind a message. The symbols end where words do, and the message's last word ends in two
      zeros: the message is returned on its last symbol, and all that follow `n` idle words are returned in
      their turn. */
  lemma IdleBetween(s: Decoder, r: Word, words: seq<Word>, n: nat, msgs: seq<seq<Word>>, bytes: seq<Word>)
    requires Following(s, r, 0, words) && ParityOk(Upright(r)) && TailIntact(r)
    requires words != [] && Complete(words + [Upright(r)]) && !Complete(words)
    requires n > 0 && msgs != [] && forall i :: 0 <= i < |msgs| ==> WellFormed(msgs[i])
    requires OnlyTagged(bytes) == Tags([Inside(r, 0)] + Symbols(Idle(n) + Airs(ZERO, Flatten(msgs)), 24))
    ensures forall i :: 0 <= i < |msgs| ==> msgs[i] != []
    ensures Heeded(Receive(s, bytes).1)
            == [Receipt(Message, words + [Upright(r)])] + AfterIdle(n, MessageMarks(ZERO, msgs))
  {
    hide WellFormed, Symbols, Tags, Receive, Hear, Clears, Marks, MessageMarks, Framed, OnlyTagged, Following, Inside,
         Complete, AfterIdle, AllSix, Idle, Straddle, Upright, TailIntact, ParityOk;
    var data := Flatten(msgs);
    WellFormedNotEmpty(msgs);
    assert data == msgs[0] + Flatten(msgs[1..]);
    MarksMessages(ZERO, msgs);
    var rs := Idle(n) + Airs(ZERO, data);
    HearIdle(s, r, words, n, data);
    SymbolsAreSix(rs, 24);
    StraddleZero(r, ZERO);
    FirstIsSix(r, ZERO, 0, Symbols(rs, 24));
    FollowingInBounds(s, r, words);
    ReceiveTags(s, [Inside(r, 0)] + Symbols(rs, 24));
    UntaggedBytesIgnored(s, bytes);
  }

  lemma FollowingInBounds(s: Decoder, r: Word, words: seq<Word>)
    requires Following(s, r, 0, words)
    ensures InBounds(s)
  {}

  lemma HearIdle(s: Decoder, r: Word, words: seq<Word>, n: nat, data: seq<Word>)
    requires Following(s, r, 0, words) && ParityOk(Upright(r)) && TailIntact(r)
    requires words != [] && Complete(words + [Upright(r)]) && !Complete(words)
    requires n > 0 && data != [] && Framed([], Clears(ZERO, data))
    ensures Hear(s, [Inside(r, 0)] + Symbols(Idle(n) + Airs(ZERO, data), 24)).1
            == [Receipt(Message, words + [Upright(r)])] + AfterIdle(n, Marks([], Clears(ZERO, data)))
  {
    hide Symbols, Due, Silence, Clears, Marks, Framed, Upright, ParityOk, Keep, Straddle, Inside, Absorb, TailIntact,
         Report, Carries, Idle, FrameLength, Airs;
    TailCarries(r);
    StraddleZero(r, ZERO);
    CompleteOnce(words, Upright(r));
    FollowWord(s, r, ZERO, 0, words);
    var (t, status) := Absorb(s, Inside(r, 0));
    ReportMessage(t, words + [Upright(r)]);
    IdleBegins(t, n, data, 24);
    var rest := Symbols(Idle(n) + Airs(ZERO, data), 24);
    assert ([Inside(r, 0)] + rest)[1..] == rest;
  }

  lemma TailCarries(r: Word)
    requires TailIntact(r)
    ensures Carries(r, ZERO)
  {}

  lemma CompleteOnce(words: seq<Word>, w: Word)
    requires words != [] && Complete(words + [w]) && !Complete(words)
    ensures |words + [w]| == FrameLength((words + [w])[1]) + 2
  {
    hide FrameLength;
  }
}
