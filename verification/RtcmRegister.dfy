/** The decoder's register before lock, when it is fed other symbols than were sent: what it may lock on,
    and how it can be told that it did not lock on the first word sent. */
module RtcmRegister {
  import opened IsgpsWord
  import opened Isgps
  import opened IsgpsTransport
  import opened IsgpsRoundTrip

  // ---------- symbols in the register ----------

  /** The register with one more symbol in it. */
  function Push6(w: Word, x: Word): Word { Window(w, x, 0) }

  predicate IsSymbol(x: Word) { x.bits < 64 }

  /** The symbol that came `i` symbols before the last. */
  function SymbolAt(w: Word, i: nat): Word
    requires i <= 3
  {
    if i == 0 then Seal(w.bits & 0x3f)
    else if i == 1 then Seal((w.bits >> 6) & 0x3f)
    else if i == 2 then Seal((w.bits >> 12) & 0x3f)
    else Seal((w.bits >> 18) & 0x3f)
  }

  lemma PushIs(w: Word, x: Word)
    ensures Push6(w, x) == WindowBy(w, x, 0)
  {
    assert Count(0) == 0;
  }

  lemma SymbolsMoveBy(w: Word, x: Word, v: Word)
    requires v == WindowBy(w, x, 0) && IsSymbol(x)
    ensures SymbolAt(v, 0) == x && SymbolAt(v, 1) == SymbolAt(w, 0)
    ensures SymbolAt(v, 2) == SymbolAt(w, 1) && SymbolAt(v, 3) == SymbolAt(w, 2)
  {
    assert SymbolAt(v, 0).bits == x.bits && SymbolAt(v, 1).bits == SymbolAt(w, 0).bits;
    assert SymbolAt(v, 2).bits == SymbolAt(w, 1).bits && SymbolAt(v, 3).bits == SymbolAt(w, 2).bits;
  }

  lemma SymbolsMove(w: Word, x: Word)
    requires IsSymbol(x)
    ensures SymbolAt(Push6(w, x), 0) == x && SymbolAt(Push6(w, x), 1) == SymbolAt(w, 0)
    ensures SymbolAt(Push6(w, x), 2) == SymbolAt(w, 1) && SymbolAt(Push6(w, x), 3) == SymbolAt(w, 2)
  {
    PushIs(w, x);
    hide Push6, WindowBy, SymbolAt;
    SymbolsMoveBy(w, x, Push6(w, x));
  }

  /** A window shows the last four symbols before it. */
  lemma WindowShowsBy(v: Word, x: Word, k: bv6, r: Word)
    requires k <= 5 && IsSymbol(x) && r == WindowBy(v, x, k)
    ensures (r.bits >> (6 - k)) & 0xffffff == v.bits & 0xffffff
  {}

  lemma LowSymbols(v: Word, w: Word)
    requires v.bits & 0xffffff == w.bits & 0xffffff
    ensures SymbolAt(v, 1) == SymbolAt(w, 1) && SymbolAt(v, 2) == SymbolAt(w, 2)
  {
    assert SymbolAt(v, 1).bits == SymbolAt(w, 1).bits && SymbolAt(v, 2).bits == SymbolAt(w, 2).bits;
  }

  /** So two registers that show the same word had the same symbols. */
  lemma SameWindow(v: Word, w: Word, x: Word, k: nat)
    requires k <= 5 && IsSymbol(x) && Window(v, x, k) == Window(w, x, k)
    ensures SymbolAt(v, 1) == SymbolAt(w, 1) && SymbolAt(v, 2) == SymbolAt(w, 2)
  {
    CountsLow(k);
    hide WindowBy, SymbolAt, Count, IsSymbol;
    WindowShowsBy(v, x, Count(k), Window(v, x, k));
    WindowShowsBy(w, x, Count(k), Window(w, x, k));
    LowSymbols(v, w);
  }

  // ---------- the first four symbols ----------

  lemma YoungBy(w: Word, x: Word, k: bv6)
    requires k <= 5 && w.bits < 0x400000 && IsSymbol(x)
    ensures !Preamble(WindowBy(w, x, k))
  {
    assert WindowBy(w, x, k).bits < 0x10000000;
  }

  /** With fewer than four symbols in the register there is no room for a preamble. */
  lemma YoungStep(s: Decoder, x: Word)
    requires InBounds(s) && !s.locked && s.word.bits < 0x400000 && IsSymbol(x)
    ensures var (t, status) := Absorb(s, x); status == NoSync && InBounds(t) && !t.locked && t.word == Push6(s.word, x)
  {
    hide WindowBy, Preamble, ParityOk, Track, IsSymbol, Count;
    forall k | 0 <= k <= 5
      ensures !Preamble(Window(s.word, x, k))
    {
      CountsLow(k);
      YoungBy(s.word, x, Count(k));
    }
    NoLockPoint(s.word, x, 5);
  }

  // ---------- the fifth ----------

  lemma FifthBy(r: Word, o: bv6, y: Word, z: Word, x: Word, k: bv6, w2: Word, w3: Word, w4: Word)
    requires 13 <= o <= 18 && k <= 5 && StartsWithZero(r) && Preamble(r) && IsSymbol(x) && IsSymbol(y) && IsSymbol(z)
    requires w2 == ShrBy(r, o) && w3 == WindowBy(w2, y, 0) && w4 == WindowBy(w3, z, 0)
    requires Preamble(WindowBy(w4, x, k))
    ensures !Inverted(WindowBy(w4, x, k))
  {}

  /** The first symbols of the first word in the register, and two more: a window that shows the preamble
      shows it right way up. */
  predicate Upfront(w: Word, x: Word) {
    forall k :: 0 <= k <= 5 && Preamble(Window(w, x, k)) ==> !Inverted(Window(w, x, k))
  }

  lemma FifthUpfront(r: Word, o: nat, y: Word, z: Word, x: Word)
    requires 13 <= o <= 18 && StartsWithZero(r) && Preamble(r) && IsSymbol(x) && IsSymbol(y) && IsSymbol(z)
    ensures Upfront(Push6(Push6(Shr(r, o), y), z), x)
  {
    CountsMiddle(o);
    var w2 := Shr(r, o);
    var w3 := Push6(w2, y);
    var w4 := Push6(w3, z);
    PushIs(w2, y);
    PushIs(w3, z);
    hide Push6, WindowBy, ShrBy, Count, IsSymbol, StartsWithZero, Preamble, Inverted;
    forall k | 0 <= k <= 5 && Preamble(Window(w4, x, k)) ensures !Inverted(Window(w4, x, k)) {
      CountsLow(k);
      FifthBy(r, Count(o), y, z, x, Count(k), w2, w3, w4);
    }
  }

  lemma CountsMiddle(o: nat)
    requires 13 <= o <= 18
    ensures 13 <= Count(o) <= 18
  {}

  /** Where a decoder that heard other symbols may be: unlocked, or locked with more of the next word to
      come than a fresh lock leaves. */
  predicate Going(s: Decoder) {
    InBounds(s) && (s.locked ==> 0 < s.offset)
  }

  lemma LockedStep(s: Decoder, x: Word)
    requires Going(s) && s.locked
    ensures var (t, status) := Absorb(s, x); status == Sync && t.locked && t.offset == s.offset - 6 && InBounds(t)
  {
    hide Merge;
  }

  /** What the symbol that first completes thirty bits can do. */
  lemma FifthStep(s: Decoder, x: Word)
    requires InBounds(s) && !s.locked && Upfront(s.word, x)
    ensures
      var (t, status) := Absorb(s, x);
      && InBounds(t) && (if t.locked then status == Sync && t.offset >= 19 else status == NoSync && t.word == Push6(s.word, x))
  {
    hide Window, Merge, Preamble, ParityOk, Inverted, Shl, FrameLength;
    var j := LockPoint(s.word, x, 5);
    if j >= 0 {
      LockPointLocks(s.word, x, 5);
      MergeTwice(s.word, x, j);
    }
  }

  lemma {:induction false} LockPointLocks(w: Word, x: Word, k: nat)
    requires k <= 5
    ensures var j := LockPoint(w, x, k); j >= 0 ==> Locks(Window(w, x, j))
  {
    hide Window, Preamble, ParityOk;
    if k > 0 && !Locks(Window(w, x, k)) {
      LockPointLocks(w, x, k - 1);
    }
  }

  // ---------- the sixth ----------

  /** The first letters of greetings, as sent. */
  predicate LetterSymbol(x: Word) { x.bits == 32 || x.bits == 40 }

  lemma SixthBy(w: Word, x: Word, k: bv6)
    requires k <= 5 && IsSymbol(x) && LetterSymbol(SymbolAt(w, 3))
    ensures !Preamble(WindowBy(w, x, k))
  {}

  /** Behind a letter and three symbols no window shows the preamble. */
  lemma SixthStep(s: Decoder, x: Word)
    requires InBounds(s) && !s.locked && IsSymbol(x) && LetterSymbol(SymbolAt(s.word, 3))
    ensures var (t, status) := Absorb(s, x); status == NoSync && InBounds(t) && !t.locked && t.word == Push6(s.word, x)
  {
    hide WindowBy, Preamble, ParityOk, Track, LetterSymbol, SymbolAt, Count, IsSymbol;
    forall k | 0 <= k <= 5
      ensures !Preamble(Window(s.word, x, k))
    {
      CountsLow(k);
      SixthBy(s.word, x, Count(k));
    }
    NoLockPoint(s.word, x, 5);
  }

  // ---------- the last ----------

  /** The symbol that would end the first word, to a decoder that heard other symbols before it: whatever
      comes of it, it is not a decoder that has just stored that word. */
  lemma LastStep(s: Decoder, r: Word, r2: Word, o: int, t: Decoder)
    requires -5 <= o <= 0 && Going(s) && StartsWithZero(r) && Preamble(r) && !Inverted(r)
    requires !s.locked ==>
      SymbolAt(s.word, 1) != SymbolAt(Shr(r, o + 6), 1) || SymbolAt(s.word, 2) != SymbolAt(Shr(r, o + 6), 2)
    requires Following(t, r2, o + 24, [r])
    ensures Absorb(s, Straddle(r, r2, -o)).0 != t && Absorb(s, Straddle(r, r2, -o)).1 != Message
    ensures s.locked ==> Absorb(s, Straddle(r, r2, -o)).1 == Sync
  {
    hide Straddle, Window, Merge, Preamble, ParityOk, Inverted, Invert, Shl, FrameLength, SymbolAt, Shr, StartsWithZero;
    var x := Straddle(r, r2, -o);
    if s.locked {
      LockedStep(s, x);
    } else {
      StraddleUnlocked(r, r2, o, -o);
      StraddleSymbol(r, r2, o);
      assert t.buf[0] == r by { assert t.buf[..1] == [r]; }
      if Window(s.word, x, -o) == r {
        SameWindow(s.word, Shr(r, o + 6), x, -o);
        assert false;
      }
      NotStored(s, x, r, o);
    }
  }

  lemma StraddleSymbol(r: Word, r2: Word, o: int)
    requires -5 <= o <= 0
    ensures IsSymbol(Straddle(r, r2, -o))
  {
    CountsLow(-o);
    hide Count;
    StraddleIsSix(r, r2, Count(-o), Straddle(r, r2, -o));
    LowIsSymbol(Straddle(r, r2, -o));
  }

  lemma LowIsSymbol(x: Word)
    requires Low6(x) == x
    ensures IsSymbol(x)
  {
    assert x.bits & 0x3f == x.bits;
  }

  lemma NotStored(s: Decoder, x: Word, r: Word, o: int)
    requires -5 <= o <= 0 && InBounds(s) && !s.locked && Window(s.word, x, -o) != r && !Inverted(r)
    ensures var (t, status) := Absorb(s, x);
      status != Message && !(t.locked && t.offset == o + 24 && t.buf[0] == r)
  {
    hide Window, Merge, Preamble, ParityOk, Inverted, Invert, Shl, FrameLength;
    var j := LockPoint(s.word, x, 5);
    if j >= 0 {
      MergeTwice(s.word, x, j);
      InvertKeepsRest(Window(s.word, x, j));
    }
  }
}
