/** The transmitter's side of the IS-GPS-200 transport layer and the proof that the decoder gets back
    every message it sends, at whatever bit the decoder starts listening. */
module IsgpsTransport {
  import opened IsgpsWord
  import opened Isgps

  // ---------- what goes on the air ----------

  /** A word's 24 data bits, with the two bits carried over from the word before and its parity. */
  function Clear(prev: Word, data: Word): Word {
    var t := WithCarry(prev, data);
    Join(t, ParityBits(t))
  }

  function WithCarry(prev: Word, data: Word): Word {
    Seal((prev.bits << 30) | (data.bits & 0x3fffffc0))
  }

  function Join(t: Word, p: Word): Word {
    Seal(t.bits | p.bits)
  }

  /** The word as sent: D30* inverts the data bits. */
  function OnAir(prev: Word, data: Word): Word {
    Upright(Clear(prev, data))
  }

  /** A run of words as sent, each carrying two bits of the one before. */
  function Airs(prev: Word, data: seq<Word>): (r: seq<Word>)
    ensures |r| == |data|
    decreases |data|
  {
    if data == [] then [] else
      var w := OnAir(prev, data[0]);
      [w] + Airs(w, data[1..])
  }

  /** The same words before inversion: what the receiver is to store. */
  function Clears(prev: Word, data: seq<Word>): (r: seq<Word>)
    ensures |r| == |data|
    decreases |data|
  {
    if data == [] then [] else
      [Clear(prev, data[0])] + Clears(OnAir(prev, data[0]), data[1..])
  }

  function InsideBy(r: Word, k: bv6): Word
    requires k < 32
  {
    Seal((r.bits >> k) & 0x3f)
  }

  function StraddleBy(r: Word, r2: Word, k: bv6): Word
    requires k <= 5
  {
    Seal(((r.bits << k) | ((r2.bits & 0x3fffffff) >> (30 - k))) & 0x3f)
  }

  /** Six bits of `r`, the last of them bit `o`. */
  function Inside(r: Word, o: nat): Word
    requires o < 32
  {
    InsideBy(r, Count(o))
  }

  /** The last `6 - q` of the bits of `r` followed by the first `q` of the 30 bits of `r2`. */
  function Straddle(r: Word, r2: Word, q: nat): Word
    requires q <= 5
  {
    CountsLow(q);
    StraddleBy(r, r2, Count(q))
  }

  /** The words of `rs` as one stream of bits cut into six-bit symbols, starting with the first
      `o + 6` low bits of the first word and padding the last symbol with zeros. */
  function Symbols(rs: seq<Word>, o: int): seq<Word>
    requires -5 <= o <= 24
    decreases |rs|, o + 6
  {
    if rs == [] then []
    else if o > 0 then [Inside(rs[0], o)] + Symbols(rs, o - 6)
    else [Straddle(rs[0], Next(rs), -o)] + Symbols(rs[1..], o + 24)
  }

  /** The word after the first, or zero padding. */
  function Next(rs: seq<Word>): Word
    requires rs != []
  {
    if |rs| > 1 then rs[1] else Shl(rs[0], 30)
  }

  function Tags(symbols: seq<Word>): seq<Word> {
    seq(|symbols|, i requires 0 <= i < |symbols| => Tag(symbols[i]))
  }

  /** The five tagged bytes of one word. */
  function FiveBytes(w: Word): seq<Word> {
    [Tag(Inside(w, 24)), Tag(Inside(w, 18)), Tag(Inside(w, 12)), Tag(Inside(w, 6)), Tag(Inside(w, 0))]
  }

  /** isgps_output_magnavox: every word leaves as five tagged bytes, most significant bits first. */
  method OutputMagnavox(ip: seq<Word>) returns (out: seq<Word>)
    ensures out == Tags(Symbols(Airs(ZERO, ip), 24))
  {
    hide FiveBytes, Invert, Inverted, WithCarry, Join, ParityBits, Symbols, Airs, Tags;
    var w := ZERO;
    out := [];
    var n := 0;
    while n < |ip|
      invariant 0 <= n <= |ip|
      invariant out + Tags(Symbols(Airs(w, ip[n..]), 24)) == Tags(Symbols(Airs(ZERO, ip), 24))
    {
      ghost var prev := w;
      w := WithCarry(w, ip[n]);
      var p := Parity(w);
      w := Join(w, p);
      if Inverted(w) {
        w := Invert(w);
      }
      out := out + FiveBytes(w);
      OneWordOut(prev, ip[n..]);
      n := n + 1;
      assert ip[n - 1..][1..] == ip[n..];
    }
    NothingLeft(w, ip[n..]);
  }

  lemma NothingLeft(prev: Word, data: seq<Word>)
    requires data == []
    ensures Tags(Symbols(Airs(prev, data), 24)) == []
  {}

  lemma OneWordOut(prev: Word, data: seq<Word>)
    requires data != []
    ensures
      var w := OnAir(prev, data[0]);
      Tags(Symbols(Airs(prev, data), 24)) == FiveBytes(w) + Tags(Symbols(Airs(w, data[1..]), 24))
  {
    hide OnAir, Tag, Inside, Symbols;
    var w := OnAir(prev, data[0]);
    FiveSymbols(w, Airs(w, data[1..]));
  }

  lemma FiveSymbols(r: Word, rest: seq<Word>)
    ensures Symbols([r] + rest, 24)
            == [Inside(r, 24), Inside(r, 18), Inside(r, 12), Inside(r, 6), Inside(r, 0)] + Symbols(rest, 24)
  {
    hide Inside, Straddle, Next;
    var rs := [r] + rest;
    assert rs[1..] == rest;
    assert Symbols(rs, 18) == [Inside(r, 18)] + Symbols(rs, 12);
    assert Symbols(rs, 12) == [Inside(r, 12)] + Symbols(rs, 6);
    assert Symbols(rs, 6) == [Inside(r, 6)] + Symbols(rs, 0);
    StraddleZero(r, Next(rs));
  }

  lemma StraddleZero(r: Word, r2: Word)
    ensures Straddle(r, r2, 0) == Inside(r, 0)
  {
    assert Straddle(r, r2, 0).bits == Inside(r, 0).bits;
  }

  // ---------- bits ----------

  function KeepBy(r: Word, k: bv6): Word
    requires k < 32
  {
    Seal((r.bits >> k) << k)
  }

  /** `r` with its low `n` bits not received yet. */
  function Keep(r: Word, n: nat): Word
    requires n < 32
  {
    KeepBy(r, Count(n))
  }

  /** Nothing above the 30 bits of the word, and its first bit zero, as in a preamble or an idle line. */
  predicate StartsWithZero(r: Word) { r.bits < 0x20000000 }

  /** `r2` carries the last two bits of `r`. */
  predicate Carries(r: Word, r2: Word) { r2.bits >> 30 == r.bits & 3 }

  predicate SameTail(v: Word, w: Word) { v.bits & 3 == w.bits & 3 }

  lemma CountSix(o: nat)
    requires 0 < o <= 24
    ensures Count(o + 6) == Count(o) + 6 && 0 < Count(o) <= 24
  {
    CountStep(o);
    CountStep(o + 1);
    CountStep(o + 2);
    CountStep(o + 3);
    CountStep(o + 4);
    CountStep(o + 5);
    match o
    case 1 => case 2 => case 3 => case 4 => case 5 => case 6 => case 7 => case 8 =>
    case 9 => case 10 => case 11 => case 12 => case 13 => case 14 => case 15 => case 16 =>
    case 17 => case 18 => case 19 => case 20 => case 21 => case 22 => case 23 => case _ =>
  }

  // The same facts twice: with the shift count a machine value, and with it a number.

  lemma MergeInsideBy(r: Word, o: bv6, o6: bv6, w: Word, sym: Word)
    requires 0 < o <= 24 && o6 == o + 6 && w == KeepBy(r, o6) && sym == InsideBy(r, o)
    ensures MergeAbove(w, sym, o) == KeepBy(r, o)
  {
    assert MergeAbove(w, sym, o).bits == KeepBy(r, o).bits;
  }

  lemma MergeInside(r: Word, o: nat)
    requires 0 < o <= 24
    ensures Merge(Keep(r, o + 6), Inside(r, o), o) == Keep(r, o)
  {
    CountSix(o);
    hide Count, KeepBy, InsideBy, MergeAbove;
    MergeInsideBy(r, Count(o), Count(o + 6), Keep(r, o + 6), Inside(r, o));
  }

  /** What the symbol brings of the word it ends. */
  function EndOf(sym: Word, q: bv6): Word
    requires q <= 5
  {
    Seal(sym.bits >> q)
  }

  /** The last `n` bits of a word. */
  function LowOf(r: Word, n: bv6): Word
    requires n < 32
  {
    Seal(r.bits & ((1 << n) - 1))
  }

  lemma NothingBehind(x: bv32, q: bv6)
    requires q <= 5
    ensures ((x & 0x3fffffff) >> (30 - q)) >> q == 0
  {}

  lemma EndBits(r: bv32, y: bv32, q: bv6, n: bv6)
    requires q <= 5 && n == 6 - q && y >> q == 0
    ensures (((r << q) | y) & 0x3f) >> q == r & ((1 << n) - 1)
  {}

  lemma EndIs(r: Word, r2: Word, q: bv6, n: bv6)
    requires q <= 5 && n == 6 - q
    ensures EndOf(StraddleBy(r, r2, q), q) == LowOf(r, n)
  {
    NothingBehind(r2.bits, q);
    EndBits(r.bits, (r2.bits & 0x3fffffff) >> (30 - q), q, n);
  }

  lemma Halves1(r: Word)
    ensures Join(KeepBy(r, 1), LowOf(r, 1)) == r
  {
    assert Join(KeepBy(r, 1), LowOf(r, 1)).bits == r.bits;
  }

  lemma Halves2(r: Word)
    ensures Join(KeepBy(r, 2), LowOf(r, 2)) == r
  {
    assert Join(KeepBy(r, 2), LowOf(r, 2)).bits == r.bits;
  }

  lemma Halves3(r: Word)
    ensures Join(KeepBy(r, 3), LowOf(r, 3)) == r
  {
    assert Join(KeepBy(r, 3), LowOf(r, 3)).bits == r.bits;
  }

  lemma Halves4(r: Word)
    ensures Join(KeepBy(r, 4), LowOf(r, 4)) == r
  {
    assert Join(KeepBy(r, 4), LowOf(r, 4)).bits == r.bits;
  }

  lemma Halves5(r: Word)
    ensures Join(KeepBy(r, 5), LowOf(r, 5)) == r
  {
    assert Join(KeepBy(r, 5), LowOf(r, 5)).bits == r.bits;
  }

  lemma Halves6(r: Word)
    ensures Join(KeepBy(r, 6), LowOf(r, 6)) == r
  {
    assert Join(KeepBy(r, 6), LowOf(r, 6)).bits == r.bits;
  }

  lemma KeepAndLow(r: Word, n: bv6)
    requires 1 <= n <= 6
    ensures Join(KeepBy(r, n), LowOf(r, n)) == r
  {
    hide KeepBy, LowOf, Join;
    match n
    case 1 => Halves1(r);
    case 2 => Halves2(r);
    case 3 => Halves3(r);
    case 4 => Halves4(r);
    case 5 => Halves5(r);
    case _ => Halves6(r);
  }

  lemma MergeIsJoin(w: Word, sym: Word, q: bv6)
    requires q <= 5
    ensures MergeBelow(w, sym, q) == Join(w, EndOf(sym, q))
  {}

  lemma MergeStraddleBy(r: Word, r2: Word, q: bv6, n: bv6, w: Word, sym: Word)
    requires q <= 5 && n == 6 - q && w == KeepBy(r, n) && sym == StraddleBy(r, r2, q)
    ensures MergeBelow(w, sym, q) == r
  {
    hide KeepBy, StraddleBy, MergeBelow, Join, EndOf, LowOf;
    EndIs(r, r2, q, n);
    KeepAndLow(r, n);
    MergeIsJoin(w, sym, q);
  }

  lemma MergeStraddle(r: Word, r2: Word, o: int)
    requires -5 <= o <= 0
    ensures Merge(Keep(r, o + 6), Straddle(r, r2, -o), o) == r
  {
    CountsLow(-o);
    hide Count, KeepBy, StraddleBy, MergeBelow;
    MergeStraddleBy(r, r2, Count(-o), Count(o + 6), Keep(r, o + 6), Straddle(r, r2, -o));
  }

  lemma MergeRestBy(r: Word, r2: Word, q: bv6, n: bv6, t: Word, clear: Word, sym: Word)
    requires q <= 5 && n == 30 - q && sym == StraddleBy(r, r2, q) && t == ShlBy(clear, 30)
    requires Carries(r, r2) && SameTail(clear, r)
    ensures MergeAbove(t, sym, n) == KeepBy(r2, n)
  {
    assert MergeAbove(t, sym, n).bits == KeepBy(r2, n).bits;
  }

  lemma MergeRest(r: Word, r2: Word, clear: Word, o: int)
    requires -5 <= o <= 0 && Carries(r, r2) && SameTail(clear, r)
    ensures Merge(Shl(clear, 30), Straddle(r, r2, -o), o + 30) == Keep(r2, o + 30)
  {
    CountsLow(-o);
    assert Count(30) == 30;
    hide Count, KeepBy, StraddleBy, MergeAbove, ShlBy;
    MergeRestBy(r, r2, Count(-o), Count(o + 30), Shl(clear, 30), clear, Straddle(r, r2, -o));
  }

  lemma InsideUnlockedBy(r: Word, o: bv6, o6: bv6, k: bv6, w: Word, sym: Word)
    requires 0 < o <= 24 && o6 == o + 6 && w == ShrBy(r, o6) && sym == InsideBy(r, o) && StartsWithZero(r) && k <= 5
    ensures !Preamble(WindowBy(w, sym, k))
  {
    assert WindowBy(w, sym, k).bits < 0x10000000;
  }

  lemma InsideShiftsIn(r: Word, o: bv6, o6: bv6, w: Word, sym: Word)
    requires 0 < o <= 24 && o6 == o + 6 && w == ShrBy(r, o6) && sym == InsideBy(r, o)
    ensures WindowBy(w, sym, 0) == ShrBy(r, o)
  {
    assert WindowBy(w, sym, 0).bits == ShrBy(r, o).bits;
  }

  /** Before the last bit of the first word is in, no window shows the preamble. */
  lemma InsideUnlocked(r: Word, o: nat, k: nat)
    requires 0 < o <= 24 && StartsWithZero(r) && k <= 5
    ensures !Preamble(Window(Shr(r, o + 6), Inside(r, o), k))
    ensures k == 0 ==> Window(Shr(r, o + 6), Inside(r, o), k) == Shr(r, o)
  {
    CountSix(o);
    CountsLow(k);
    assert Count(0) == 0;
    hide Count, ShrBy, InsideBy, WindowBy, Preamble;
    InsideUnlockedBy(r, Count(o), Count(o + 6), Count(k), Shr(r, o + 6), Inside(r, o));
    InsideShiftsIn(r, Count(o), Count(o + 6), Shr(r, o + 6), Inside(r, o));
  }

  lemma StraddleUnlockedBy(r: Word, r2: Word, q: bv6, n: bv6, k: bv6, w: Word, sym: Word)
    requires q <= k <= 5 && n == 6 - q && w == ShrBy(r, n) && sym == StraddleBy(r, r2, q) && StartsWithZero(r)
    ensures q < k ==> !Preamble(WindowBy(w, sym, k))
    ensures q == k ==> WindowBy(w, sym, k) == r
  {
    if q < k {
      assert WindowBy(w, sym, k).bits < 0x10000000;
    } else {
      assert WindowBy(w, sym, k).bits == r.bits;
    }
  }

  /** The window shows the first word exactly when its last bit is in. */
  lemma StraddleUnlocked(r: Word, r2: Word, o: int, k: nat)
    requires -5 <= o <= 0 && -o <= k <= 5 && StartsWithZero(r)
    ensures -o < k ==> !Preamble(Window(Shr(r, o + 6), Straddle(r, r2, -o), k))
    ensures -o == k ==> Window(Shr(r, o + 6), Straddle(r, r2, -o), k) == r
  {
    CountsLow(-o);
    CountsLow(k);
    CountsOrdered(-o, k);
    hide Count, ShrBy, StraddleBy, WindowBy, Preamble;
    StraddleUnlockedBy(r, r2, Count(-o), Count(o + 6), Count(k), Shr(r, o + 6), Straddle(r, r2, -o));
  }

  lemma CountsOrdered(q: nat, k: nat)
    requires q <= k <= 5
    ensures Count(q) <= Count(k) && (q < k ==> Count(q) < Count(k))
  {}

  lemma IdleUnlockedBy(r2: Word, q: bv6, n: bv6, k: bv6, sym: Word)
    requires q <= 5 && n == 30 - q && k <= 5 && sym == StraddleBy(ZERO, r2, q) && StartsWithZero(r2)
    ensures !Preamble(WindowBy(ZERO, sym, k))
    ensures k == 0 ==> WindowBy(ZERO, sym, k) == ShrBy(r2, n)
  {
    assert WindowBy(ZERO, sym, k).bits < 64;
    if k == 0 {
      assert WindowBy(ZERO, sym, k).bits == ShrBy(r2, n).bits;
    }
  }

  lemma IdleUnlocked(r2: Word, o: int, k: nat)
    requires -5 <= o <= 0 && k <= 5 && StartsWithZero(r2)
    ensures !Preamble(Window(ZERO, Straddle(ZERO, r2, -o), k))
    ensures k == 0 ==> Window(ZERO, Straddle(ZERO, r2, -o), k) == Shr(r2, o + 30)
  {
    CountsLow(-o);
    CountsLow(k);
    assert Count(0) == 0;
    hide Count, ShrBy, StraddleBy, WindowBy, Preamble;
    IdleUnlockedBy(r2, Count(-o), Count(o + 30), Count(k), Straddle(ZERO, r2, -o));
  }

  lemma ShrZero(n: nat)
    requires n < 32
    ensures Shr(ZERO, n) == ZERO
  {
    hide Count;
    assert Shr(ZERO, n).bits == 0;
  }

  lemma MergeTwiceBy(w: Word, sym: Word, q: bv6, v: Word)
    requires q <= 5 && v == WindowBy(w, sym, q)
    ensures MergeBelow(v, sym, q) == v
  {
    assert MergeBelow(v, sym, q).bits == v.bits;
  }

  /** The register right after locking already holds the symbol that is merged again. */
  lemma MergeTwice(w: Word, sym: Word, q: nat)
    requires q <= 5
    ensures Merge(Window(w, sym, q), sym, 0 - q) == Window(w, sym, q)
  {
    CountsLow(q);
    hide Count, WindowBy, MergeBelow;
    MergeTwiceBy(w, sym, Count(q), Window(w, sym, q));
  }
}
