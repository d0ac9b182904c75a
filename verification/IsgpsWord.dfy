/** Words of the IS-GPS-200 transport layer: the bit operations of the decoder, the bit-reversed
    symbols, the six parity bits of a 30-bit word and what they can detect.

    Bits 31 and 30 of a word hold D29* and D30* (the last two bits of the word before it), bits 29
    to 6 the 24 data bits, bits 5 to 0 the parity D25 to D30. */
module IsgpsWord {
  /** Machine words under a seal: the solver compares sealed values as wholes, and only the lemmas
      that need the bits look inside. */
  datatype Sealed<T(==)> = Seal(bits: T)

  type Word = Sealed<bv32>
  type Octet = Sealed<bv8>

  /** A shift count as the machine sees it. */
  function Count(n: nat): (k: bv6)
    requires n < 32
    ensures k < 32
  {
    match n
    case 0 => 0 case 1 => 1 case 2 => 2 case 3 => 3 case 4 => 4 case 5 => 5 case 6 => 6 case 7 => 7
    case 8 => 8 case 9 => 9 case 10 => 10 case 11 => 11 case 12 => 12 case 13 => 13 case 14 => 14
    case 15 => 15 case 16 => 16 case 17 => 17 case 18 => 18 case 19 => 19 case 20 => 20 case 21 => 21
    case 22 => 22 case 23 => 23 case 24 => 24 case 25 => 25 case 26 => 26 case 27 => 27 case 28 => 28
    case 29 => 29 case 30 => 30 case _ => 31
  }

  lemma CountStep(n: nat)
    requires n < 31
    ensures Count(n + 1) == Count(n) + 1
  {
    match n
    case 0 => case 1 => case 2 => case 3 => case 4 => case 5 => case 6 => case 7 =>
    case 8 => case 9 => case 10 => case 11 => case 12 => case 13 => case 14 => case 15 =>
    case 16 => case 17 => case 18 => case 19 => case 20 => case 21 => case 22 => case 23 =>
    case 24 => case 25 => case 26 => case 27 => case 28 => case 29 => case _ =>
  }

  function ShlBy(w: Word, k: bv6): Word
    requires k < 32
  {
    Seal(w.bits << k)
  }

  function ShrBy(w: Word, k: bv6): Word
    requires k < 32
  {
    Seal(w.bits >> k)
  }

  function MergeAbove(w: Word, sym: Word, k: bv6): Word
    requires k < 32
  {
    Seal(w.bits | (sym.bits << k))
  }

  function MergeBelow(w: Word, sym: Word, k: bv6): Word
    requires k < 32
  {
    Seal(w.bits | (sym.bits >> k))
  }

  function WindowBy(w: Word, sym: Word, k: bv6): Word
    requires k <= 5
  {
    Seal((w.bits << (6 - k)) | (sym.bits >> k))
  }

  function Shl(w: Word, n: nat): Word
    requires n < 32
  {
    ShlBy(w, Count(n))
  }

  function Shr(w: Word, n: nat): Word
    requires n < 32
  {
    ShrBy(w, Count(n))
  }

  /** `w` with `sym` added in at bit position `offset`, which may lie below the register. */
  function Merge(w: Word, sym: Word, offset: int): Word
    requires -32 < offset < 32
  {
    if offset > 0 then MergeAbove(w, sym, Count(offset)) else MergeBelow(w, sym, Count(-offset))
  }

  /** The 32 bits in the register once all but the last `k` bits of `sym` are in. */
  function Window(w: Word, sym: Word, k: nat): Word
    requires k <= 5
  {
    CountsLow(k);
    WindowBy(w, sym, Count(k))
  }

  lemma CountsLow(q: nat)
    requires q <= 5
    ensures Count(q) <= 5 && Count(6 - q) == 6 - Count(q) && Count(30 - q) == 30 - Count(q)
    ensures q > 0 ==> Count(q - 1) == Count(q) - 1
  {
    match q
    case 0 => case 1 => case 2 => case 3 => case 4 => case _ =>
  }

  function Xor(v: Word, w: Word): Word { Seal(v.bits ^ w.bits) }

  /** The 24 data bits of `w`, everything else zero. */
  function Data(w: Word): Word { Seal(w.bits & 0x3fffffc0) }

  /** `w` with its data bits inverted. */
  function Invert(w: Word): Word { Seal(w.bits ^ 0x3fffffc0) }

  /** D30*, which tells whether the data bits of `w` are inverted. */
  predicate Inverted(w: Word) { w.bits & 0x40000000 != 0 }

  /** The low six bits of `w`. */
  function Low6(w: Word): Word { Seal(w.bits & 0x3f) }

  const ZERO: Word := Seal(0)

  // ---------- symbols ----------

  const REVERSE_BITS: seq<seq<bv32>> := [
    [0, 32, 16, 48, 8, 40, 24, 56, 4, 36, 20, 52, 12, 44, 28, 60],
    [2, 34, 18, 50, 10, 42, 26, 58, 6, 38, 22, 54, 14, 46, 30, 62],
    [1, 33, 17, 49, 9, 41, 25, 57, 5, 37, 21, 53, 13, 45, 29, 61],
    [3, 35, 19, 51, 11, 43, 27, 59, 7, 39, 23, 55, 15, 47, 31, 63]]

  /** The table entry for the low six bits of `w`. */
  function ReverseBits(w: Word): Word {
    Seal(REVERSE_BITS[((w.bits >> 4) & 3) as bv2 as nat][(w.bits & 0xf) as bv4 as nat])
  }

  /** Magnavox format: the two tag bits of a byte are 01, the other six carry data. */
  predicate Tagged(c: Word) { c.bits & 0xc0 == 0x40 }

  /** The tagged byte that carries the low six bits of `w`. */
  function Tag(w: Word): Word { Seal(0x40 | ReverseBits(w).bits) }

  /** The low six bits of `w` end for end. */
  function Reversed(w: Word): Word {
    Seal(((w.bits & 1) << 5) | ((w.bits & 2) << 3) | ((w.bits & 4) << 1)
         | ((w.bits & 8) >> 1) | ((w.bits & 16) >> 3) | ((w.bits & 32) >> 5))
  }

  lemma ReverseCells(row: bv32, column: bv32)
    requires row < 4 && column < 16
    ensures REVERSE_BITS[row as bv2 as nat][column as bv4 as nat]
            == ((column & 1) << 5) | ((column & 2) << 3) | ((column & 4) << 1)
               | ((column & 8) >> 1) | ((row & 1) << 1) | ((row & 2) >> 1)
  {
    match column
    case 0 => case 1 => case 2 => case 3 => case 4 => case 5 => case 6 => case 7 =>
    case 8 => case 9 => case 10 => case 11 => case 12 => case 13 => case 14 =>
    case _ => assert column == 15;
  }

  /** The symbol table reverses six bits end for end. */
  lemma ReverseBitsMeaning(w: Word)
    ensures ReverseBits(w) == Reversed(w)
  {
    var row, column := (w.bits >> 4) & 3, w.bits & 0xf;
    match row
    case 0 => ReverseCells(0, column);
    case 1 => ReverseCells(1, column);
    case 2 => ReverseCells(2, column);
    case _ => assert row == 3; ReverseCells(3, column);
  }

  lemma ReversedTwice(w: Word)
    ensures Tagged(Seal(0x40 | Reversed(w).bits))
    ensures Reversed(Seal(0x40 | Reversed(w).bits)) == Low6(w)
  {}

  /** A tagged byte gives back the six bits it was made from. */
  lemma TagRoundTrip(w: Word)
    ensures Tagged(Tag(w))
    ensures ReverseBits(Tag(w)) == Low6(w)
  {
    hide ReverseBits, Reversed, Tagged, Low6;
    ReverseBitsMeaning(w);
    ReverseBitsMeaning(Tag(w));
    ReversedTwice(w);
  }

  // ---------- parity ----------

  const ONE: Word := Seal(1)

  // The 256-entry parity table is laid out in rows of sixteen; only two different rows occur.
  const EVEN_ROW: seq<bv32> := [0, 1, 1, 0, 1, 0, 0, 1, 1, 0, 0, 1, 0, 1, 1, 0]
  const ODD_ROW: seq<bv32> := [1, 0, 0, 1, 0, 1, 1, 0, 0, 1, 1, 0, 1, 0, 0, 1]
  const PARITY_ARRAY: seq<seq<bv32>> := [
    EVEN_ROW, ODD_ROW, ODD_ROW, EVEN_ROW, ODD_ROW, EVEN_ROW, EVEN_ROW, ODD_ROW,
    ODD_ROW, EVEN_ROW, EVEN_ROW, ODD_ROW, EVEN_ROW, ODD_ROW, ODD_ROW, EVEN_ROW]

  function ParityArray(x: Octet): Word {
    Seal(PARITY_ARRAY[((x.bits >> 4) & 0xf) as bv4 as nat][(x.bits & 0xf) as bv4 as nat])
  }

  function Byte0(t: Word): Octet { Seal((t.bits & 0xff) as bv8) }
  function Byte1(t: Word): Octet { Seal(((t.bits >> 8) & 0xff) as bv8) }
  function Byte2(t: Word): Octet { Seal(((t.bits >> 16) & 0xff) as bv8) }
  function Byte3(t: Word): Octet { Seal(((t.bits >> 24) & 0xff) as bv8) }

  /** True when an odd number of bits of `x` are set. */
  predicate OddByte(x: Octet) {
    (((x.bits & 1 != 0) != (x.bits & 2 != 0)) != ((x.bits & 4 != 0) != (x.bits & 8 != 0)))
    != (((x.bits & 16 != 0) != (x.bits & 32 != 0)) != ((x.bits & 64 != 0) != (x.bits & 128 != 0)))
  }

  /** True when an odd number of bits of `t` are set. */
  predicate Odd(t: Word) {
    (OddByte(Byte3(t)) != OddByte(Byte2(t))) != (OddByte(Byte1(t)) != OddByte(Byte0(t)))
  }

  function Bit(b: bool): Word {
    if b then ONE else ZERO
  }

  // What each parity bit covers.
  function Mask25(w: Word): Word { Seal(w.bits & 0xbb1f3480) }
  function Mask26(w: Word): Word { Seal(w.bits & 0x5d8f9a40) }
  function Mask27(w: Word): Word { Seal(w.bits & 0xaec7cd00) }
  function Mask28(w: Word): Word { Seal(w.bits & 0x5763e680) }
  function Mask29(w: Word): Word { Seal(w.bits & 0x6bb1f340) }
  function Mask30(w: Word): Word { Seal(w.bits & 0x8b7a89c0) }

  function Pack(d25: bool, d26: bool, d27: bool, d28: bool, d29: bool, d30: bool): Word {
    Seal((Bit(d25).bits << 5) | (Bit(d26).bits << 4) | (Bit(d27).bits << 3)
         | (Bit(d28).bits << 2) | (Bit(d29).bits << 1) | Bit(d30).bits)
  }

  /** The six parity bits of a word, D25 first. */
  function ParityBits(w: Word): Word {
    Pack(Odd(Mask25(w)), Odd(Mask26(w)), Odd(Mask27(w)), Odd(Mask28(w)), Odd(Mask29(w)), Odd(Mask30(w)))
  }

  predicate ParityOk(w: Word) {
    ParityBits(w) == Low6(w)
  }

  lemma RowsAreOdd(x: Octet)
    requires x.bits < 16
    ensures Seal(EVEN_ROW[x.bits as bv4 as nat]) == Bit(OddByte(x))
    ensures Seal(ODD_ROW[x.bits as bv4 as nat]) == Bit(!OddByte(x))
  {
    match x.bits
    case 0 => case 1 => case 2 => case 3 => case 4 => case 5 => case 6 => case 7 =>
    case 8 => case 9 => case 10 => case 11 => case 12 => case 13 => case 14 =>
    case _ => assert x.bits == 15;
  }

  lemma ParityArrayRow(x: Octet)
    requires x.bits < 16
    ensures PARITY_ARRAY[x.bits as bv4 as nat] == if OddByte(x) then ODD_ROW else EVEN_ROW
  {
    match x.bits
    case 0 => case 1 => case 2 => case 3 => case 4 => case 5 => case 6 => case 7 =>
    case 8 => case 9 => case 10 => case 11 => case 12 => case 13 => case 14 =>
    case _ => assert x.bits == 15;
  }

  lemma NibblesOdd(x: Octet, high: Octet, low: Octet)
    requires high.bits == (x.bits >> 4) & 0xf && low.bits == x.bits & 0xf
    ensures OddByte(x) == (OddByte(high) != OddByte(low))
  {}

  /** Every entry of the table is the oddness of its index. */
  lemma ParityArrayIsOdd(x: Octet)
    ensures ParityArray(x) == Bit(OddByte(x))
  {
    var high, low := Seal((x.bits >> 4) & 0xf), Seal(x.bits & 0xf);
    ParityArrayRow(high);
    RowsAreOdd(low);
    NibblesOdd(x, high, low);
    hide OddByte;
  }

  lemma XorBits(a: bool, b: bool)
    ensures Xor(Bit(a), Bit(b)) == Bit(a != b)
  {}

  /** Table-driven oddness of a word, one byte at a time. */
  method TableOdd(t: Word) returns (p: Word)
    ensures p == Bit(Odd(t))
  {
    hide OddByte, ParityArray, Bit, Xor, Byte0, Byte1, Byte2, Byte3;
    var a, b, c, d := Byte0(t), Byte1(t), Byte2(t), Byte3(t);
    p := Xor(Xor(ParityArray(a), ParityArray(b)), Xor(ParityArray(c), ParityArray(d)));
    ParityArrayIsOdd(a);
    ParityArrayIsOdd(b);
    ParityArrayIsOdd(c);
    ParityArrayIsOdd(d);
    XorBits(OddByte(a), OddByte(b));
    XorBits(OddByte(c), OddByte(d));
    XorBits(OddByte(a) != OddByte(b), OddByte(c) != OddByte(d));
  }

  function Push(p: Word, q: Word): Word {
    Seal((p.bits << 1) | q.bits)
  }

  /** The parity of a word, built up one table-driven bit at a time. */
  method Parity(th: Word) returns (p: Word)
    ensures p == ParityBits(th)
  {
    hide Odd, Bit, Push, Pack, Mask25, Mask26, Mask27, Mask28, Mask29, Mask30;
    p := TableOdd(Mask25(th));
    var q := TableOdd(Mask26(th));
    p := Push(p, q);
    q := TableOdd(Mask27(th));
    p := Push(p, q);
    q := TableOdd(Mask28(th));
    p := Push(p, q);
    q := TableOdd(Mask29(th));
    p := Push(p, q);
    q := TableOdd(Mask30(th));
    p := Push(p, q);
    PushedInOrder(Odd(Mask25(th)), Odd(Mask26(th)), Odd(Mask27(th)), Odd(Mask28(th)), Odd(Mask29(th)), Odd(Mask30(th)));
  }

  lemma PushedInOrder(a: bool, b: bool, c: bool, d: bool, e: bool, f: bool)
    ensures Push(Push(Push(Push(Push(Bit(a), Bit(b)), Bit(c)), Bit(d)), Bit(e)), Bit(f)) == Pack(a, b, c, d, e, f)
  {}

  // ---------- the standard ----------

  // The bits of a word by their names in the standard.
  predicate D29s(w: Word) { w.bits & 0x80000000 != 0 }
  predicate D30s(w: Word) { w.bits & 0x40000000 != 0 }
  predicate D1(w: Word) { w.bits & 0x20000000 != 0 }
  predicate D2(w: Word) { w.bits & 0x10000000 != 0 }
  predicate D3(w: Word) { w.bits & 0x08000000 != 0 }
  predicate D4(w: Word) { w.bits & 0x04000000 != 0 }
  predicate D5(w: Word) { w.bits & 0x02000000 != 0 }
  predicate D6(w: Word) { w.bits & 0x01000000 != 0 }
  predicate D7(w: Word) { w.bits & 0x00800000 != 0 }
  predicate D8(w: Word) { w.bits & 0x00400000 != 0 }
  predicate D9(w: Word) { w.bits & 0x00200000 != 0 }
  predicate D10(w: Word) { w.bits & 0x00100000 != 0 }
  predicate D11(w: Word) { w.bits & 0x00080000 != 0 }
  predicate D12(w: Word) { w.bits & 0x00040000 != 0 }
  predicate D13(w: Word) { w.bits & 0x00020000 != 0 }
  predicate D14(w: Word) { w.bits & 0x00010000 != 0 }
  predicate D15(w: Word) { w.bits & 0x00008000 != 0 }
  predicate D16(w: Word) { w.bits & 0x00004000 != 0 }
  predicate D17(w: Word) { w.bits & 0x00002000 != 0 }
  predicate D18(w: Word) { w.bits & 0x00001000 != 0 }
  predicate D19(w: Word) { w.bits & 0x00000800 != 0 }
  predicate D20(w: Word) { w.bits & 0x00000400 != 0 }
  predicate D21(w: Word) { w.bits & 0x00000200 != 0 }
  predicate D22(w: Word) { w.bits & 0x00000100 != 0 }
  predicate D23(w: Word) { w.bits & 0x00000080 != 0 }
  predicate D24(w: Word) { w.bits & 0x00000040 != 0 }

  // The masks are the parity equations of IS-GPS-200, Table 20-XIV.
  lemma Equation25(w: Word)
    ensures Odd(Mask25(w)) ==
            (((((D29s(w) != D1(w)) != D2(w)) != ((D3(w) != D5(w)) != D6(w)))
              != (((D10(w) != D11(w)) != D12(w)) != (D13(w) != D14(w))))
             != (((D17(w) != D18(w)) != D20(w)) != D23(w)))
  {}

  lemma Equation26(w: Word)
    ensures Odd(Mask26(w)) ==
            (((((D30s(w) != D2(w)) != D3(w)) != (D4(w) != D6(w)))
              != (((D7(w) != D11(w)) != D12(w)) != (D13(w) != D14(w))))
             != (((D15(w) != D18(w)) != (D19(w) != D21(w))) != D24(w)))
  {}

  lemma Equation27(w: Word)
    ensures Odd(Mask27(w)) ==
            (((((D29s(w) != D1(w)) != D3(w)) != (D4(w) != D5(w)))
              != (((D7(w) != D8(w)) != D12(w)) != (D13(w) != D14(w))))
             != ((((D15(w) != D16(w)) != D19(w)) != (D20(w) != D22(w))) != false))
  {}

  lemma Equation28(w: Word)
    ensures Odd(Mask28(w)) ==
            (((((D30s(w) != D2(w)) != D4(w)) != (D5(w) != D6(w)))
              != ((D8(w) != D9(w)) != (D13(w) != D14(w))))
             != ((((D15(w) != D16(w)) != D17(w)) != (D20(w) != D21(w))) != D23(w)))
  {}

  lemma Equation29(w: Word)
    ensures Odd(Mask29(w)) ==
            (((((D30s(w) != D1(w)) != D3(w)) != (D5(w) != D6(w)))
              != ((D7(w) != D9(w)) != (D10(w) != D14(w))))
             != ((((D15(w) != D16(w)) != D17(w)) != ((D18(w) != D21(w)) != D22(w))) != D24(w)))
  {}

  lemma Equation30(w: Word)
    ensures Odd(Mask30(w)) ==
            ((((D29s(w) != D3(w)) != (D5(w) != D6(w)))
              != (((D8(w) != D9(w)) != D10(w)) != (D11(w) != D13(w))))
             != (((D15(w) != D19(w)) != D22(w)) != (D23(w) != D24(w))))
  {}

  // ---------- error detection ----------

  function XorByte(x: Octet, y: Octet): Octet { Seal(x.bits ^ y.bits) }

  lemma OddByteXor(x: Octet, y: Octet)
    ensures OddByte(XorByte(x, y)) == (OddByte(x) != OddByte(y))
  {}

  lemma Byte3Xor(a: Word, b: Word)
    ensures Byte3(Xor(a, b)) == XorByte(Byte3(a), Byte3(b))
  {}

  lemma Byte2Xor(a: Word, b: Word)
    ensures Byte2(Xor(a, b)) == XorByte(Byte2(a), Byte2(b))
  {}

  lemma Byte1Xor(a: Word, b: Word)
    ensures Byte1(Xor(a, b)) == XorByte(Byte1(a), Byte1(b))
  {}

  lemma Byte0Xor(a: Word, b: Word)
    ensures Byte0(Xor(a, b)) == XorByte(Byte0(a), Byte0(b))
  {}

  /** Oddness is linear over exclusive or. */
  lemma OddXor(a: Word, b: Word)
    ensures Odd(Xor(a, b)) == (Odd(a) != Odd(b))
  {
    hide Xor, XorByte, OddByte, Byte0, Byte1, Byte2, Byte3;
    Byte3Xor(a, b);
    Byte2Xor(a, b);
    Byte1Xor(a, b);
    Byte0Xor(a, b);
    OddByteXor(Byte3(a), Byte3(b));
    OddByteXor(Byte2(a), Byte2(b));
    OddByteXor(Byte1(a), Byte1(b));
    OddByteXor(Byte0(a), Byte0(b));
  }

  // The parity bits a word arrives with.
  predicate Received25(w: Word) { w.bits & 0x20 != 0 }
  predicate Received26(w: Word) { w.bits & 0x10 != 0 }
  predicate Received27(w: Word) { w.bits & 0x08 != 0 }
  predicate Received28(w: Word) { w.bits & 0x04 != 0 }
  predicate Received29(w: Word) { w.bits & 0x02 != 0 }
  predicate Received30(w: Word) { w.bits & 0x01 != 0 }

  // What the parity check compares: each computed bit against the received one.
  predicate Mismatch25(w: Word) { Odd(Mask25(w)) != Received25(w) }
  predicate Mismatch26(w: Word) { Odd(Mask26(w)) != Received26(w) }
  predicate Mismatch27(w: Word) { Odd(Mask27(w)) != Received27(w) }
  predicate Mismatch28(w: Word) { Odd(Mask28(w)) != Received28(w) }
  predicate Mismatch29(w: Word) { Odd(Mask29(w)) != Received29(w) }
  predicate Mismatch30(w: Word) { Odd(Mask30(w)) != Received30(w) }

  lemma ParityOkBits(w: Word)
    ensures ParityOk(w) <==>
      !Mismatch25(w) && !Mismatch26(w) && !Mismatch27(w) && !Mismatch28(w) && !Mismatch29(w) && !Mismatch30(w)
  {
    hide Odd;
  }

  lemma MaskXor25(a: Word, b: Word)
    ensures Mask25(Xor(a, b)) == Xor(Mask25(a), Mask25(b))
    ensures Received25(Xor(a, b)) == (Received25(a) != Received25(b))
  {}

  lemma MaskXor26(a: Word, b: Word)
    ensures Mask26(Xor(a, b)) == Xor(Mask26(a), Mask26(b))
    ensures Received26(Xor(a, b)) == (Received26(a) != Received26(b))
  {}

  lemma MaskXor27(a: Word, b: Word)
    ensures Mask27(Xor(a, b)) == Xor(Mask27(a), Mask27(b))
    ensures Received27(Xor(a, b)) == (Received27(a) != Received27(b))
  {}

  lemma MaskXor28(a: Word, b: Word)
    ensures Mask28(Xor(a, b)) == Xor(Mask28(a), Mask28(b))
    ensures Received28(Xor(a, b)) == (Received28(a) != Received28(b))
  {}

  lemma MaskXor29(a: Word, b: Word)
    ensures Mask29(Xor(a, b)) == Xor(Mask29(a), Mask29(b))
    ensures Received29(Xor(a, b)) == (Received29(a) != Received29(b))
  {}

  lemma MaskXor30(a: Word, b: Word)
    ensures Mask30(Xor(a, b)) == Xor(Mask30(a), Mask30(b))
    ensures Received30(Xor(a, b)) == (Received30(a) != Received30(b))
  {}

  /** The syndrome is linear: an error's own mismatches are what it adds to those of the word it hits. */
  lemma SyndromeLinear(a: Word, b: Word)
    ensures Mismatch25(Xor(a, b)) == (Mismatch25(a) != Mismatch25(b))
    ensures Mismatch26(Xor(a, b)) == (Mismatch26(a) != Mismatch26(b))
    ensures Mismatch27(Xor(a, b)) == (Mismatch27(a) != Mismatch27(b))
    ensures Mismatch28(Xor(a, b)) == (Mismatch28(a) != Mismatch28(b))
    ensures Mismatch29(Xor(a, b)) == (Mismatch29(a) != Mismatch29(b))
    ensures Mismatch30(Xor(a, b)) == (Mismatch30(a) != Mismatch30(b))
  {
    hide Xor, Odd, Mask25, Mask26, Mask27, Mask28, Mask29, Mask30,
         Received25, Received26, Received27, Received28, Received29, Received30;
    MaskXor25(a, b);
    OddXor(Mask25(a), Mask25(b));
    MaskXor26(a, b);
    OddXor(Mask26(a), Mask26(b));
    MaskXor27(a, b);
    OddXor(Mask27(a), Mask27(b));
    MaskXor28(a, b);
    OddXor(Mask28(a), Mask28(b));
    MaskXor29(a, b);
    OddXor(Mask29(a), Mask29(b));
    MaskXor30(a, b);
    OddXor(Mask30(a), Mask30(b));
  }

  /** `e` with its lowest set bit cleared. */
  function DropLowest(e: Word): Word { Seal(e.bits & (e.bits - 1)) }

  predicate OneBit(e: Word) { e != ZERO && DropLowest(e) == ZERO }

  predicate TwoBits(e: Word) { DropLowest(e) != ZERO && DropLowest(DropLowest(e)) == ZERO }

  predicate ThreeBits(e: Word) {
    DropLowest(DropLowest(e)) != ZERO && DropLowest(DropLowest(DropLowest(e))) == ZERO
  }

  /** Between one and three bits of `e` are set, all among the 30 bits of one word. */
  predicate SmallError(e: Word) {
    e.bits & 0xc0000000 == 0 && (OneBit(e) || TwoBits(e) || ThreeBits(e))
  }

  lemma OneBitIsOdd(e: Word)
    requires OneBit(e)
    ensures Odd(e)
  {}

  lemma LowestBitSplitsOff(e: Word)
    requires e != ZERO
    ensures OneBit(Xor(e, DropLowest(e)))
    ensures Xor(Xor(e, DropLowest(e)), DropLowest(e)) == e
  {}

  lemma DropLowestFlips(e: Word)
    requires e != ZERO
    ensures Odd(DropLowest(e)) == !Odd(e)
  {
    hide Odd, Xor, DropLowest;
    LowestBitSplitsOff(e);
    OneBitIsOdd(Xor(e, DropLowest(e)));
    OddXor(Xor(e, DropLowest(e)), DropLowest(e));
  }

  lemma ZeroIsEven()
    ensures !Odd(ZERO)
  {}

  lemma ThreeBitsIsOdd(e: Word)
    requires ThreeBits(e)
    ensures Odd(e)
  {
    hide Odd;
    assert DropLowest(ZERO) == ZERO;
    hide DropLowest;
    ZeroIsEven();
    DropLowestFlips(e);
    DropLowestFlips(DropLowest(e));
    DropLowestFlips(DropLowest(DropLowest(e)));
  }

  lemma Masks2526(e: Word)
    ensures Xor(Mask25(e), Mask26(e)) == Seal(e.bits & 0xe690aec0)
  {}

  lemma Masks2728(e: Word)
    ensures Xor(Mask27(e), Mask28(e)) == Seal(e.bits & 0xf9a42b80)
  {}

  lemma Masks2930(e: Word)
    ensures Xor(Mask29(e), Mask30(e)) == Seal(e.bits & 0xe0cb7a80)
  {}

  lemma Masks2528(e: Word)
    ensures Xor(Seal(e.bits & 0xe690aec0), Seal(e.bits & 0xf9a42b80)) == Seal(e.bits & 0x1f348540)
  {}

  lemma MasksCover(e: Word)
    requires e.bits & 0xc0000000 == 0
    ensures Xor(Seal(e.bits & 0x1f348540), Seal(e.bits & 0xe0cb7a80)) == Data(e)
  {}

  lemma DataAndLow(x: bv32)
    requires x & 0xc0000000 == 0
    ensures Xor(Data(Seal(x)), Low6(Seal(x))) == Seal(x)
  {
    assert Xor(Data(Seal(x)), Low6(Seal(x))).bits == x;
  }

  lemma LowBitsOdd(e: Word)
    ensures Odd(Low6(e)) == ((Received25(e) != Received26(e)) != ((Received27(e) != Received28(e)) != (Received29(e) != Received30(e))))
  {}

  /** Every one of the 30 columns of the check has odd weight: the six mismatches together tell whether
      an error has an odd number of bits. */
  lemma ColumnsAreOdd(e: Word)
    requires e.bits & 0xc0000000 == 0
    ensures Odd(e) == ((Mismatch25(e) != Mismatch26(e)) != ((Mismatch27(e) != Mismatch28(e)) != (Mismatch29(e) != Mismatch30(e))))
  {
    hide Odd, Xor, Data, Low6, Mask25, Mask26, Mask27, Mask28, Mask29, Mask30,
         Received25, Received26, Received27, Received28, Received29, Received30;
    Masks2526(e);
    Masks2728(e);
    Masks2930(e);
    Masks2528(e);
    MasksCover(e);
    DataAndLow(e.bits);
    LowBitsOdd(e);
    OddXor(Mask25(e), Mask26(e));
    OddXor(Mask27(e), Mask28(e));
    OddXor(Mask29(e), Mask30(e));
    OddXor(Xor(Mask25(e), Mask26(e)), Xor(Mask27(e), Mask28(e)));
    OddXor(Xor(Xor(Mask25(e), Mask26(e)), Xor(Mask27(e), Mask28(e))), Xor(Mask29(e), Mask30(e)));
    OddXor(Data(e), Low6(e));
  }

  /** The columns are distinct: a double error shows. */
  lemma TwoBitsShow(e: Word)
    requires e.bits & 0xc0000000 == 0 && TwoBits(e)
    ensures Mismatch25(e) || Mismatch26(e) || Mismatch27(e) || Mismatch28(e) || Mismatch29(e) || Mismatch30(e)
  {}

  lemma SmallErrorsShow(e: Word)
    requires SmallError(e)
    ensures !ParityOk(e)
  {
    hide ParityOk, Odd, DropLowest, Mismatch25, Mismatch26, Mismatch27, Mismatch28, Mismatch29, Mismatch30;
    ParityOkBits(e);
    if TwoBits(e) {
      TwoBitsShow(e);
    } else {
      ColumnsAreOdd(e);
      if OneBit(e) {
        OneBitIsOdd(e);
      } else {
        ThreeBitsIsOdd(e);
      }
    }
  }

  /** A word that passes the parity check fails it once any one, two or three of its 30 bits are flipped. */
  lemma ErrorDetected(w: Word, e: Word)
    requires ParityOk(w) && SmallError(e)
    ensures !ParityOk(Xor(w, e))
  {
    hide Xor, SmallError, ParityOk, Mismatch25, Mismatch26, Mismatch27, Mismatch28, Mismatch29, Mismatch30;
    SmallErrorsShow(e);
    ParityOkBits(w);
    ParityOkBits(e);
    ParityOkBits(Xor(w, e));
    SyndromeLinear(w, e);
  }
}
