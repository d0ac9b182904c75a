/** Motorola S-records: the writer of srecord.c and the checker of gpsflash.c. */
module Srecord {
  import opened Bytes

  const MAX_BYTES_PER_RECORD: nat := 16
  const S: byte := 'S' as int

  // ---------- the writer ----------

  function HexAll(s: seq<byte>): (h: seq<byte>)
    ensures |h| == 2 * |s|
  {
    if s == [] then [] else HexAll(s[..|s| - 1]) + Hex2(s[|s| - 1])
  }

  /** The four bytes of an address. */
  function Address(offset: nat): seq<byte>
    requires offset < 0x1_0000_0000
  {
    [offset / 0x100_0000, offset / 0x1_0000 % 0x100, offset / 0x100 % 0x100, offset % 0x100]
  }

  /** Count, address and data, without the checksum. */
  function Summed(offset: nat, data: seq<byte>): (s: seq<byte>)
    requires offset < 0x1_0000_0000 && |data| <= MAX_BYTES_PER_RECORD
    ensures |s| == |data| + 5
  {
    [|data| + 5] + Address(offset) + data
  }

  /** The complement of the sum. */
  function Complement(s: seq<byte>): byte { 255 - Sum(s) % 256 }

  /** The line of a record, without its line end. */
  function Line(kind: byte, bytes: seq<byte>): (r: seq<byte>)
    ensures |r| == 2 * |bytes| + 2
  {
    [S, kind] + HexAll(bytes)
  }

  function Record(kind: byte, offset: nat, data: seq<byte>): seq<byte>
    requires offset < 0x1_0000_0000 && |data| <= MAX_BYTES_PER_RECORD
  {
    var s := Summed(offset, data);
    Line(kind, s + [Complement(s)]) + ['\r' as int, '\n' as int]
  }

  /** hexdump: the digits of the bytes, and zeros behind them. */
  method Hexdump(bbuf: seq<byte>, abuf: array<byte>)
    requires |bbuf| <= MAX_BYTES_PER_RECORD && abuf.Length == 2 * MAX_BYTES_PER_RECORD + 2
    modifies abuf
    ensures abuf[..2 * |bbuf|] == HexAll(bbuf) && forall k :: 2 * |bbuf| <= k < abuf.Length ==> abuf[k] == 0
  {
    hide HexDigit;
    forall k | 0 <= k < abuf.Length {
      abuf[k] := 0;
    }
    for i := 0 to |bbuf|
      invariant abuf[..2 * i] == HexAll(bbuf[..i])
      invariant forall k :: 2 * i <= k < abuf.Length ==> abuf[k] == 0
    {
      assert bbuf[..i + 1][..i] == bbuf[..i];
      ghost var before := abuf[..2 * i];
      abuf[2 * i] := HexDigit(bbuf[i] / 16);
      abuf[2 * i + 1] := HexDigit(bbuf[i] % 16);
      assert abuf[..2 * (i + 1)] == before + Hex2(bbuf[i]);
    }
    assert bbuf[..|bbuf|] == bbuf;
  }

  /** The head of sr_sum: count and address. */
  method HeadSum(count: byte, addr: nat) returns (sum: byte)
    requires addr < 0x1_0000_0000
    ensures sum == Sum([count] + Address(addr)) % 256
  {
    SumHead(count, addr);
    var b0, b1, b2, b3 := addr % 0x100, addr / 0x100 % 0x100, addr / 0x1_0000 % 0x100, addr / 0x100_0000;
    WrapAdd(count, b0);
    WrapAdd(count as int + b0, b1);
    WrapAdd(count as int + b0 + b1, b2);
    WrapAdd(count as int + b0 + b1 + b2, b3);
    hide Address;
    sum := count;
    sum := (sum as int + b0) % 256;
    sum := (sum as int + b1) % 256;
    sum := (sum as int + b2) % 256;
    sum := (sum as int + b3) % 256;
  }

  /** sr_sum: a sum that wraps around, complemented. */
  method SrSum(count: nat, addr: nat, bbuf: seq<byte>) returns (k: byte)
    requires addr < 0x1_0000_0000 && count == |bbuf| + 5 && |bbuf| <= MAX_BYTES_PER_RECORD
    ensures k == Complement(Summed(addr, bbuf))
  {
    hide Address;
    var sum := HeadSum(count, addr);
    ghost var head := [|bbuf| + 5] + Address(addr);
    for i := 0 to count - 5
      invariant sum == (Sum(head) + Sum(bbuf[..i])) % 256
    {
      assert bbuf[..i + 1][..i] == bbuf[..i];
      WrapAdd(Sum(head) + Sum(bbuf[..i]), bbuf[i]);
      sum := (sum as int + bbuf[i]) % 256;
    }
    assert bbuf[..|bbuf|] == bbuf;
    SumConcat(head, bbuf);
    k := 255 - sum;
  }

  lemma SumHead(n: byte, addr: nat)
    requires addr < 0x1_0000_0000
    ensures Sum([n] + Address(addr)) == n as int + addr / 0x100_0000 + addr / 0x1_0000 % 0x100 + addr / 0x100 % 0x100 + addr % 0x100
  {
    var a := Address(addr);
    assert [n] + a == [n, a[0], a[1], a[2], a[3]];
    SumFirst([n, a[0], a[1], a[2], a[3]]);
    SumFirst([a[0], a[1], a[2], a[3]]);
    SumFirst([a[1], a[2], a[3]]);
    SumFirst([a[2], a[3]]);
    SumFirst([a[3]]);
    assert [n, a[0], a[1], a[2], a[3]][1..] == [a[0], a[1], a[2], a[3]];
    assert [a[0], a[1], a[2], a[3]][1..] == [a[1], a[2], a[3]];
    assert [a[1], a[2], a[3]][1..] == [a[2], a[3]];
    assert [a[2], a[3]][1..] == [a[3]] && [a[3]][1..] == [];
  }

  /** bin2srec, with a type of one digit: a chunk of the wrong size is refused. */
  method Bin2srec(kind: nat, offset: nat, bbuf: seq<byte>) returns (result: int, sbuf: seq<byte>)
    requires kind < 10 && offset < 0x1_0000_0000
    ensures if 1 <= |bbuf| <= MAX_BYTES_PER_RECORD then result == 0 && sbuf == Record('0' as int + kind, offset, bbuf)
            else result == -1
    ensures result == 0 ==> Reads(sbuf, '0' as int + kind, offset, bbuf)
  {
    hide HexDigit, Complement, Reads;
    sbuf := [];
    if |bbuf| < 1 || |bbuf| > MAX_BYTES_PER_RECORD {
      return -1, sbuf;
    }
    var len := 4 + |bbuf| + 1;
    var abuf := new byte[2 * MAX_BYTES_PER_RECORD + 2];
    Hexdump(bbuf, abuf);
    var sum := SrSum(len, offset, bbuf);
    sbuf := [S, '0' as int + kind] + Hex2(len) + HexAll(Address(offset)) + abuf[..2 * |bbuf|] + Hex2(sum)
            + ['\r' as int, '\n' as int];
    RecordParts('0' as int + kind, offset, bbuf);
    RecordReads('0' as int + kind, offset, bbuf);
    result := 0;
  }

  lemma {:induction false} HexConcat(a: seq<byte>, b: seq<byte>)
    ensures HexAll(a + b) == HexAll(a) + HexAll(b)
    decreases |b|
  {
    hide Hex2;
    if b == [] {
      assert a + b == a;
    } else {
      assert (a + b)[..|a + b| - 1] == a + b[..|b| - 1];
      HexConcat(a, b[..|b| - 1]);
    }
  }

  lemma HexOne(b: byte)
    ensures HexAll([b]) == Hex2(b)
  {
    assert [b][..0] == [];
  }

  lemma {:induction false} RecordParts(kind: byte, offset: nat, data: seq<byte>)
    requires offset < 0x1_0000_0000 && |data| <= MAX_BYTES_PER_RECORD
    ensures Record(kind, offset, data) ==
            [S, kind] + Hex2(|data| + 5) + HexAll(Address(offset)) + HexAll(data)
            + Hex2(Complement(Summed(offset, data))) + ['\r' as int, '\n' as int]
  {
    hide Hex2, Complement, Address, HexAll;
    var s, c := Summed(offset, data), Complement(Summed(offset, data));
    var n := [|data| + 5];
    HexConcat(s, [c]);
    HexConcat(n + Address(offset), data);
    HexConcat(n, Address(offset));
    HexOne(|data| + 5);
    HexOne(c);
    var p, h, a, d := [S, kind], Hex2(|data| + 5), HexAll(Address(offset)), HexAll(data);
    assert HexAll(s + [c]) == h + a + d + Hex2(c);
    assert p + (h + a + d + Hex2(c)) == p + h + a + d + Hex2(c);
  }

  // ---------- what a record says ----------

  /** A number in hexadecimal digits. */
  function HexNumber(s: seq<byte>): Option<nat> {
    if s == [] then Some(0)
    else
      var high, low := HexNumber(s[..|s| - 1]), HexValue(s[|s| - 1]);
      if high == None || low == None then None else Some(16 * high.value + low.value)
  }

  /** To one who reads the digits, the line is a record of this type, which announces this many bytes and
      loads these data at this address. */
  predicate Reads(line: seq<byte>, kind: byte, offset: nat, data: seq<byte>) {
    && |line| == 2 * |data| + 16 && line[0] == 'S' as int && line[1] == kind
    && HexNumber(line[2..4]) == Some(|data| + 5)
    && HexNumber(line[4..12]) == Some(offset)
    && (forall i :: 0 <= i < |data| ==> HexNumber(line[12 + 2 * i..14 + 2 * i]) == Some(data[i] as nat))
    && line[|line| - 2..] == ['\r' as int, '\n' as int]
  }

  lemma {:induction false} NumberPair(s: seq<byte>, b: byte)
    requires HexNumber(s).Some?
    ensures HexNumber(s + Hex2(b)) == Some(256 * HexNumber(s).value + b)
  {
    HexPair(b);
    var t, h := s + Hex2(b), Hex2(b);
    assert t[..|t| - 1] == s + [h[0]] && t[..|t| - 1][..|s|] == s;
    assert HexNumber(s + [h[0]]) == Some(16 * HexNumber(s).value + b / 16) by {
      assert (s + [h[0]])[..|s|] == s;
    }
  }

  lemma PairNumber(b: byte)
    ensures HexNumber(Hex2(b)) == Some(b as nat)
  {
    hide Hex2;
    assert HexNumber([]) == Some(0);
    NumberPair([], b);
    assert [] + Hex2(b) == Hex2(b);
  }

  lemma AddressNumber(offset: nat)
    requires offset < 0x1_0000_0000
    ensures HexNumber(HexAll(Address(offset))) == Some(offset)
  {
    hide Hex2, HexNumber;
    var a := Address(offset);
    var h1 := Hex2(a[0]);
    var h2 := h1 + Hex2(a[1]);
    var h3 := h2 + Hex2(a[2]);
    PairNumber(a[0]);
    NumberPair(h1, a[1]);
    NumberPair(h2, a[2]);
    NumberPair(h3, a[3]);
    HexOne(a[0]);
    HexConcat([a[0]], [a[1]]);
    HexOne(a[1]);
    HexConcat([a[0], a[1]], [a[2]]);
    HexOne(a[2]);
    HexConcat([a[0], a[1], a[2]], [a[3]]);
    HexOne(a[3]);
    assert [a[0]] + [a[1]] == [a[0], a[1]] && [a[0], a[1]] + [a[2]] == [a[0], a[1], a[2]];
    assert [a[0], a[1], a[2]] + [a[3]] == a;
    AddressBytes(offset);
  }

  lemma AddressBytes(offset: nat)
    requires offset < 0x1_0000_0000
    ensures var a := Address(offset);
            |a| == 4 && 256 * (256 * (256 * (a[0] as int) + a[1]) + a[2]) + a[3] == offset
  {}

  /** Every record says what it was made from. */
  lemma RecordReads(kind: byte, offset: nat, data: seq<byte>)
    requires offset < 0x1_0000_0000 && |data| <= MAX_BYTES_PER_RECORD
    ensures Reads(Record(kind, offset, data), kind, offset, data)
  {
    hide Hex2, HexNumber, HexAll, Address, Complement;
    RecordParts(kind, offset, data);
    PairNumber(|data| + 5);
    AddressNumber(offset);
    var r := Record(kind, offset, data);
    HexTwo(|data| + 5);
    HexTwo(Complement(Summed(offset, data)));
    assert |Address(offset)| == 4 by { AddressBytes(offset); }
    assert r[2..4] == Hex2(|data| + 5) && r[4..12] == HexAll(Address(offset));
    assert r[12..12 + 2 * |data|] == HexAll(data);
    forall i | 0 <= i < |data| ensures HexNumber(r[12 + 2 * i..14 + 2 * i]) == Some(data[i] as nat) {
      HexAllAt(data, i);
      PairNumber(data[i]);
      var h := r[12..12 + 2 * |data|];
      assert h[2 * i] == r[12 + 2 * i] && h[2 * i + 1] == r[12 + 2 * i + 1];
      HexTwo(data[i]);
      assert r[12 + 2 * i..14 + 2 * i] == Hex2(data[i]);
    }
  }

  lemma HexTwo(b: byte)
    ensures |Hex2(b)| == 2
  {}

  // ---------- the checker ----------

  function HexValue(c: byte): Option<nat> {
    if 'a' as int <= c <= 'f' as int then Some(c as int + 10 - 'a' as int)
    else if 'A' as int <= c <= 'F' as int then Some(c as int + 10 - 'A' as int)
    else if '0' as int <= c <= '9' as int then Some(c as int - '0' as int)
    else None
  }

  /** hex2bin: two digits as a number, or -1. */
  function Hex2Bin(a: byte, b: byte): int {
    if HexValue(a) == None || HexValue(b) == None then -1 else HexValue(a).value * 16 + HexValue(b).value
  }

  /** The buffer is filled up with zeros. */
  function HexAt(buf: seq<byte>, i: nat): int {
    Hex2Bin(if i < |buf| then buf[i] else 0, if i + 1 < |buf| then buf[i + 1] else 0)
  }

  function SumPairs(buf: seq<byte>, i: nat, end: nat): int
    decreases end - i
  {
    if i >= end then 0 else HexAt(buf, i) + SumPairs(buf, i + 2, end)
  }

  /** A line begins with an S, announces its length, and ends in the complement of its sum. A line of one
      character, for which the checker reads in front of its buffer, is taken to fail. */
  predicate LineOk(buf: seq<byte>) {
    var n := |buf|;
    && n >= 2 && buf[0] == S
    && HexAt(buf, 2) == (if n >= 4 then (n - 4) / 2 else -((4 - n) / 2))
    && HexAt(buf, n - 2) == 255 - SumPairs(buf, 2, n - 2) % 256
  }

  /** What sscanf's "%80s" takes, once blanks are skipped. */
  function Token(d: seq<byte>, limit: nat): (t: seq<byte>)
    ensures |t| <= |d|
  {
    if d == [] || IsSpace(d[0]) || limit == 0 then [] else [d[0]] + Token(d[1..], limit - 1)
  }

  function Unspaced(d: seq<byte>): (t: seq<byte>)
    ensures |t| <= |d|
  {
    if d == [] || !IsSpace(d[0]) then d else Unspaced(d[1..])
  }

  function NextRecord(d: seq<byte>): (t: seq<byte>)
    ensures |t| <= |d|
  {
    if d == [] || d[0] == S then d else NextRecord(d[1..])
  }

  /** All lines of a firmware image are sound. */
  predicate AllOk(data: seq<byte>)
    decreases |data|
  {
    data == [] ||
    var buf := Token(Unspaced(data), 80);
    buf != [] && LineOk(buf) && AllOk(NextRecord(data[|buf|..]))
  }

  /** The sum of the pairs of a line. */
  method PairSum(buf: seq<byte>) returns (y: int)
    requires |buf| >= 2
    ensures y == SumPairs(buf, 2, |buf| - 2)
  {
    hide HexAt;
    var n := |buf|;
    y := 0;
    var i := 2;
    while i < n - 2
      invariant i >= 2 && y + SumPairs(buf, i, n - 2) == SumPairs(buf, 2, n - 2)
      decreases n - i
    {
      y := y + HexAt(buf, i);
      i := i + 2;
    }
  }

  /** srec_check: true means that something is wrong. */
  method SrecCheck(data: seq<byte>) returns (bad: bool)
    ensures bad == !AllOk(data)
  {
    hide HexAt, SumPairs, Token, Unspaced, NextRecord;
    var rest := data;
    while rest != []
      invariant AllOk(data) == AllOk(rest)
      decreases |rest|
    {
      var buf := Token(Unspaced(rest), 80);
      var n := |buf|;
      if n < 1 {
        return true;
      }
      rest := NextRecord(rest[n..]);
      if n < 2 || buf[0] != S {
        return true;
      }
      var x, y := HexAt(buf, 2), if n >= 4 then (n - 4) / 2 else -((4 - n) / 2);
      if x != y {
        return true;
      }
      x := HexAt(buf, n - 2);
      y := PairSum(buf);
      y := 255 - y % 256;
      if x != y {
        return true;
      }
    }
    bad := false;
  }

  // ---------- the two together ----------

  lemma HexPair(b: byte)
    ensures Hex2Bin(Hex2(b)[0], Hex2(b)[1]) == b
    ensures HexValue(Hex2(b)[0]) == Some(b / 16) && HexValue(Hex2(b)[1]) == Some(b % 16)
  {}

  /** Where the digits of a byte are. */
  lemma {:induction false} HexAllAt(s: seq<byte>, i: nat)
    requires i < |s|
    ensures HexAll(s)[2 * i] == Hex2(s[i])[0] && HexAll(s)[2 * i + 1] == Hex2(s[i])[1]
    decreases |s|
  {
    hide Hex2;
    if i < |s| - 1 {
      HexAllAt(s[..|s| - 1], i);
    }
  }

  /** The line holds these bytes, whatever digits they are written with. */
  predicate Holds(buf: seq<byte>, bytes: seq<byte>) {
    |buf| == 2 * |bytes| + 2 && buf[0] == S && forall i :: 0 <= i < |bytes| ==> HexAt(buf, 2 + 2 * i) == bytes[i]
  }

  lemma LineHolds(kind: byte, bytes: seq<byte>)
    ensures Holds(Line(kind, bytes), bytes)
  {
    hide Hex2, HexAll, Hex2Bin;
    var buf := Line(kind, bytes);
    forall i | 0 <= i < |bytes| ensures HexAt(buf, 2 + 2 * i) == bytes[i] {
      HexAllAt(bytes, i);
      HexPair(bytes[i]);
      assert buf[2 + 2 * i] == HexAll(bytes)[2 * i] && buf[2 + 2 * i + 1] == HexAll(bytes)[2 * i + 1];
    }
  }

  lemma {:induction false} PairsSum(buf: seq<byte>, bytes: seq<byte>, k: nat)
    requires Holds(buf, bytes) && k <= |bytes| - 1
    ensures SumPairs(buf, 2 + 2 * k, |buf| - 2) == Sum(bytes[k..|bytes| - 1])
    decreases |bytes| - k
  {
    hide HexAt;
    var rest := bytes[k..|bytes| - 1];
    if k < |bytes| - 1 {
      assert HexAt(buf, 2 + 2 * k) == bytes[k];
      PairsSum(buf, bytes, k + 1);
      SumFirst(rest);
      assert rest[1..] == bytes[k + 1..|bytes| - 1];
    }
  }

  /** A line is sound exactly if its first byte counts the others and its last is the complement of the
      sum of all before it. */
  lemma LineOkIs(buf: seq<byte>, bytes: seq<byte>)
    requires Holds(buf, bytes) && |bytes| >= 2
    ensures LineOk(buf) <==> bytes[0] == |bytes| - 1 && bytes[|bytes| - 1] == Complement(bytes[..|bytes| - 1])
  {
    hide HexAt, SumPairs;
    PairsSum(buf, bytes, 0);
    assert bytes[0..|bytes| - 1] == bytes[..|bytes| - 1];
    assert HexAt(buf, 2 + 2 * 0) == bytes[0];
    assert HexAt(buf, 2 + 2 * (|bytes| - 1)) == bytes[|bytes| - 1];
    assert |buf| - 2 == 2 + 2 * (|bytes| - 1);
  }

  /** A record, and a digit written over one of its own behind the type. */
  datatype Item = Item(kind: byte, offset: nat, data: seq<byte>, damage: Option<(nat, byte)>)

  function AllBytes(x: Item): (s: seq<byte>)
    requires x.offset < 0x1_0000_0000 && |x.data| <= MAX_BYTES_PER_RECORD
    ensures |s| == |x.data| + 6
  {
    var s := Summed(x.offset, x.data);
    s + [Complement(s)]
  }

  predicate WellFormed(x: Item) {
    && '0' as int <= x.kind <= '9' as int && x.offset < 0x1_0000_0000 && 1 <= |x.data| <= MAX_BYTES_PER_RECORD
    && (x.damage.Some? ==>
          2 <= x.damage.value.0 < 2 * |x.data| + 14 && HexValue(x.damage.value.1).Some?
          && HexValue(x.damage.value.1) != HexValue(Line(x.kind, AllBytes(x))[x.damage.value.0]))
  }

  function Received(x: Item): (r: seq<byte>)
    requires WellFormed(x)
    ensures |r| == 2 * |x.data| + 14
  {
    var line := Line(x.kind, AllBytes(x));
    if x.damage.None? then line else line[x.damage.value.0 := x.damage.value.1]
  }

  /** A changed digit changes its byte. */
  lemma DamagedByte(a: byte, b: byte, c: byte)
    requires HexValue(a).Some? && HexValue(b).Some? && HexValue(c).Some?
    ensures 0 <= Hex2Bin(a, b) < 256
    ensures HexValue(c) != HexValue(a) ==> Hex2Bin(c, b) != Hex2Bin(a, b) && 0 <= Hex2Bin(c, b) < 256
    ensures HexValue(c) != HexValue(b) ==> Hex2Bin(a, c) != Hex2Bin(a, b) && 0 <= Hex2Bin(a, c) < 256
  {}

  lemma DamageHolds(x: Item) returns (bytes: seq<byte>, j: nat)
    requires WellFormed(x) && x.damage.Some?
    ensures j < |AllBytes(x)| == |bytes| && AllBytes(x)[j] != bytes[j] && bytes == AllBytes(x)[j := bytes[j]]
    ensures Holds(Received(x), bytes)
  {
    hide Hex2, HexAll, Hex2Bin, HexValue, Complement, Summed;
    var was := AllBytes(x);
    var line, p, c := Line(x.kind, was), x.damage.value.0, x.damage.value.1;
    j := (p - 2) / 2;
    var got := Received(x);
    LineHolds(x.kind, was);
    assert HexAt(line, 2 + 2 * j) == was[j];
    assert was[j] as int == Hex2Bin(line[2 + 2 * j], line[2 + 2 * j + 1]);
    DigitsAt(x.kind, was, j);
    DamagedByte(line[2 + 2 * j], line[2 + 2 * j + 1], c);
    assert p == 2 + 2 * j || p == 2 + 2 * j + 1;
    bytes := was[j := HexAt(got, 2 + 2 * j)];
    forall i | 0 <= i < |bytes| ensures HexAt(got, 2 + 2 * i) == bytes[i] {
      assert HexAt(line, 2 + 2 * i) == was[i];
    }
  }

  lemma DigitsAt(kind: byte, bytes: seq<byte>, j: nat)
    requires j < |bytes|
    ensures var line := Line(kind, bytes); HexValue(line[2 + 2 * j]).Some? && HexValue(line[2 + 2 * j + 1]).Some?
  {
    hide HexAll, Hex2;
    HexAllAt(bytes, j);
    HexPair(bytes[j]);
  }

  /** A record is found sound exactly if no digit of it was changed. */
  lemma DamageShows(x: Item)
    requires WellFormed(x)
    ensures LineOk(Received(x)) <==> x.damage.None?
  {
    hide LineOk, Holds, HexAll, HexValue, Sum;
    var was := AllBytes(x);
    var n := |was| - 1;
    assert was[..n] == Summed(x.offset, x.data) && was[0] == n && was[n] == Complement(was[..n]);
    if x.damage.None? {
      LineHolds(x.kind, was);
      LineOkIs(Received(x), was);
    } else {
      var bytes, j := DamageHolds(x);
      LineOkIs(Received(x), bytes);
      if 0 < j < n {
        assert bytes[..n] == was[..n][j := bytes[j]];
        SumUpdate(was[..n], j, bytes[j]);
        ModDiffers(Sum(was[..n]), Sum(bytes[..n]));
      } else if j == n {
        assert bytes[..n] == was[..n];
      }
    }
  }

  // ---------- whole images ----------

  const LINE_END: seq<byte> := ['\r' as int, '\n' as int]

  function Image(xs: seq<Item>): seq<byte>
    requires forall k :: 0 <= k < |xs| ==> WellFormed(xs[k])
  {
    if xs == [] then [] else Received(xs[0]) + LINE_END + Image(xs[1..])
  }

  lemma {:induction false} TokenIs(t: seq<byte>, rest: seq<byte>, limit: nat)
    requires |t| <= limit && (forall k :: 0 <= k < |t| ==> !IsSpace(t[k])) && (rest == [] || IsSpace(rest[0]))
    ensures Token(t + rest, limit) == t
    decreases |t|
  {
    if t == [] {
      assert t + rest == rest;
    } else {
      assert (t + rest)[1..] == t[1..] + rest;
      TokenIs(t[1..], rest, limit - 1);
    }
  }

  lemma {:induction false} HexDigitsOnly(s: seq<byte>)
    ensures forall k :: 0 <= k < |HexAll(s)| ==> HexValue(HexAll(s)[k]).Some?
    decreases |s|
  {
    hide Hex2;
    if s != [] {
      HexDigitsOnly(s[..|s| - 1]);
      HexPair(s[|s| - 1]);
    }
  }

  lemma HexIsNoSpace(c: byte)
    requires HexValue(c).Some?
    ensures !IsSpace(c)
  {}

  lemma ReceivedPlain(x: Item)
    requires WellFormed(x)
    ensures Received(x)[0] == S && |Received(x)| <= 80
    ensures forall k :: 0 <= k < |Received(x)| ==> !IsSpace(Received(x)[k])
  {
    hide HexAll, HexValue, Complement, Summed;
    HexDigitsOnly(AllBytes(x));
    var line, r := Line(x.kind, AllBytes(x)), Received(x);
    forall k | 0 <= k < |r| ensures !IsSpace(r[k]) {
      if k >= 2 {
        assert line[k] == HexAll(AllBytes(x))[k - 2];
        HexIsNoSpace(r[k]);
      }
    }
  }

  lemma AllOkNext(r: seq<byte>, rest: seq<byte>)
    requires r != [] && r[0] == S && |r| <= 80 && forall k :: 0 <= k < |r| ==> !IsSpace(r[k])
    requires rest == [] || rest[0] == S
    ensures AllOk(r + LINE_END + rest) <==> LineOk(r) && AllOk(rest)
  {
    var data := r + LINE_END + rest;
    var tail := LINE_END + rest;
    assert data == r + tail && data[|r|..] == tail;
    assert Unspaced(data) == data by {
      assert data[0] == S;
    }
    TokenIs(r, tail, 80);
    assert NextRecord(tail) == rest by {
      SkipToRecord(rest);
    }
    hide Token, Unspaced, NextRecord, LineOk;
  }

  lemma {:induction false} SkipToRecord(rest: seq<byte>)
    requires rest == [] || rest[0] == S
    ensures NextRecord(LINE_END + rest) == rest
  {
    var d := LINE_END + rest;
    assert d[1..] == ['\n' as int] + rest && d[1..][1..] == rest;
    assert NextRecord(d[1..]) == NextRecord(rest);
  }

  /** An image made of records is found sound exactly if no digit of any of them was changed. */
  lemma {:induction false} ImageChecked(xs: seq<Item>)
    requires forall k :: 0 <= k < |xs| ==> WellFormed(xs[k])
    ensures AllOk(Image(xs)) <==> forall k :: 0 <= k < |xs| ==> xs[k].damage.None?
    decreases |xs|
  {
    hide WellFormed, Received, LineOk;
    if xs != [] {
      hide AllOk;
      assert WellFormed(xs[0]);
      var rest := Image(xs[1..]);
      ReceivedPlain(xs[0]);
      DamageShows(xs[0]);
      ImageChecked(xs[1..]);
      if |xs| > 1 {
        assert WellFormed(xs[1]);
        ReceivedPlain(xs[1]);
        assert rest == Received(xs[1]) + LINE_END + Image(xs[1..][1..]);
      }
      AllOkNext(Received(xs[0]), rest);
      assert (forall k :: 0 <= k < |xs| ==> xs[k].damage.None?) <==>
             xs[0].damage.None? && forall k :: 0 <= k < |xs[1..]| ==> xs[1..][k].damage.None? by {
        assert forall k :: 1 <= k < |xs| ==> xs[k] == xs[1..][k - 1];
      }
    }
  }

  /** An undamaged record is what bin2srec writes. */
  lemma RecordReceived(x: Item)
    requires WellFormed(x) && x.damage.None?
    ensures Received(x) + LINE_END == Record(x.kind, x.offset, x.data)
  {}
}
