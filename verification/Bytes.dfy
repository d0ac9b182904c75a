/** Bytes, the sums taken over them, and DLE stuffing. */
module Bytes {
  type byte = x: int | 0 <= x < 256

  datatype Option<+T> = None | Some(value: T)

  const DLE: byte := 0x10
  const STX: byte := 0x02
  const ETX: byte := 0x03

  // ---------- the C library's character classes, in the C locale ----------

  predicate IsPrint(c: byte) { 0x20 <= c <= 0x7e }

  predicate IsSpace(c: byte) { c == 0x20 || 9 <= c <= 13 }

  predicate IsDigit(c: byte) { '0' as int <= c <= '9' as int }

  predicate IsAlpha(c: byte) { 'A' as int <= c <= 'Z' as int || 'a' as int <= c <= 'z' as int }

  function ToUpper(c: byte): byte {
    if 'a' as int <= c <= 'z' as int then c - 32 else c
  }

  /** The digits of "%02X". */
  function HexDigit(n: nat): byte
    requires n < 16
  {
    if n < 10 then '0' as int + n else 'A' as int + n - 10
  }

  /** The digits of "%d", for a number that is not negative. */
  function Decimal(n: nat): (s: seq<byte>)
    ensures s != []
  {
    (if n < 10 then [] else Decimal(n / 10)) + ['0' as int + n % 10]
  }

  const DIGITS: string := "0123456789ABCDEF"

  lemma HexDigitIs(n: nat)
    requires n < 16
    ensures HexDigit(n) == DIGITS[n] as int
  {}

  /** A byte in "%02X". */
  function Hex2(b: byte): seq<byte> { [HexDigit(b / 16), HexDigit(b % 16)] }

  // ---------- exclusive or ----------

  function Pow2(n: nat): nat {
    if n == 0 then 1 else 2 * Pow2(n - 1)
  }

  /** Exclusive or of the low `n` bits. */
  function XorLow(a: nat, b: nat, n: nat): (r: nat)
    ensures r < Pow2(n)
    decreases n
  {
    if n == 0 then 0 else 2 * XorLow(a / 2, b / 2, n - 1) + (a + b) % 2
  }

  /** Exclusive or of two bytes. */
  function Xor8(a: byte, b: byte): byte {
    assert Pow2(8) == 256;
    XorLow(a, b, 8)
  }

  function XorFold(acc: byte, s: seq<byte>): byte {
    if s == [] then acc else Xor8(XorFold(acc, s[..|s| - 1]), s[|s| - 1])
  }

  lemma OddSums(a: nat, b: nat, c: nat)
    ensures (a + b) % 2 == (a + c) % 2 <==> b % 2 == c % 2
    ensures b == c <==> b / 2 == c / 2 && b % 2 == c % 2
  {}

  lemma {:induction false} XorLowCancels(a: nat, b: nat, c: nat, n: nat)
    requires b < Pow2(n) && c < Pow2(n)
    ensures XorLow(a, b, n) == XorLow(a, c, n) <==> b == c
    decreases n
  {
    if n > 0 {
      XorLowCancels(a / 2, b / 2, c / 2, n - 1);
      OddSums(a, b, c);
    }
  }

  lemma {:induction false} XorLowSwaps(a: nat, b: nat, n: nat)
    ensures XorLow(a, b, n) == XorLow(b, a, n)
    decreases n
  {
    if n > 0 {
      XorLowSwaps(a / 2, b / 2, n - 1);
    }
  }

  /** A different byte on either side gives a different exclusive or. */
  lemma XorCancels(a: byte, b: byte, c: byte)
    ensures Xor8(a, b) == Xor8(a, c) <==> b == c
    ensures Xor8(b, a) == Xor8(c, a) <==> b == c
  {
    assert Pow2(8) == 256;
    hide XorLow, Pow2;
    XorLowCancels(a, b, c, 8);
    XorLowSwaps(a, b, 8);
    XorLowSwaps(a, c, 8);
  }

  lemma XorNext(acc: byte, s: seq<byte>, c: byte)
    ensures XorFold(acc, s + [c]) == Xor8(XorFold(acc, s), c)
  {
    assert (s + [c])[..|s|] == s;
  }

  /** Changing one byte changes the exclusive or of all. */
  lemma {:induction false} XorUpdate(acc: byte, s: seq<byte>, i: nat, b: byte)
    requires i < |s| && s[i] != b
    ensures XorFold(acc, s[i := b]) != XorFold(acc, s)
    decreases |s|
  {
    hide Xor8;
    var n := |s| - 1;
    if i == n {
      assert s[i := b][..n] == s[..n];
      XorCancels(XorFold(acc, s[..n]), b, s[n]);
    } else {
      assert s[i := b][..n] == s[..n][i := b];
      XorUpdate(acc, s[..n], i, b);
      XorCancels(s[n], XorFold(acc, s[..n][i := b]), XorFold(acc, s[..n]));
    }
  }

  /** A byte in front is where the exclusive or starts from. */
  lemma {:induction false} XorPrefixed(acc: byte, s: seq<byte>)
    ensures XorFold(0, [acc] + s) == XorFold(acc, s)
    decreases |s|
  {
    if s == [] {
      assert ([acc] + s)[..0] == [] && [acc] + s == [acc];
      XorZero(acc);
    } else {
      hide Xor8;
      var n := |s| - 1;
      assert ([acc] + s)[..n + 1] == [acc] + s[..n];
      XorPrefixed(acc, s[..n]);
    }
  }

  lemma XorZero(a: byte)
    ensures Xor8(0, a) == a
  {
    assert Pow2(8) == 256;
    hide Pow2;
    XorLowZero(a, 8);
  }

  lemma {:induction false} XorLowZero(a: nat, n: nat)
    requires a < Pow2(n)
    ensures XorLow(0, a, n) == a
    decreases n
  {
    if n > 0 {
      XorLowZero(a / 2, n - 1);
    }
  }

  /** Two starting values give the same result only if they are the same. */
  lemma {:induction false} XorStart(a: byte, b: byte, s: seq<byte>)
    ensures XorFold(a, s) == XorFold(b, s) <==> a == b
    decreases |s|
  {
    if s != [] {
      hide Xor8;
      var n := |s| - 1;
      XorStart(a, b, s[..n]);
      XorCancels(s[n], XorFold(a, s[..n]), XorFold(b, s[..n]));
    }
  }

  /** Or of the low `n` bits. */
  function OrLow(a: nat, b: nat, n: nat): (r: nat)
    ensures r < Pow2(n)
    decreases n
  {
    if n == 0 then 0 else 2 * OrLow(a / 2, b / 2, n - 1) + if a % 2 == 1 || b % 2 == 1 then 1 else 0
  }

  function Or8(a: byte, b: byte): byte {
    assert Pow2(8) == 256;
    OrLow(a, b, 8)
  }

  lemma {:induction false} OrLowZero(a: nat, n: nat)
    requires a < Pow2(n)
    ensures OrLow(a, 0, n) == a
    decreases n
  {
    if n > 0 {
      OrLowZero(a / 2, n - 1);
    }
  }

  /** Where `a` has zeros under all of `b`, or is addition. */
  lemma {:induction false} OrLowAdds(q: nat, b: nat, k: nat, n: nat)
    requires k <= n && b < Pow2(k) && q * Pow2(k) < Pow2(n)
    ensures OrLow(q * Pow2(k), b, n) == q * Pow2(k) + b
    decreases n
  {
    if k == 0 {
      OrLowZero(q, n);
    } else {
      var h := q * Pow2(k - 1);
      assert q * Pow2(k) == 2 * h;
      OrLowAdds(q, b / 2, k - 1, n - 1);
    }
  }

  function Sum(s: seq<byte>): nat {
    if s == [] then 0 else Sum(s[..|s| - 1]) + s[|s| - 1]
  }

  lemma {:induction false} SumConcat(a: seq<byte>, b: seq<byte>)
    ensures Sum(a + b) == Sum(a) + Sum(b)
    decreases |b|
  {
    if b == [] {
      assert a + b == a;
    } else {
      assert (a + b)[..|a + b| - 1] == a + b[..|b| - 1];
      SumConcat(a, b[..|b| - 1]);
    }
  }

  lemma SumFirst(s: seq<byte>)
    requires s != []
    ensures Sum(s) == s[0] as int + Sum(s[1..])
  {
    var one := [s[0]];
    assert s == one + s[1..] && one[..0] == [];
    SumConcat(one, s[1..]);
    assert Sum(one) == s[0];
  }

  /** A sum kept in a byte. */
  lemma WrapAdd(x: int, y: int)
    ensures (x % 256 + y) % 256 == (x + y) % 256
  {
    WrapIs(x % 256 + y, (x + y) / 256 - x / 256, (x + y) % 256);
  }

  lemma WrapIs(v: int, q: int, r: int)
    requires v == 256 * q + r && 0 <= r < 256
    ensures v % 256 == r
  {}

  /** Changing one byte changes the sum by the difference. */
  lemma SumUpdate(s: seq<byte>, i: nat, b: byte)
    requires i < |s|
    ensures Sum(s[i := b]) == Sum(s) - s[i] + b
  {
    assert s == s[..i] + [s[i]] + s[i + 1..];
    assert s[i := b] == s[..i] + [b] + s[i + 1..];
    SumConcat(s[..i] + [s[i]], s[i + 1..]);
    SumConcat(s[..i] + [b], s[i + 1..]);
    SumConcat(s[..i], [s[i]]);
    SumConcat(s[..i], [b]);
  }

  // ---------- DLE stuffing ----------

  /** One byte, doubled if it is a DLE. */
  function Stuff1(b: byte): seq<byte> {
    if b == DLE then [DLE, DLE] else [b]
  }

  /** Every DLE doubled. */
  function Stuff(u: seq<byte>): (s: seq<byte>)
    ensures |u| <= |s| <= 2 * |u|
  {
    if u == [] then [] else Stuff(u[..|u| - 1]) + Stuff1(u[|u| - 1])
  }

  lemma StuffNothing()
    ensures Stuff([]) == []
  {}

  lemma {:induction false} StuffConcat(u: seq<byte>, v: seq<byte>)
    ensures Stuff(u + v) == Stuff(u) + Stuff(v)
    decreases |v|
  {
    if v == [] {
      assert u + v == u;
    } else {
      assert (u + v)[..|u + v| - 1] == u + v[..|v| - 1];
      StuffConcat(u, v[..|v| - 1]);
      assert Stuff(u) + Stuff(v) == Stuff(u) + Stuff(v[..|v| - 1]) + Stuff1(v[|v| - 1]);
    }
  }

  lemma StuffFirst(u: seq<byte>)
    requires u != []
    ensures Stuff(u) == Stuff1(u[0]) + Stuff(u[1..])
  {
    assert u == [u[0]] + u[1..];
    StuffConcat([u[0]], u[1..]);
    assert [u[0]][..0] == [];
    assert Stuff([u[0]]) == Stuff1(u[0]);
  }

  /** Reads `k` stuffed bytes of `s` from position `n`; gives up at an unpaired DLE or the end. */
  function Take(s: seq<byte>, n: nat, k: nat): Option<(seq<byte>, nat)>
    decreases k
  {
    if k == 0 then Some(([], n))
    else if n >= |s| then None
    else if s[n] == DLE && (n + 1 >= |s| || s[n + 1] != DLE) then None
    else
      var rest := Take(s, if s[n] == DLE then n + 2 else n + 1, k - 1);
      if rest == None then None else Some(([s[n]] + rest.value.0, rest.value.1))
  }

  /** From position `n` on, `s` is `u` stuffed and then DLE ETX. */
  predicate StuffedFrom(s: seq<byte>, n: nat, u: seq<byte>) {
    n <= |s| && s[n..] == Stuff(u) + [DLE, ETX]
  }

  /** One stuffed byte further on. */
  lemma StuffedStep(s: seq<byte>, n: nat, u: seq<byte>)
    requires StuffedFrom(s, n, u) && u != []
    ensures n + 2 < |s| && s[n] == u[0]
    ensures s[n] == DLE ==> s[n + 1] == DLE
    ensures StuffedFrom(s, if s[n] == DLE then n + 2 else n + 1, u[1..])
  {
    StuffFirst(u);
    var m := if u[0] == DLE then n + 2 else n + 1;
    assert s[n..] == Stuff1(u[0]) + (Stuff(u[1..]) + [DLE, ETX]);
    assert s[n] == s[n..][0];
    assert u[0] == DLE ==> s[n + 1] == s[n..][1];
    assert s[m..] == s[n..][m - n..];
  }

  lemma StuffedEnd(s: seq<byte>, n: nat)
    requires StuffedFrom(s, n, [])
    ensures n + 2 == |s| && s[n] == DLE && s[n + 1] == ETX
  {
    assert s[n..] == [DLE, ETX];
    assert s[n] == s[n..][0] && s[n + 1] == s[n..][1];
  }

  /** A walk over stuffed bytes gets all it asks for or meets the closing DLE ETX, and never passes it. */
  lemma {:induction false} TakeStuffed(s: seq<byte>, n: nat, u: seq<byte>, k: nat)
    requires StuffedFrom(s, n, u)
    ensures Take(s, n, k).Some? <==> k <= |u|
    ensures k <= |u| ==> Take(s, n, k).value.0 == u[..k] && StuffedFrom(s, Take(s, n, k).value.1, u[k..])
    decreases k
  {
    hide StuffedFrom, Stuff;
    if k == 0 {
      assert u[..0] == [] && u[0..] == u;
    } else if u == [] {
      StuffedEnd(s, n);
    } else {
      StuffedStep(s, n, u);
      TakeStuffed(s, if s[n] == DLE then n + 2 else n + 1, u[1..], k - 1);
      if k <= |u| {
        assert [u[0]] + u[1..][..k - 1] == u[..k];
        assert u[1..][k - 1..] == u[k..];
      }
    }
  }

  /** A difference of less than 256 does not vanish modulo 256. */
  lemma ModDiffers(x: nat, y: nat)
    requires x != y && -256 < x - y < 256
    ensures x % 256 != y % 256
  {}

  /** Pieces one behind the other. */
  function Flatten<T>(pieces: seq<seq<T>>): seq<T> {
    if pieces == [] then [] else pieces[0] + Flatten(pieces[1..])
  }
}
