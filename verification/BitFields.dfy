/** Words as bits, and bit-fields in them. */
module BitFields {
  import opened Bytes

  /** A 32-bit word, least significant bit first. */
  type Bits = b: seq<bool> | |b| == 32 witness seq(32, _ => false)

  /** A bit-field: which word, from which bit, how many bits. */
  datatype Loc = Loc(word: nat, off: nat, width: nat)

  predicate InWord(l: Loc) { 0 < l.width && l.off + l.width <= 32 }

  predicate Disjoint(l: Loc, m: Loc) {
    l.word != m.word || l.off + l.width <= m.off || m.off + m.width <= l.off
  }

  function Number(s: seq<bool>): nat {
    if s == [] then 0 else (if s[0] then 1 else 0) + 2 * Number(s[1..])
  }

  /** The low bits of a number in two's complement. */
  function Low(v: int, n: nat): (s: seq<bool>)
    ensures |s| == n
    decreases n
  {
    if n == 0 then [] else [v % 2 == 1] + Low(v / 2, n - 1)
  }

  lemma {:induction false} NumberLow(v: int, n: nat)
    ensures Pow2(n) > 0 && Number(Low(v, n)) == v % Pow2(n)
    decreases n
  {
    if n > 0 {
      var s := Low(v, n);
      assert s[1..] == Low(v / 2, n - 1);
      NumberLow(v / 2, n - 1);
      HalfMod(v, Pow2(n - 1));
    }
  }

  lemma HalfMod(v: int, p: nat)
    requires p > 0
    ensures v % (2 * p) == v % 2 + 2 * (v / 2 % p)
  {
    var h := v / 2;
    var q, r := h / p, h % p;
    assert h == q * p + r;
    assert v == q * (2 * p) + (2 * r + v % 2) by {
      assert v == 2 * h + v % 2 && 2 * (q * p) == q * (2 * p);
    }
    ModIs(v, 2 * p, q, 2 * r + v % 2);
  }

  lemma ModIs(v: int, n: nat, q: int, r: nat)
    requires n > 0 && v == q * n + r && r < n
    ensures v % n == r
  {
    var q', r' := v / n, v % n;
    assert v == q' * n + r';
    Distribute(q, q', n);
    NoMultiple(q - q', n, r' - r);
  }

  lemma Distribute(a: int, b: int, n: int)
    ensures (a - b) * n == a * n - b * n
  {}

  /** The only multiple of `n` between -n and n is zero. */
  lemma NoMultiple(d: int, n: nat, x: int)
    requires d * n == x && -(n as int) < x < n
    ensures x == 0
  {
    if d > 0 {
      Distribute(d, 1, n);
      Product(d - 1, n);
    } else if d < 0 {
      Distribute(0, d, n);
      Distribute(-d, 1, n);
      Product(-d - 1, n);
    }
  }

  lemma Product(a: nat, b: nat)
    ensures a * b >= 0
  {}

  lemma {:induction false} NumberBound(s: seq<bool>)
    ensures Number(s) < Pow2(|s|)
    decreases |s|
  {
    if s != [] {
      NumberBound(s[1..]);
    }
  }

  /** What a bit-field holds. */
  function Get(ws: seq<Bits>, l: Loc): nat
    requires l.word < |ws| && InWord(l)
  {
    Number(ws[l.word][l.off..l.off + l.width])
  }

  /** Assignment to a bit-field, which keeps the low bits. */
  function Put(ws: seq<Bits>, l: Loc, v: int): (r: seq<Bits>)
    requires l.word < |ws| && InWord(l)
    ensures |r| == |ws|
  {
    ws[l.word := ws[l.word][..l.off] + Low(v, l.width) + ws[l.word][l.off + l.width..]]
  }

  lemma GetPut(ws: seq<Bits>, l: Loc, v: int)
    requires l.word < |ws| && InWord(l)
    ensures Pow2(l.width) > 0 && Get(Put(ws, l, v), l) == v % Pow2(l.width)
  {
    var w := Put(ws, l, v)[l.word];
    assert w[l.off..l.off + l.width] == Low(v, l.width);
    NumberLow(v, l.width);
  }

  lemma GetPutOther(ws: seq<Bits>, l: Loc, v: int, m: Loc)
    requires l.word < |ws| && InWord(l) && m.word < |ws| && InWord(m) && Disjoint(l, m)
    ensures Get(Put(ws, l, v), m) == Get(ws, m)
  {
    var w, u := ws[m.word], Put(ws, l, v)[m.word];
    assert u[m.off..m.off + m.width] == w[m.off..m.off + m.width];
  }

  lemma GetBound(ws: seq<Bits>, l: Loc)
    requires l.word < |ws| && InWord(l)
    ensures Get(ws, l) < Pow2(l.width)
  {
    NumberBound(ws[l.word][l.off..l.off + l.width]);
  }

  /** A number of `n` bits read as signed. */
  function Signed(u: nat, n: nat): int
    requires n > 0
  {
    if u >= Pow2(n - 1) then u - Pow2(n) else u
  }
}
