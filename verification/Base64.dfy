/** The encoder and the strict decoder of bsd-base64.c. */
module Base64 {
  import opened Bytes

  const PAD: byte := '=' as int

  // ---------- the alphabet ----------

  type digit = v: int | 0 <= v < 64

  /** The character at a position of the alphabet. */
  function Digit(v: digit): (c: byte)
    ensures c != PAD && !IsSpace(c) && c != 0
  {
    if v < 26 then 'A' as int + v
    else if v < 52 then 'a' as int + v - 26
    else if v < 62 then '0' as int + v - 52
    else if v == 62 then '+' as int
    else '/' as int
  }

  /** Where strchr finds a character in the alphabet. */
  function Value(c: byte): Option<digit> {
    if 'A' as int <= c <= 'Z' as int then Some(c as int - 'A' as int)
    else if 'a' as int <= c <= 'z' as int then Some(c as int - 'a' as int + 26)
    else if '0' as int <= c <= '9' as int then Some(c as int - '0' as int + 52)
    else if c == '+' as int then Some(62)
    else if c == '/' as int then Some(63)
    else None
  }

  lemma ValueDigit(c: byte, v: digit)
    ensures Value(c) == Some(v) <==> c == Digit(v)
  {}

  const ALPHABET: seq<string> := ["ABCDEFGHIJKLMNOP", "QRSTUVWXYZabcdef", "ghijklmnopqrstuv", "wxyz0123456789+/"]

  /** The character at a position of the alphabet, as RFC 4648, table 1, lists it. */
  function Listed(v: digit): byte {
    Lengths();
    var c := ALPHABET[v / 16][v % 16];
    if c < 128 as char then c as int else 0
  }

  lemma Lengths()
    ensures |ALPHABET| == 4 && forall i :: 0 <= i < 4 ==> |ALPHABET[i]| == 16
  {}

  /** The encoder and the decoder use that alphabet. */
  lemma AlphabetIs(v: digit)
    ensures Digit(v) == Listed(v)
    ensures forall c: byte :: Value(c) == Some(v) <==> c == Listed(v)
  {
    RowIs(v / 16, v % 16);
    forall c: byte ensures Value(c) == Some(v) <==> c == Listed(v) {
      ValueDigit(c, v);
    }
  }

  lemma RowIs(i: nat, j: nat)
    requires i < 4 && j < 16
    ensures Digit(16 * i + j) == Listed(16 * i + j)
  {
    if i < 2 {
      UpperRow(i, j);
    } else {
      LowerRow(i, j);
    }
  }

  lemma UpperRow(i: nat, j: nat)
    requires i < 2 && j < 16
    ensures Digit(16 * i + j) == Listed(16 * i + j)
  {
    if i == 0 {
      assert ALPHABET[0] == "ABCDEFGHIJKLMNOP";
    } else {
      assert ALPHABET[1] == "QRSTUVWXYZabcdef";
    }
  }

  lemma LowerRow(i: nat, j: nat)
    requires 2 <= i < 4 && j < 16
    ensures Digit(16 * i + j) == Listed(16 * i + j)
  {
    if i == 2 {
      assert ALPHABET[2] == "ghijklmnopqrstuv";
    } else {
      assert ALPHABET[3] == "wxyz0123456789+/";
    }
  }

  function Strip(s: seq<byte>): (t: seq<byte>)
    ensures forall k :: 0 <= k < |t| ==> !IsSpace(t[k])
  {
    if s == [] then [] else (if IsSpace(s[0]) then [] else [s[0]]) + Strip(s[1..])
  }

  // ---------- the encoding ----------

  /** Four characters stand for the 24 bits of three bytes, the most significant first. */
  lemma QuadNumber(a: byte, b: byte, c: byte)
    ensures var q := Quad(a, b, c);
            exists v0: digit, v1: digit, v2: digit, v3: digit ::
              q == [Listed(v0), Listed(v1), Listed(v2), Listed(v3)]
              && ((v0 * 64 + v1) * 64 + v2) * 64 + v3 == (a as int * 256 + b) * 256 + c
  {
    var v0: digit, v1: digit := a / 4, a % 4 * 16 + b / 16;
    var v2: digit, v3: digit := b % 16 * 4 + c / 64, c % 64;
    AlphabetIs(v0);
    AlphabetIs(v1);
    AlphabetIs(v2);
    AlphabetIs(v3);
    hide Digit, Listed;
    assert Quad(a, b, c) == [Listed(v0), Listed(v1), Listed(v2), Listed(v3)];
  }

  /** Three bytes as four digits. */
  function Quad(a: byte, b: byte, c: byte): (q: seq<byte>)
    ensures |q| == 4
  {
    [Digit(a / 4), Digit(a % 4 * 16 + b / 16), Digit(b % 16 * 4 + c / 64), Digit(c % 64)]
  }

  /** Base 64 of section 4 of RFC 4648. */
  function Encode(d: seq<byte>): (e: seq<byte>)
    ensures |e| == (|d| + 2) / 3 * 4
    decreases |d|
  {
    if |d| >= 3 then Quad(d[0], d[1], d[2]) + Encode(d[3..])
    else if d != [] then Tail(d)
    else []
  }

  /** One or two bytes as digits and padding. */
  function Tail(d: seq<byte>): (q: seq<byte>)
    requires 1 <= |d| <= 2
    ensures |q| == 4
  {
    if |d| == 2 then Quad(d[0], d[1], 0)[..3] + [PAD] else Quad(d[0], 0, 0)[..2] + [PAD, PAD]
  }

  /** b64_ntop: -1 when the encoding and its NUL do not fit. */
  method B64Ntop(src: seq<byte>, target: array<byte>, targsize: nat) returns (result: int)
    requires targsize <= target.Length
    modifies target
    ensures var e := Encode(src);
            if |e| < targsize then result == |e| && target[..|e| + 1] == e + [0] else result == -1
    ensures target[targsize..] == old(target[targsize..])
  {
    hide Encode, Quad, Tail;
    var datalength, i := 0, 0;
    ghost var e := Encode(src);
    assert src[0..] == src;
    while |src| - i > 2
      invariant 0 <= i <= |src| && datalength <= targsize
      invariant e == target[..datalength] + Encode(src[i..])
      invariant target[targsize..] == old(target[targsize..])
    {
      EncodeQuad(src, i);
      var output := Quad(src[i], src[i + 1], src[i + 2]);
      if datalength + 4 > targsize {
        return -1;
      }
      datalength := Four(target, datalength, output, targsize);
      i := i + 3;
    }
    EncodeTail(src, i);
    if |src| - i != 0 {
      var output := Tail(src[i..]);
      if datalength + 4 > targsize {
        return -1;
      }
      datalength := Four(target, datalength, output, targsize);
    }
    assert e == target[..datalength];
    if datalength >= targsize {
      return -1;
    }
    target[datalength] := 0;
    result := datalength;
  }

  lemma {:induction false} EncodeQuad(src: seq<byte>, i: nat)
    requires i + 3 <= |src|
    ensures Encode(src[i..]) == Quad(src[i], src[i + 1], src[i + 2]) + Encode(src[i + 3..])
  {
    hide Quad;
    assert src[i..][3..] == src[i + 3..];
  }

  lemma {:induction false} EncodeTail(src: seq<byte>, i: nat)
    requires i <= |src| < i + 3
    ensures Encode(src[i..]) == if i == |src| then [] else Tail(src[i..])
  {
    hide Quad;
  }

  /** Four characters behind the first `n`. */
  method Four(target: array<byte>, n: nat, q: seq<byte>, ghost targsize: nat) returns (m: nat)
    requires |q| == 4 && n + 4 <= targsize <= target.Length
    modifies target
    ensures m == n + 4 && target[..m] == old(target[..n]) + q
    ensures target[targsize..] == old(target[targsize..])
  {
    target[n], target[n + 1], target[n + 2], target[n + 3] := q[0], q[1], q[2], q[3];
    m := n + 4;
  }

  // ---------- decoding ----------

  /** The bits of the last digit that do not yet make a byte, where they will stand in it. */
  function Part(v: seq<digit>): byte {
    match |v| % 4
    case 1 => (v[|v| - 1] as int) * 4
    case 2 => (v[|v| - 1] as int) % 16 * 16
    case 3 => (v[|v| - 1] as int) % 4 * 64
    case _ => 0
  }

  /** The bits a digit adds to the byte begun before it. */
  function High(n: nat, v: digit): byte {
    match n % 4
    case 1 => v / 16
    case 2 => v / 4
    case _ => v
  }

  /** The whole bytes a run of digits holds. */
  function Whole(v: seq<digit>): seq<byte> {
    if v == [] then []
    else
      var n := |v| - 1;
      PartFits(v[..n], v[n]);
      Whole(v[..n]) + if n % 4 == 0 then [] else [Part(v[..n]) + High(n, v[n])]
  }

  lemma PartFits(v: seq<digit>, d: digit)
    ensures |v| % 4 != 0 ==> 0 <= Part(v) as int + High(|v|, d) as int < 256
  {}

  lemma {:induction false} WholeAppend(v: seq<digit>, d: digit)
    ensures Whole(v + [d]) == Whole(v) + if |v| % 4 == 0 then [] else [Part(v) + High(|v|, d)]
  {
    hide Part, High;
    assert (v + [d])[..|v|] == v;
  }

  lemma PartLast(v: seq<digit>, w: seq<digit>)
    requires |v| % 4 == |w| % 4 && v != [] && w != [] && v[|v| - 1] == w[|w| - 1]
    ensures Part(v) == Part(w)
  {}

  /** Four digits make three bytes. */
  function Triple(v: seq<digit>): seq<byte>
    requires |v| == 4
  {
    [v[0] as int * 4 + v[1] / 16, v[1] as int % 16 * 16 + v[2] / 4, v[2] as int % 4 * 64 + v[3]]
  }

  lemma {:induction false} WholeFour(v: seq<digit>)
    requires |v| == 4
    ensures Whole(v) == Triple(v)
  {
    assert v == [] + [v[0]] + [v[1]] + [v[2]] + [v[3]];
    WholeAppend([], v[0]);
    WholeAppend([v[0]], v[1]);
    WholeAppend([v[0], v[1]], v[2]);
    WholeAppend([v[0], v[1], v[2]], v[3]);
    hide Whole;
    assert [v[0]] + [v[1]] == [v[0], v[1]] && [v[0], v[1]] + [v[2]] == [v[0], v[1], v[2]] && [v[0], v[1], v[2]] + [v[3]] == v;
    assert Whole([]) == [] by { WholeNothing(); }
  }

  lemma {:induction false} WholeNothing()
    ensures Whole([]) == []
  {}

  /** Digits after the first four are decoded as if they stood alone. */
  lemma {:induction false} WholePrefix(q: seq<digit>, v: seq<digit>)
    requires |q| == 4
    ensures Whole(q + v) == Triple(q) + Whole(v) && Part(q + v) == Part(v)
    decreases |v|
  {
    hide Whole;
    if v == [] {
      WholeFour(q);
      WholeNothing();
      assert q + v == q;
    } else {
      var n := |v| - 1;
      WholePrefix(q, v[..n]);
      assert q + v == (q + v[..n]) + [v[n]] && v == v[..n] + [v[n]];
      WholeAppend(q + v[..n], v[n]);
      WholeAppend(v[..n], v[n]);
      PartLast(q + v, v);
    }
  }

  /** The digits a text begins with. */
  function Values(t: seq<byte>): (v: seq<digit>)
    ensures |v| <= |t|
  {
    if t == [] || Value(t[0]).None? then [] else [Value(t[0]).value] + Values(t[1..])
  }

  /** What must follow the digits. */
  function Padding(n: nat): Option<seq<byte>> {
    match n % 4
    case 0 => Some([])
    case 1 => None
    case 2 => Some([PAD, PAD])
    case _ => Some([PAD])
  }

  /** Digits, the padding they call for, and no bits left over. */
  predicate Accepts(t: seq<byte>) {
    var v := Values(t);
    Padding(|v|) == Some(t[|v|..]) && Part(v) == 0
  }

  lemma {:induction false} ValuesNext(v: digit, t: seq<byte>)
    ensures Values([Digit(v)] + t) == [v] + Values(t)
  {
    ValueDigit(Digit(v), v);
    hide Value, Digit;
    assert ([Digit(v)] + t)[1..] == t;
  }

  /** The characters of some digits. */
  function Written(v: seq<digit>): seq<byte> {
    seq(|v|, k requires 0 <= k < |v| => Digit(v[k]))
  }

  lemma {:induction false} WrittenValues(v: seq<digit>, t: seq<byte>)
    requires t == [] || Value(t[0]).None?
    ensures Values(Written(v) + t) == v && (Written(v) + t)[|v|..] == t
    decreases |v|
  {
    hide Value, Digit;
    if v == [] {
      assert Written(v) + t == t && t[0..] == t;
    } else {
      assert Written(v) + t == [Digit(v[0])] + (Written(v[1..]) + t);
      ValuesNext(v[0], Written(v[1..]) + t);
      WrittenValues(v[1..], t);
    }
  }

  lemma {:induction false} QuadValues(q: seq<digit>, t: seq<byte>)
    requires |q| == 4
    ensures
      var s := Written(q) + t;
      Values(s) == q + Values(t) && s[|Values(s)|..] == t[|Values(t)|..]
      && Whole(Values(s)) == Triple(q) + Whole(Values(t)) && Part(Values(s)) == Part(Values(t))
  {
    hide Whole, Part, Value, Digit, Values;
    var t1 := [Digit(q[3])] + t;
    var t2 := [Digit(q[2])] + t1;
    var t3 := [Digit(q[1])] + t2;
    assert Written(q) + t == [Digit(q[0])] + t3;
    ValuesNext(q[0], t3);
    ValuesNext(q[1], t2);
    ValuesNext(q[2], t1);
    ValuesNext(q[3], t);
    assert Values(Written(q) + t) == q + Values(t);
    WholePrefix(q, Values(t));
  }

  function Digits(a: byte, b: byte, c: byte): (q: seq<digit>)
    ensures |q| == 4
  {
    [a / 4, a % 4 * 16 + b / 16, b % 16 * 4 + c / 64, c % 64]
  }

  lemma DigitsTriple(a: byte, b: byte, c: byte)
    ensures Quad(a, b, c) == Written(Digits(a, b, c)) && Triple(Digits(a, b, c)) == [a, b, c]
  {
    hide Digit;
  }

  lemma TripleDigits(q: seq<digit>)
    requires |q| == 4
    ensures var t := Triple(q); Digits(t[0], t[1], t[2]) == q
  {}

  lemma {:induction false} WholeShort(v: seq<digit>)
    requires |v| == 2 || |v| == 3
    ensures Whole(v) == [v[0] as int * 4 + v[1] / 16] + if |v| == 2 then [] else [v[1] as int % 16 * 16 + v[2] / 4]
  {
    hide Whole;
    WholeNothing();
    WholeAppend([], v[0]);
    WholeAppend([v[0]], v[1]);
    assert [] + [v[0]] == [v[0]] && [v[0]] + [v[1]] == [v[0], v[1]];
    if |v| == 3 {
      WholeAppend([v[0], v[1]], v[2]);
      assert [v[0], v[1]] + [v[2]] == v;
    } else {
      assert [v[0], v[1]] == v;
    }
  }

  lemma PadIsNoDigit()
    ensures Value(PAD).None?
  {}

  lemma {:induction false} TailOfOne(a: byte)
    ensures Accepts(Tail([a])) && Whole(Values(Tail([a]))) == [a]
  {
    hide Whole, Value, Digit, Values, Written;
    PadIsNoDigit();
    var v := Digits(a, 0, 0)[..2];
    TailShape([a], v, [PAD, PAD]);
    WholeShort(v);
  }

  lemma {:induction false} TailOfTwo(a: byte, b: byte)
    ensures Accepts(Tail([a, b])) && Whole(Values(Tail([a, b]))) == [a, b]
  {
    hide Whole, Value, Digit, Values, Written;
    PadIsNoDigit();
    var v := Digits(a, b, 0)[..3];
    TailShape([a, b], v, [PAD]);
    WholeShort(v);
  }

  lemma TailShape(d: seq<byte>, v: seq<digit>, pad: seq<byte>)
    requires 1 <= |d| <= 2 && v == Digits(d[0], if |d| == 2 then d[1] else 0, 0)[..|d| + 1]
    requires pad == if |d| == 2 then [PAD] else [PAD, PAD]
    ensures Values(Tail(d)) == v && Tail(d)[|v|..] == pad
  {
    hide Whole, Value, Digit, Values;
    PadIsNoDigit();
    DigitsTriple(d[0], if |d| == 2 then d[1] else 0, 0);
    WrittenPrefix(Digits(d[0], if |d| == 2 then d[1] else 0, 0), |v|);
    assert Tail(d) == Written(v) + pad;
    WrittenValues(v, pad);
  }

  lemma {:induction false} WrittenPrefix(v: seq<digit>, n: nat)
    requires n <= |v|
    ensures n <= |Written(v)| && Written(v[..n]) == Written(v)[..n]
    decreases n
  {
    hide Digit;
    if n > 0 {
      assert v[..n][1..] == v[1..][..n - 1];
      WrittenPrefix(v[1..], n - 1);
    }
  }

  lemma {:induction false} TailDecodes(d: seq<byte>)
    requires 1 <= |d| <= 2
    ensures Accepts(Tail(d)) && Whole(Values(Tail(d))) == d
  {
    hide Accepts, Tail, Whole, Values;
    if |d| == 1 {
      assert d == [d[0]];
      TailOfOne(d[0]);
    } else {
      assert d == [d[0], d[1]];
      TailOfTwo(d[0], d[1]);
    }
  }

  /** Decoding undoes encoding. */
  lemma {:induction false} DecodeEncode(d: seq<byte>)
    ensures Accepts(Encode(d)) && Whole(Values(Encode(d))) == d
    decreases |d|
  {
    hide Whole, Part, Digit, Value, Encode, Quad, Values, Triple, Written, Tail;
    assert d[0..] == d;
    if |d| >= 3 {
      DecodeEncode(d[3..]);
      EncodeQuad(d, 0);
      assert d == [d[0], d[1], d[2]] + d[3..];
      DigitsTriple(d[0], d[1], d[2]);
      QuadValues(Digits(d[0], d[1], d[2]), Encode(d[3..]));
    } else {
      EncodeTail(d, 0);
      if d != [] {
        TailDecodes(d);
      } else {
        WholeNothing();
        NothingDecodes();
      }
    }
  }

  lemma NothingDecodes()
    ensures Values([]) == [] && Part([]) == 0
  {}

  /** The characters of the leading digits, and what follows them. */
  lemma {:induction false} ValuesWritten(t: seq<byte>)
    ensures t == Written(Values(t)) + t[|Values(t)|..]
    decreases |t|
  {
    if t != [] && Value(t[0]).Some? {
      ValueDigit(t[0], Value(t[0]).value);
      hide Value, Digit;
      ValuesWritten(t[1..]);
      var v := Values(t);
      assert Written(v) == [Digit(v[0])] + Written(v[1..]);
      assert t == [t[0]] + t[1..];
    } else {
      assert Written([]) == [];
    }
  }

  /** The converse: a text that is accepted is the encoding of what it decodes to. */
  lemma {:induction false} EncodeDecode(t: seq<byte>)
    requires Accepts(t)
    ensures t == Encode(Whole(Values(t)))
    decreases |t|
  {
    hide Whole, Part, Digit, Value, Encode, Quad, Values, Triple, Written, Tail;
    var v := Values(t);
    ValuesWritten(t);
    if |v| >= 4 {
      FourLess(t);
      var rest := t[4..];
      EncodeDecode(rest);
      var q := v[..4];
      var abc := Triple(q);
      TripleDigits(q);
      assert |abc| == 3 by { TripleLength(q); }
      DigitsTriple(abc[0], abc[1], abc[2]);
      var d := abc + Whole(Values(rest));
      assert d[0..] == d && d[3..] == Whole(Values(rest));
      EncodeQuad(d, 0);
    } else if v == [] {
      WholeNothing();
      var none: seq<byte> := [];
      EncodeTail(none, 0);
      assert none[0..] == none && t == t[|v|..];
    } else {
      ShortDecodes(t);
    }
  }

  lemma TripleLength(q: seq<digit>)
    requires |q| == 4
    ensures |Triple(q)| == 3
  {}

  lemma {:induction false} FourLess(t: seq<byte>)
    requires Accepts(t) && |Values(t)| >= 4
    ensures var q := Values(t)[..4];
            Accepts(t[4..]) && t == Written(q) + t[4..] && Whole(Values(t)) == Triple(q) + Whole(Values(t[4..]))
  {
    hide Whole, Part, Digit, Value, Values, Triple, Padding;
    var v := Values(t);
    ValuesWritten(t);
    var q := v[..4];
    assert t[..4] == Written(q);
    assert t == Written(q) + t[4..];
    QuadValues(q, t[4..]);
    SamePadding(|v| - 4);
  }

  lemma SamePadding(n: nat)
    ensures Padding(n + 4) == Padding(n)
  {}

  lemma {:induction false} ShortDecodes(t: seq<byte>)
    requires Accepts(t) && 1 <= |Values(t)| < 4
    ensures t == Encode(Whole(Values(t)))
  {
    hide Whole, Digit, Value, Values, Encode;
    var v := Values(t);
    ValuesWritten(t);
    assert |v| == 2 || |v| == 3;
    WholeShort(v);
    var q := if |v| == 2 then v + [0, 0] else v + [0];
    TripleDigits(q);
    var abc := Triple(q);
    DigitsTriple(abc[0], abc[1], abc[2]);
    var d := Whole(v);
    assert d[0..] == d;
    EncodeTail(d, 0);
    assert Tail(d) == t;
  }

  /** The decoder accepts exactly the encodings, and gives back what was encoded. */
  lemma AcceptsEncodings(t: seq<byte>, d: seq<byte>)
    ensures t == Encode(d) <==> Accepts(t) && Whole(Values(t)) == d
  {
    hide Encode, Accepts, Whole, Values;
    DecodeEncode(d);
    if Accepts(t) {
      EncodeDecode(t);
    }
  }

  // ---------- b64_pton ----------

  /** The bytes of the target that have been written after `n` digits. */
  function Touched(n: nat): nat { n / 4 * 3 + n % 4 }

  /** The room the decoder wants for `n` bytes: one more than they take, unless they fill their quads. */
  function Room(n: nat): nat { if n % 3 == 0 then n else n + 1 }

  lemma {:induction false} WholeLength(v: seq<digit>)
    ensures |Whole(v)| == |v| * 3 / 4
    decreases |v|
  {
    hide Whole, Part, High;
    if v == [] {
      WholeNothing();
    } else {
      var n := |v| - 1;
      WholeLength(v[..n]);
      WholeAppend(v[..n], v[n]);
      assert v == v[..n] + [v[n]];
    }
  }

  lemma RoomTouched(n: nat)
    requires n % 4 != 1
    ensures Room(n * 3 / 4) == Touched(n)
  {
    var q, r := n / 4, n % 4;
    assert n * 3 == q * 12 + r * 3;
    assert n * 3 / 4 == q * 3 + r * 3 / 4;
  }

  /** What is in the target after the digits `v`. */
  predicate Holds(target: seq<byte>, targsize: nat, v: seq<digit>, tarindex: nat) {
    && Touched(|v|) <= targsize <= |target| && tarindex == |v| * 3 / 4 == |Whole(v)|
    && target[..tarindex] == Whole(v)
    && (|v| % 4 != 0 ==> target[tarindex] == Part(v))
  }

  lemma OrHigh(v: seq<digit>, d: digit)
    requires |v| % 4 != 0
    ensures Or8(Part(v), High(|v|, d)) == Part(v) + High(|v|, d)
  {
    var x := v[|v| - 1];
    assert Pow2(8) == 256 && Pow2(2) == 4 && Pow2(4) == 16 && Pow2(6) == 64;
    hide OrLow, Pow2;
    match |v| % 4
    case 1 => OrLowAdds(x, d / 16, 2, 8);
    case 2 => OrLowAdds(x % 16, d / 4, 4, 8);
    case 3 => OrLowAdds(x % 4, d, 6, 8);
    case _ =>
  }

  /** The switch in the loop: one more digit, if the target has room for what it touches. */
  method PutDigit(target: array<byte>, targsize: nat, state: nat, tarindex: nat, pos: digit, ghost v: seq<digit>)
    returns (ok: bool, next: nat)
    requires state == |v| % 4 && Holds(target[..], targsize, v, tarindex)
    modifies target
    ensures ok == (Touched(|v| + 1) <= targsize)
    ensures ok ==> Holds(target[..], targsize, v + [pos], next)
  {
    hide Whole, Or8;
    WholeAppend(v, pos);
    WholeLength(v + [pos]);
    next := tarindex;
    ghost var before := target[..tarindex];
    if state == 0 {
      if tarindex >= targsize {
        return false, next;
      }
      target[tarindex] := pos as int * 4;
    } else {
      OrHigh(v, pos);
      if state == 3 {
        if tarindex >= targsize {
          return false, next;
        }
        target[tarindex] := Or8(target[tarindex], pos);
      } else {
        if tarindex + 1 >= targsize {
          return false, next;
        }
        target[tarindex] := Or8(target[tarindex], if state == 1 then pos / 16 else pos / 4);
        target[tarindex + 1] := if state == 1 then pos as int % 16 * 16 else pos as int % 4 * 64;
      }
      next := tarindex + 1;
      assert target[..next] == before + [target[tarindex]];
    }
    ok := true;
  }

  /** The character at `i`, with the NUL behind the string. */
  function CharAt(src: seq<byte>, i: nat): byte {
    if i < |src| then src[i] else 0
  }

  /** Skips blanks, as the loops behind the first padding character do. */
  method SkipSpaces(src: seq<byte>, i: nat) returns (j: nat)
    requires i <= |src| && 0 !in src
    ensures i <= j <= |src| && Strip(src[j..]) == Strip(src[i..]) && !IsSpace(CharAt(src, j))
  {
    j := i;
    while CharAt(src, j) != 0 && IsSpace(CharAt(src, j))
      invariant i <= j <= |src| && Strip(src[j..]) == Strip(src[i..])
      decreases |src| - j
    {
      StripNext(src, j);
      j := j + 1;
    }
  }

  lemma {:induction false} StripNext(src: seq<byte>, i: nat)
    requires i <= |src|
    ensures Strip(src[i..]) ==
            if i == |src| then [] else if IsSpace(src[i]) then Strip(src[i + 1..]) else [src[i]] + Strip(src[i + 1..])
  {
    if i < |src| {
      assert src[i..][1..] == src[i + 1..];
    }
  }

  /** The end of the decoder, behind the first padding character. */
  method PadTail(src: seq<byte>, i: nat, state: nat) returns (ok: bool)
    requires i <= |src| && 0 !in src && state < 4
    ensures ok == (Padding(state) == Some([PAD] + Strip(src[i..])))
    ensures ok ==> state >= 2
  {
    hide Strip, Padding;
    ghost var rest := Strip(src[i..]);
    PadShape(state, rest);
    if state == 0 || state == 1 {
      return false;
    }
    var j := i;
    if state == 2 {
      j := SkipSpaces(src, j);
      StripNext(src, j);
      if CharAt(src, j) != PAD {
        assert rest != [] ==> rest[0] == src[j];
        return false;
      }
      j := j + 1;
      assert rest == [PAD] <==> Strip(src[j..]) == [] by {
        assert rest == [PAD] + Strip(src[j..]) && |rest| == 1 + |Strip(src[j..])|;
      }
    }
    ghost var tail := Strip(src[j..]);
    var k := SkipSpaces(src, j);
    StripNext(src, k);
    ok := CharAt(src, k) == 0;
    assert ok <==> tail == [];
  }

  lemma PadShape(state: nat, rest: seq<byte>)
    requires state < 4
    ensures Padding(state) == Some([PAD] + rest) <==> (state == 2 && rest == [PAD]) || (state == 3 && rest == [])
  {
    var s := [PAD] + rest;
    assert s == [PAD, PAD] <==> rest == [PAD] by {
      assert s[1..] == rest && [PAD, PAD][1..] == [PAD];
    }
    assert s == [PAD] <==> rest == [] by {
      assert |s| == 1 + |rest|;
    }
  }

  /** Where the digits end, the text is accepted if what follows is their padding and no bits are left. */
  lemma Verdict(v: seq<digit>, rest: seq<byte>)
    requires rest == [] || Value(rest[0]).None?
    ensures Values(Written(v) + rest) == v
    ensures Accepts(Written(v) + rest) <==> Padding(|v|) == Some(rest) && Part(v) == 0
  {
    hide Value, Digit;
    WrittenValues(v, rest);
  }

  lemma {:induction false} FirstIsNext(v: seq<digit>, d: digit, rest: seq<byte>)
    ensures Written(v) + ([Digit(d)] + rest) == Written(v + [d]) + rest
  {}

  /** Every digit of a text touches its byte, whether the text is accepted or not. */
  lemma {:induction false} MoreValues(v: seq<digit>, rest: seq<byte>)
    ensures |v| <= |Values(Written(v) + rest)|
    decreases |v|
  {
    hide Value, Digit;
    if v != [] {
      assert Written(v) + rest == [Digit(v[0])] + (Written(v[1..]) + rest);
      ValuesNext(v[0], Written(v[1..]) + rest);
      MoreValues(v[1..], rest);
    }
  }

  /** What b64_pton returns for a text and a target size. */
  function Outcome(t: seq<byte>, targsize: nat): int {
    if Accepts(t) && Touched(|Values(t)|) <= targsize then |Whole(Values(t))| else -1
  }

  /** b64_pton, on a string and a target to write to. */
  method B64Pton(src: seq<byte>, target: array<byte>, targsize: nat) returns (result: int)
    requires 0 !in src && targsize <= target.Length
    modifies target
    ensures result == Outcome(Strip(src), targsize)
    ensures result >= 0 ==> result <= target.Length && target[..result] == Whole(Values(Strip(src)))
  {
    hide Whole, Accepts, Strip, Values, Part, Padding, High, Written, Value, Digit, IsSpace;
    var tarindex: nat, state, i := 0, 0, 0;
    ghost var t := Strip(src);
    ghost var v: seq<digit> := [];
    WholeNothing();
    WrittenNothing();
    assert src[0..] == src && [] + t == t;
    while i < |src|
      invariant i <= |src| && state == |v| % 4 && t == Written(v) + Strip(src[i..])
      invariant Holds(target[..], targsize, v, tarindex)
    {
      var ch := src[i];
      StripNext(src, i);
      if IsSpace(ch) {
        i := i + 1;
        continue;
      }
      if ch == PAD {
        break;
      }
      var pos := Value(ch);
      if pos == None {
        Verdict(v, Strip(src[i..]));
        NoPadding(v, Strip(src[i..]));
        return -1;
      }
      ValueDigit(ch, pos.value);
      FirstIsNext(v, pos.value, Strip(src[i + 1..]));
      var ok, next := PutDigit(target, targsize, state, tarindex, pos.value, v);
      if !ok {
        MoreValues(v + [pos.value], Strip(src[i + 1..]));
        return -1;
      }
      v := v + [pos.value];
      tarindex, state, i := next, (state + 1) % 4, i + 1;
    }
    result := FinishPton(src, i, state, target, targsize, tarindex, v);
  }

  /** The end of the decoder: at the end of the string, or at a padding character. */
  method FinishPton(src: seq<byte>, i: nat, state: nat, target: array<byte>, targsize: nat, tarindex: nat, ghost v: seq<digit>)
    returns (result: int)
    requires 0 !in src && i <= |src| && (i < |src| ==> src[i] == PAD) && state == |v| % 4
    requires Holds(target[..], targsize, v, tarindex) && Strip(src) == Written(v) + Strip(src[i..])
    ensures result == Outcome(Strip(src), targsize)
    ensures result >= 0 ==> result <= target.Length && target[..result] == Whole(Values(Strip(src)))
  {
    hide Whole, Accepts, Strip, Values, Part, Padding, High, Written, Value, Digit, IsSpace;
    PadIsNoDigit();
    PadIsNoSpace();
    StripNext(src, i);
    Verdict(v, Strip(src[i..]));
    var ok := state == 0;
    if i < |src| {
      ok := PadTail(src, i + 1, state);
      ok := ok && target[tarindex] == 0;
    }
    PaddingOf(v, Strip(src[i..]));
    result := if ok then tarindex else -1;
  }

  lemma PadIsNoSpace()
    ensures !IsSpace(PAD)
  {}

  lemma WrittenNothing()
    ensures Written([]) == []
  {}

  lemma NoPadding(v: seq<digit>, rest: seq<byte>)
    requires rest != [] && rest[0] != PAD
    ensures Padding(|v|) != Some(rest)
  {}

  lemma PaddingOf(v: seq<digit>, rest: seq<byte>)
    ensures Padding(|v|) == Padding(|v| % 4) && (|v| % 4 == 0 ==> Part(v) == 0)
    ensures rest == [] ==> (Padding(|v|) == Some(rest) <==> |v| % 4 == 0)
    ensures rest != [] && |v| % 4 < 2 ==> Padding(|v|) != Some(rest)
  {}

  /** What the decoder's outcome means: with room for it, exactly the encodings, blanks aside, are
      decoded, to what they encode; all else, and what there is no room for, is refused. */
  lemma OutcomeIs(t: seq<byte>, targsize: nat)
    ensures Outcome(t, targsize) >= 0 <==> exists d: seq<byte> :: t == Encode(d) && Room(|d|) <= targsize
    ensures Outcome(t, targsize) >= 0 ==> t == Encode(Whole(Values(t)))
    ensures Outcome(t, targsize) >= -1
  {
    hide Encode, Whole, Values, Part, Room, Touched;
    if Accepts(t) {
      EncodeDecode(t);
      var d := Whole(Values(t));
      WholeLength(Values(t));
      NotOne(|Values(t)|);
      RoomTouched(|Values(t)|);
      if Room(|d|) <= targsize {
        assert t == Encode(d) && Room(|d|) <= targsize;
      }
    }
    forall d: seq<byte> | t == Encode(d) ensures Accepts(t) && Whole(Values(t)) == d {
      DecodeEncode(d);
    }
  }

  lemma NotOne(n: nat)
    ensures Padding(n).Some? ==> n % 4 != 1
  {}

  /** The two together: what b64_ntop writes, b64_pton reads back, given the room it wants. */
  lemma RoundTrip(d: seq<byte>, targsize: nat)
    ensures Strip(Encode(d)) == Encode(d)
    ensures Outcome(Encode(d), targsize) == if Room(|d|) <= targsize then |d| else -1
    ensures Whole(Values(Encode(d))) == d
  {
    hide Encode, Whole, Values, Part, Room, Touched;
    EncodeHasNoSpace(d);
    NothingStripped(Encode(d));
    DecodeEncode(d);
    WholeLength(Values(Encode(d)));
    NotOne(|Values(Encode(d))|);
    RoomTouched(|Values(Encode(d))|);
  }

  lemma {:induction false} EncodeHasNoSpace(d: seq<byte>)
    ensures forall k :: 0 <= k < |Encode(d)| ==> !IsSpace(Encode(d)[k])
    decreases |d|
  {
    hide Digit;
    if |d| >= 3 {
      EncodeHasNoSpace(d[3..]);
    }
  }

  lemma {:induction false} NothingStripped(s: seq<byte>)
    requires forall k :: 0 <= k < |s| ==> !IsSpace(s[k])
    ensures Strip(s) == s
    decreases |s|
  {
    if s != [] {
      NothingStripped(s[1..]);
    }
  }
}
