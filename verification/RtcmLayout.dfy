/** Where the fields of an RTCM-104 message are on the line. The data bits of the words, each word's most
    significant bit first, are one stream; the standard (RTCM SC-104, version 2.1) lists the fields of a
    message as consecutive numbers in it. */
module RtcmLayout {
  import opened Bytes
  import opened BitFields
  import opened RtcmFields
  import opened Rtcm
  import opened RtcmCodec

  // ---------- the stream ----------

  /** The `i`-th data bit sent: a word's 24 data bits are its bits 29 to 6. */
  function DataBit(ws: seq<Bits>, i: nat): bool
    requires i < 24 * |ws|
  {
    ws[i / 24][29 - i % 24]
  }

  /** The number in the `n` bits from bit `start` on, the first of them the most significant. */
  function At(ws: seq<Bits>, start: nat, n: nat): nat
    requires start + n <= 24 * |ws|
    decreases n
  {
    if n == 0 then 0 else 2 * At(ws, start, n - 1) + if DataBit(ws, start + n - 1) then 1 else 0
  }

  /** The same in two's complement. */
  function SignedAt(ws: seq<Bits>, start: nat, n: nat): int
    requires start + n <= 24 * |ws| && n > 0
  {
    if DataBit(ws, start) then At(ws, start, n) - Pow2(n) else At(ws, start, n)
  }

  lemma BitOfWord(ws: seq<Bits>, w: nat, k: nat)
    requires w < |ws| && 6 <= k < 30
    ensures 24 * w + 29 - k < 24 * |ws| && DataBit(ws, 24 * w + 29 - k) == ws[w][k]
  {
    var i := 24 * w + 29 - k;
    assert i / 24 == w && i % 24 == 29 - k;
  }

  lemma AtStep(ws: seq<Bits>, start: nat, n: nat)
    requires start + n <= 24 * |ws|
    ensures At(ws, start, n) == if n == 0 then 0 else 2 * At(ws, start, n - 1) + if DataBit(ws, start + n - 1) then 1 else 0
  {
    hide DataBit;
  }

  lemma NumberStep(s: seq<bool>)
    ensures Number(s) == if s == [] then 0 else (if s[0] then 1 else 0) + 2 * Number(s[1..])
  {}

  /** A bit-field among the data bits of a word is a run of bits of the stream. */
  lemma {:induction false} FieldAt(ws: seq<Bits>, w: nat, off: nat, n: nat, start: nat)
    requires w < |ws| && 6 <= off && off + n <= 30 && start == 24 * w + 30 - off - n
    ensures start + n <= 24 * |ws| && Number(ws[w][off..off + n]) == At(ws, start, n)
    decreases n
  {
    hide Number, At, DataBit;
    var s := ws[w][off..off + n];
    AtStep(ws, start, n);
    NumberStep(s);
    if n > 0 {
      BitOfWord(ws, w, off);
      assert s[0] == ws[w][off] && s[1..] == ws[w][off + 1..off + n];
      FieldAt(ws, w, off + 1, n - 1, start);
    }
  }

  predicate InData(l: Loc) { 6 <= l.off && 0 < l.width && l.off + l.width <= 30 }

  /** Where a bit-field begins in the stream. */
  function Start(l: Loc): nat
    requires InData(l)
  {
    24 * l.word + 30 - l.off - l.width
  }

  lemma FieldIs(ws: seq<Bits>, l: Loc)
    requires InData(l) && l.word < |ws|
    ensures Start(l) + l.width <= 24 * |ws| && Get(ws, l) == At(ws, Start(l), l.width)
  {
    hide At, Number;
    FieldAt(ws, l.word, l.off, l.width, Start(l));
  }

  /** Two runs of bits, one behind the other. */
  lemma {:induction false} AtConcat(ws: seq<Bits>, start: nat, m: nat, n: nat)
    requires start + m + n <= 24 * |ws|
    ensures At(ws, start, m + n) == At(ws, start, m) * Pow2(n) + At(ws, start + m, n)
    decreases n
  {
    if n > 0 {
      AtConcat(ws, start, m, n - 1);
      assert start + (m + n) - 1 == start + m + n - 1;
      TwiceProduct(At(ws, start, m), Pow2(n - 1));
    }
  }

  lemma TwiceProduct(a: nat, b: nat)
    ensures 2 * (a * b) == a * (2 * b)
  {}

  lemma {:induction false} AtBound(ws: seq<Bits>, start: nat, n: nat)
    requires start + n <= 24 * |ws|
    ensures At(ws, start, n) < Pow2(n)
    ensures n > 0 ==> (DataBit(ws, start) <==> At(ws, start, n) >= Pow2(n - 1))
    decreases n
  {
    if n > 1 {
      AtBound(ws, start, n - 1);
    }
  }

  /** A field read as signed has its sign in its first bit. */
  lemma SignedField(ws: seq<Bits>, start: nat, n: nat)
    requires start + n <= 24 * |ws| && n > 0
    ensures Signed(At(ws, start, n), n) == SignedAt(ws, start, n)
  {
    AtBound(ws, start, n);
  }

  // ---------- the header ----------

  /** Preamble 8 bits, type 6, station 10; then time 13, sequence 3, length 5, health 3. */
  lemma HeaderAt(ws: seq<Bits>)
    requires |ws| >= 2
    ensures
      var h := ReadHeader(ws);
      && h.kind == At(ws, 8, 6) && h.refstaid == At(ws, 14, 10)
      && h.zcount == At(ws, 24, 13) && h.seqnum == At(ws, 37, 3) && h.length == At(ws, 40, 5) && h.stathlth == At(ws, 45, 3)
  {
    hide Get, At, Pow2, Signed;
    FieldIs(ws, Loc(0, 16, 6));
    FieldIs(ws, Loc(0, 6, 10));
    FieldIs(ws, Loc(1, 17, 13));
    FieldIs(ws, Loc(1, 14, 3));
    FieldIs(ws, Loc(1, 9, 5));
    FieldIs(ws, Loc(1, 6, 3));
  }

  // ---------- types 1 and 9 ----------

  /** Forty bits to a satellite, one behind the other, whatever words they fall into: scale 1 bit, UDRE 2,
      number 5, correction 16, rate 8, issue of data 8. Corrections and rates are sixteen times as much at
      the large scale. */
  lemma SatelliteAt(ws: seq<Bits>, k: nat)
    requires |ws| == RTCM_WORDS_MAX && k < MAXCORRECTIONS
    ensures
      var s, start := SatOf(ws, k), 48 + 40 * k;
      var unit := if DataBit(ws, start) then 16 else 1;
      && s.udre == At(ws, start + 1, 2) && s.ident == At(ws, start + 3, 5)
      && s.rangerr == SignedAt(ws, start + 8, 16) * unit && s.rangerate == SignedAt(ws, start + 24, 8) * unit
      && s.issuedata == At(ws, start + 32, 8)
  {
    hide Get, At, SignedAt, Signed, DataBit;
    var g, p := k / 3, k % 3;
    var w, start := GroupWord(g), 48 + 40 * k;
    SignedField(ws, start + 8, 16);
    SignedField(ws, start + 24, 8);
    ScaleBit(ws, start);
    if p == 0 {
      FirstAt(ws, g);
    } else if p == 1 {
      SecondAt(ws, g);
    } else {
      ThirdAt(ws, g);
    }
  }

  lemma ScaleBit(ws: seq<Bits>, start: nat)
    requires start < 24 * |ws|
    ensures At(ws, start, 1) != 0 <==> DataBit(ws, start)
  {
    assert At(ws, start, 0) == 0;
  }

  lemma FirstAt(ws: seq<Bits>, g: nat)
    requires GroupWord(g) + 5 <= |ws|
    ensures
      var start := 48 + 120 * g;
      && Get(ws, Scale(g, 0)) == At(ws, start, 1) && Get(ws, Udre(g, 0)) == At(ws, start + 1, 2)
      && Get(ws, Ident(g, 0)) == At(ws, start + 3, 5) && Correct(ws, g, 0) == Signed(At(ws, start + 8, 16), 16)
      && Get(ws, RangeRate(g, 0)) == At(ws, start + 24, 8) && Get(ws, IssueData(g, 0)) == At(ws, start + 32, 8)
  {
    hide Get, At, Signed, Pow2;
    var w := GroupWord(g);
    FieldIs(ws, Loc(w, 29, 1));
    FieldIs(ws, Loc(w, 27, 2));
    FieldIs(ws, Loc(w, 22, 5));
    FieldIs(ws, Loc(w, 6, 16));
    FieldIs(ws, Loc(w + 1, 22, 8));
    FieldIs(ws, Loc(w + 1, 14, 8));
  }

  lemma SecondAt(ws: seq<Bits>, g: nat)
    requires GroupWord(g) + 5 <= |ws|
    ensures
      var start := 88 + 120 * g;
      && Get(ws, Scale(g, 1)) == At(ws, start, 1) && Get(ws, Udre(g, 1)) == At(ws, start + 1, 2)
      && Get(ws, Ident(g, 1)) == At(ws, start + 3, 5) && Correct(ws, g, 1) == Signed(At(ws, start + 8, 16), 16)
      && Get(ws, RangeRate(g, 1)) == At(ws, start + 24, 8) && Get(ws, IssueData(g, 1)) == At(ws, start + 32, 8)
  {
    hide Get, At, Signed, Pow2;
    var w := GroupWord(g);
    FieldIs(ws, Loc(w + 1, 13, 1));
    FieldIs(ws, Loc(w + 1, 11, 2));
    FieldIs(ws, Loc(w + 1, 6, 5));
    FieldIs(ws, Loc(w + 2, 14, 16));
    FieldIs(ws, Loc(w + 2, 6, 8));
    FieldIs(ws, Loc(w + 3, 22, 8));
  }

  /** The correction of the third is cut in two by a word's end. */
  lemma ThirdAt(ws: seq<Bits>, g: nat)
    requires GroupWord(g) + 5 <= |ws|
    ensures
      var start := 128 + 120 * g;
      && Get(ws, Scale(g, 2)) == At(ws, start, 1) && Get(ws, Udre(g, 2)) == At(ws, start + 1, 2)
      && Get(ws, Ident(g, 2)) == At(ws, start + 3, 5) && Correct(ws, g, 2) == Signed(At(ws, start + 8, 16), 16)
      && Get(ws, RangeRate(g, 2)) == At(ws, start + 24, 8) && Get(ws, IssueData(g, 2)) == At(ws, start + 32, 8)
  {
    hide Get, At, Pow2;
    var w, start := GroupWord(g), 128 + 120 * g;
    FieldIs(ws, Loc(w + 3, 21, 1));
    FieldIs(ws, Loc(w + 3, 19, 2));
    FieldIs(ws, Loc(w + 3, 14, 5));
    FieldIs(ws, Loc(w + 3, 6, 8));
    FieldIs(ws, Loc(w + 4, 22, 8));
    FieldIs(ws, Loc(w + 4, 14, 8));
    FieldIs(ws, Loc(w + 4, 6, 8));
    AtConcat(ws, start + 8, 8, 8);
    AtBound(ws, start + 8, 8);
    AtBound(ws, start + 16, 8);
    Widths();
    SignedJoin(At(ws, start + 8, 8), At(ws, start + 16, 8));
  }

  lemma SignedJoin(high: nat, low: nat)
    requires high < 256 && low < 256
    ensures Signed(high, 8) * 256 + low == Signed(high * 256 + low, 16)
  {
    Widths();
    hide Pow2;
  }

  // ---------- types 3, 5 and 16 ----------

  /** Three signed numbers of 32 bits. */
  lemma StationAt(ws: seq<Bits>)
    requires |ws| >= 6
    ensures ReadEcef(ws) == (SignedAt(ws, 48, 32), SignedAt(ws, 80, 32), SignedAt(ws, 112, 32))
  {
    hide Get, At, Pow2, SignedAt;
    FieldIs(ws, Loc(2, 6, 24));
    FieldIs(ws, Loc(3, 22, 8));
    FieldIs(ws, Loc(3, 6, 16));
    FieldIs(ws, Loc(4, 14, 16));
    FieldIs(ws, Loc(4, 6, 8));
    FieldIs(ws, Loc(5, 6, 24));
    AtConcat(ws, 48, 24, 8);
    AtConcat(ws, 80, 16, 16);
    AtConcat(ws, 112, 8, 24);
    Widths();
    Wide();
    Signed32(ws, 48);
    Signed32(ws, 80);
    Signed32(ws, 112);
  }

  lemma Wide()
    ensures Pow2(24) == 0x100_0000 && Pow2(31) == 0x8000_0000 && Pow2(32) == 0x1_0000_0000
  {
    Widths();
    assert Pow2(20) == 16 * Pow2(16);
    assert Pow2(24) == 16 * Pow2(20);
    assert Pow2(28) == 16 * Pow2(24);
    assert Pow2(32) == 16 * Pow2(28);
  }

  lemma Signed32(ws: seq<Bits>, start: nat)
    requires start + 32 <= 24 * |ws|
    ensures Wrap32(At(ws, start, 32)) == SignedAt(ws, start, 32)
  {
    hide At, Pow2;
    AtBound(ws, start, 32);
    Wide();
  }

  /** Twenty-four bits to a satellite: one reserved, number 5, issue-of-data link 1, health 3, signal 5, health
      enable 1, new data 1, loss warning 1, time to unhealthy 4, two unassigned. The signal is in dB above 24,
      zero for none; the time in units of five minutes. */
  lemma HealthAt(ws: seq<Bits>, n: nat)
    requires n + 3 <= |ws|
    ensures
      var c, start := ReadConsat(ws, n), 48 + 24 * n;
      && c.ident == At(ws, start + 1, 5) && c.iodl == DataBit(ws, start + 6) && c.health == At(ws, start + 7, 3)
      && c.snr == (if At(ws, start + 10, 5) == 0 then -1 else At(ws, start + 10, 5) + 24)
      && c.healthEn == At(ws, start + 15, 1) && c.newData == DataBit(ws, start + 16)
      && c.losWarning == DataBit(ws, start + 17) && c.tou == 5 * At(ws, start + 18, 4)
  {
    hide Get, At, DataBit;
    var w, start := n + 2, 48 + 24 * n;
    FieldIs(ws, Loc(w, 24, 5));
    FieldIs(ws, Loc(w, 23, 1));
    FieldIs(ws, Loc(w, 20, 3));
    FieldIs(ws, Loc(w, 15, 5));
    FieldIs(ws, Loc(w, 14, 1));
    FieldIs(ws, Loc(w, 13, 1));
    FieldIs(ws, Loc(w, 12, 1));
    FieldIs(ws, Loc(w, 8, 4));
    ScaleBit(ws, start + 6);
    ScaleBit(ws, start + 16);
    ScaleBit(ws, start + 17);
  }

  /** Eight bits to a character. */
  lemma TextByteAt(ws: seq<Bits>, k: nat)
    requires |ws| == RTCM_WORDS_MAX && k < TEXT_MAX
    ensures TextAt(ws, k) == At(ws, 48 + 8 * k, 8)
  {
    hide Get, At, Pow2, Signed;
    var l := TextByte(k);
    FieldIs(ws, l);
  }
}
