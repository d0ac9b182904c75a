/** rtcm_unpack and rtcm_repack of rtcm.c. Scaled quantities are kept in exact integer units: corrections
    in units of the small scale (a sixteenth of the large one), times in units of ZCOUNT_SCALE,
    coordinates in units of XYZ_SCALE. Types 4 and 7 are not part of this model. */
module Rtcm {
  import opened Bytes
  import opened BitFields
  import opened RtcmFields

  datatype Sat = Sat(ident: nat, udre: nat, issuedata: nat, rangerr: int, rangerate: int)

  datatype Consat = Consat(ident: nat, iodl: bool, health: nat, snr: int, healthEn: nat, newData: bool, losWarning: bool, tou: nat)

  const SNR_BAD: int := -1
  const CNR_OFFSET: int := 24
  const TU_SCALE: nat := 5

  // ---------- corrections ----------

  /** The ratio of the large scale to the small one. */
  const LARGE: int := 16
  const MAXPCSMALL: int := 0x7fff
  const MAXRRSMALL: int := 0x7f

  /** How many satellites a message of `len` words describes. */
  function SatCount(len: nat): (n: nat)
    ensures len < 32 ==> n <= MAXCORRECTIONS
  {
    len / 5 * 3 + if len % 5 >= 4 then 2 else if len % 5 >= 2 then 1 else 0
  }

  function Correct(ws: seq<Bits>, g: nat, p: nat): int
    requires p < 3 && GroupWord(g) + 5 <= |ws|
  {
    var f := Correction(g, p);
    if p == 2 then Signed(Get(ws, f[0]), 8) * 256 + Get(ws, f[1]) else Signed(Get(ws, f[0]), 16)
  }

  function IsLarge(ws: seq<Bits>, g: nat, p: nat): bool
    requires p < 3 && GroupWord(g) + 5 <= |ws|
  {
    Get(ws, Scale(g, p)) != 0
  }

  /** A satellite as rtcm_unpack reads it. */
  function ReadSat(ws: seq<Bits>, g: nat, p: nat): Sat
    requires p < 3 && GroupWord(g) + 5 <= |ws|
  {
    var unit := if IsLarge(ws, g, p) then LARGE else 1;
    Sat(Get(ws, Ident(g, p)), Get(ws, Udre(g, p)), Get(ws, IssueData(g, p)),
        Correct(ws, g, p) * unit, Signed(Get(ws, RangeRate(g, p)), 8) * unit)
  }

  /** Too much for the small scale. */
  predicate NeedsLarge(s: Sat) {
    s.rangerr > MAXPCSMALL || s.rangerr < -MAXPCSMALL || s.rangerate > MAXRRSMALL || s.rangerate < -MAXRRSMALL
  }

  /** C's round of a quotient: halves away from zero. */
  function RoundQuotient(a: int, unit: nat): int
    requires unit > 0
  {
    if a >= 0 then (2 * a + unit) / (2 * unit) else -((2 * -a + unit) / (2 * unit))
  }

  /** The values rtcm_repack stores for a satellite. */
  function SatValues(p: nat, s: Sat): (v: seq<int>)
    requires p < 3
    ensures |v| == if p == 2 then 7 else 6
  {
    var unit := if NeedsLarge(s) then LARGE else 1;
    var pc := RoundQuotient(s.rangerr, unit);
    [s.ident, s.udre, s.issuedata, if NeedsLarge(s) then 1 else 0]
    + (if p == 2 then [pc / 256, pc % 256] else [pc])
    + [RoundQuotient(s.rangerate, unit)]
  }

  function PutSat(ws: seq<Bits>, g: nat, p: nat, s: Sat): (r: seq<Bits>)
    requires p < 3 && GroupWord(g) + 5 <= |ws|
    ensures |r| == |ws|
  {
    SatGood(g, p);
    PutAll(ws, SatFields(g, p), SatValues(p, s))
  }

  /** What is left of a satellite's corrections once they have been stored and read. */
  function Stored(s: Sat): Sat {
    var unit := if NeedsLarge(s) then LARGE else 1;
    s.(rangerr := RoundQuotient(s.rangerr, unit) * unit, rangerate := RoundQuotient(s.rangerate, unit) * unit)
  }

  /** Values the fields can hold. */
  predicate Fits(s: Sat) {
    && s.ident < 32 && s.udre < 4 && s.issuedata < 256
    && var unit := if NeedsLarge(s) then LARGE else 1;
    && -0x8000 <= RoundQuotient(s.rangerr, unit) < 0x8000 && -0x80 <= RoundQuotient(s.rangerate, unit) < 0x80
  }

  lemma Widths()
    ensures Pow2(1) == 2 && Pow2(2) == 4 && Pow2(3) == 8 && Pow2(4) == 16 && Pow2(5) == 32 && Pow2(6) == 64
    ensures Pow2(7) == 128 && Pow2(8) == 256
    ensures Pow2(10) == 1024 && Pow2(13) == 8192
    ensures Pow2(15) == 0x8000 && Pow2(16) == 0x1_0000 && Pow2(24) == 0x100_0000
  {}

  /** What the fields hold once a satellite has been stored. */
  lemma PutSatGets(ws: seq<Bits>, g: nat, p: nat, s: Sat)
    requires p < 3 && GroupWord(g) + 5 <= |ws|
    ensures
      var r, v := PutSat(ws, g, p, s), SatValues(p, s);
      && Get(r, Ident(g, p)) == v[0] % 32 && Get(r, Udre(g, p)) == v[1] % 4 && Get(r, IssueData(g, p)) == v[2] % 256
      && Get(r, Scale(g, p)) == v[3] % 2 && Get(r, RangeRate(g, p)) == v[|v| - 1] % 256
      && (if p == 2 then Get(r, Correction(g, p)[0]) == v[4] % 256 && Get(r, Correction(g, p)[1]) == v[5] % 256
          else Get(r, Correction(g, p)[0]) == v[4] % 0x1_0000)
  {
    hide Get, Put, PutAll, Pow2, Good, SatValues;
    SatsInside(g, p, |ws|);
    var f, v := SatFields(g, p), SatValues(p, s);
    Widths();
    PutAllGet(ws, f, v, 0);
    PutAllGet(ws, f, v, 1);
    PutAllGet(ws, f, v, 2);
    PutAllGet(ws, f, v, 3);
    PutAllGet(ws, f, v, 4);
    PutAllGet(ws, f, v, 5);
    if p == 2 {
      PutAllGet(ws, f, v, 6);
    }
  }

  /** A stored satellite is read back, rounded to its scale. */
  lemma ReadPut(ws: seq<Bits>, g: nat, p: nat, s: Sat)
    requires p < 3 && GroupWord(g) + 5 <= |ws| && Fits(s)
    ensures ReadSat(PutSat(ws, g, p, s), g, p) == Stored(s)
  {
    hide Get, PutSat, Pow2, RoundQuotient, NeedsLarge, Ident, Udre, IssueData, Scale, RangeRate, Correction, Signed;
    PutSatGets(ws, g, p, s);
    Widths();
    var unit := if NeedsLarge(s) then LARGE else 1;
    var pc, rr := RoundQuotient(s.rangerr, unit), RoundQuotient(s.rangerate, unit);
    SignedMod(rr, 8);
    if p == 2 {
      SignedHalves(pc);
    } else {
      SignedMod(pc, 16);
    }
    var r := PutSat(ws, g, p, s);
    assert Correct(r, g, p) == pc;
    assert IsLarge(r, g, p) == NeedsLarge(s);
  }

  lemma SignedMod(v: int, n: nat)
    requires n > 0 && -(Pow2(n - 1) as int) <= v < Pow2(n - 1)
    ensures Pow2(n) > 0 && Signed(v % Pow2(n), n) == v
  {
    var m := Pow2(n);
    assert m == 2 * Pow2(n - 1);
    if v >= 0 {
      ModIs(v, m, 0, v);
    } else {
      ModIs(v, m, -1, v + m);
    }
  }

  /** A sixteen-bit number in a signed and an unsigned half. */
  lemma SignedHalves(v: int)
    requires -0x8000 <= v < 0x8000
    ensures Signed(v / 256 % 256, 8) * 256 + v % 256 % 256 == v
  {
    Widths();
    hide Pow2;
    SignedMod(v / 256, 8);
  }

  /** Storing one satellite leaves all others. */
  lemma ReadPutOther(ws: seq<Bits>, g: nat, p: nat, s: Sat, h: nat, q: nat)
    requires p < 3 && q < 3 && (g != h || p != q) && GroupWord(g) + 5 <= |ws| && GroupWord(h) + 5 <= |ws|
    ensures ReadSat(PutSat(ws, g, p, s), h, q) == ReadSat(ws, h, q)
  {
    hide Get, PutAll, Good, SatValues;
    var f, v, e := SatFields(g, p), SatValues(p, s), SatFields(h, q);
    SatsInside(g, p, |ws|);
    SatsInside(h, q, |ws|);
    forall i | 0 <= i < |e| ensures Get(PutAll(ws, f, v), e[i]) == Get(ws, e[i]) {
      SatsApart(g, p, h, q, i);
      SatInside(h, q, |ws|, i);
      hide Apart, SatFields;
      PutAllOther(ws, f, v, e[i]);
    }
    SatListed(h, q);
    hide SatFields, Ident, Udre, IssueData, Scale, RangeRate, Correction;
  }

  lemma SatListed(g: nat, p: nat)
    requires p < 3
    ensures
      var e := SatFields(g, p);
      e[0] == Ident(g, p) && e[1] == Udre(g, p) && e[2] == IssueData(g, p) && e[3] == Scale(g, p)
      && e[4] == Correction(g, p)[0] && e[|e| - 1] == RangeRate(g, p) && (p == 2 ==> e[5] == Correction(g, p)[1])
  {}

  lemma SatsInside(g: nat, p: nat, n: nat)
    requires p < 3 && GroupWord(g) + 5 <= n
    ensures Good(SatFields(g, p), n)
  {
    SatGood(g, p);
  }

  lemma SatInside(g: nat, p: nat, n: nat, i: nat)
    requires p < 3 && GroupWord(g) + 5 <= n && i < |SatFields(g, p)|
    ensures SatFields(g, p)[i].word < n && InWord(SatFields(g, p)[i])
  {
    SatGood(g, p);
  }

  // ---------- when a satellite survives ----------

  /** The corrections come back unchanged: read at the large scale, or within the small one, or
      divisible by their ratio. */
  predicate Survives(ws: seq<Bits>, g: nat, p: nat)
    requires p < 3 && GroupWord(g) + 5 <= |ws|
  {
    var pc, rr := Correct(ws, g, p), Signed(Get(ws, RangeRate(g, p)), 8);
    || IsLarge(ws, g, p)
    || (pc != -0x8000 && rr != -0x80)
    || (pc % LARGE == 0 && rr % LARGE == 0)
  }

  lemma RoundExact(a: int)
    ensures RoundQuotient(a, 1) == a && RoundQuotient(a * LARGE, LARGE) == a
    ensures RoundQuotient(a, LARGE) * LARGE == a <==> a % LARGE == 0
    ensures a >= 0 ==> a / 32 <= RoundQuotient(a, LARGE) <= a
    ensures a < 0 ==> a <= RoundQuotient(a, LARGE) <= 0
  {}

  lemma FieldRanges(ws: seq<Bits>, g: nat, p: nat)
    requires p < 3 && GroupWord(g) + 5 <= |ws|
    ensures -0x8000 <= Correct(ws, g, p) < 0x8000
    ensures -0x80 <= Signed(Get(ws, RangeRate(g, p)), 8) < 0x80
    ensures Get(ws, Ident(g, p)) < 32 && Get(ws, Udre(g, p)) < 4 && Get(ws, IssueData(g, p)) < 256
  {
    Widths();
    hide Get, Pow2;
    GetBound(ws, Ident(g, p));
    GetBound(ws, Udre(g, p));
    GetBound(ws, IssueData(g, p));
    GetBound(ws, RangeRate(g, p));
    GetBound(ws, Correction(g, p)[0]);
    if p == 2 {
      GetBound(ws, Correction(g, p)[1]);
    }
  }

  lemma StoredIs(pc: int, rr: int, large: bool, s: Sat)
    requires -0x8000 <= pc < 0x8000 && -0x80 <= rr < 0x80
    requires s.rangerr == pc * (if large then LARGE else 1) && s.rangerate == rr * if large then LARGE else 1
    requires s.ident < 32 && s.udre < 4 && s.issuedata < 256
    ensures Fits(s)
    ensures Stored(s) == s <==> large || (pc != -0x8000 && rr != -0x80) || (pc % LARGE == 0 && rr % LARGE == 0)
  {
    RoundExact(pc);
    RoundExact(rr);
    RoundExact(pc * LARGE);
    RoundExact(rr * LARGE);
    hide RoundQuotient;
    assert Stored(s) == s <==> Stored(s).rangerr == s.rangerr && Stored(s).rangerate == s.rangerate;
  }

  /** A satellite read, stored and read again is the same exactly if it survives. */
  lemma SurvivesIs(ws: seq<Bits>, g: nat, p: nat)
    requires p < 3 && GroupWord(g) + 5 <= |ws|
    ensures Fits(ReadSat(ws, g, p))
    ensures Stored(ReadSat(ws, g, p)) == ReadSat(ws, g, p) <==> Survives(ws, g, p)
  {
    hide Get, Correct, Signed, Stored, Fits;
    FieldRanges(ws, g, p);
    StoredIs(Correct(ws, g, p), Signed(Get(ws, RangeRate(g, p)), 8), IsLarge(ws, g, p), ReadSat(ws, g, p));
  }

  // ---------- all satellites of a message ----------

  function SatOf(ws: seq<Bits>, k: nat): Sat
    requires |ws| == RTCM_WORDS_MAX && k < MAXCORRECTIONS
  {
    ReadSat(ws, k / 3, k % 3)
  }

  function Sats(ws: seq<Bits>, n: nat): (s: seq<Sat>)
    requires |ws| == RTCM_WORDS_MAX && n <= MAXCORRECTIONS
    ensures |s| == n
  {
    seq(n, k requires 0 <= k < n => SatOf(ws, k))
  }

  function PutSats(ws: seq<Bits>, sats: seq<Sat>): (r: seq<Bits>)
    requires |ws| == RTCM_WORDS_MAX && |sats| <= MAXCORRECTIONS
    ensures |r| == |ws|
    decreases |sats|
  {
    hide PutSat;
    if sats == [] then ws
    else
      var k := |sats| - 1;
      PutSat(PutSats(ws, sats[..k]), k / 3, k % 3, sats[k])
  }

  lemma Places(j: nat, k: nat)
    ensures j != k ==> j / 3 != k / 3 || j % 3 != k % 3
  {}

  lemma {:induction false} PutSatsRead(ws: seq<Bits>, sats: seq<Sat>, k: nat)
    requires |ws| == RTCM_WORDS_MAX && k < |sats| <= MAXCORRECTIONS && Fits(sats[k])
    ensures SatOf(PutSats(ws, sats), k) == Stored(sats[k])
    decreases |sats|
  {
    hide PutSat, ReadSat, Stored, Fits;
    var n := |sats| - 1;
    var before := PutSats(ws, sats[..n]);
    if k == n {
      ReadPut(before, n / 3, n % 3, sats[n]);
    } else {
      Places(n, k);
      ReadPutOther(before, n / 3, n % 3, sats[n], k / 3, k % 3);
      PutSatsRead(ws, sats[..n], k);
    }
  }

  // ---------- the header ----------

  datatype Header = Header(kind: nat, length: nat, zcount: nat, refstaid: nat, seqnum: nat, stathlth: nat)

  function ReadHeader(ws: seq<Bits>): (h: Header)
    requires |ws| >= 2
    ensures HeaderFits(h)
  {
    HeaderRange(ws);
    Header(Get(ws, MSGTYPE), Get(ws, FRMLEN), Get(ws, ZCNT), Get(ws, REFSTAID), Get(ws, SQNUM), Get(ws, STATHLTH))
  }

  predicate HeaderFits(h: Header) {
    h.kind < 64 && h.length < 32 && h.zcount < 8192 && h.refstaid < 1024 && h.seqnum < 8 && h.stathlth < 8
  }

  function HeaderValues(h: Header): (v: seq<int>)
    ensures |v| == 6
  {
    [h.kind, h.length, h.zcount, h.refstaid, h.seqnum, h.stathlth]
  }

  function PutHeader(ws: seq<Bits>, h: Header): (r: seq<Bits>)
    requires |ws| >= 2
    ensures |r| == |ws|
  {
    HeaderGood();
    PutAll(ws, HEADER, HeaderValues(h))
  }

  lemma HeaderRange(ws: seq<Bits>)
    requires |ws| >= 2
    ensures Get(ws, MSGTYPE) < 64 && Get(ws, FRMLEN) < 32 && Get(ws, ZCNT) < 8192
    ensures Get(ws, REFSTAID) < 1024 && Get(ws, SQNUM) < 8 && Get(ws, STATHLTH) < 8
  {
    Widths();
    hide Get, Pow2;
    GetBound(ws, MSGTYPE);
    GetBound(ws, FRMLEN);
    GetBound(ws, ZCNT);
    GetBound(ws, REFSTAID);
    GetBound(ws, SQNUM);
    GetBound(ws, STATHLTH);
  }

  lemma HeaderReadPut(ws: seq<Bits>, h: Header)
    requires |ws| >= 2 && HeaderFits(h)
    ensures ReadHeader(PutHeader(ws, h)) == h
  {
    hide Get, PutAll, Pow2, Good;
    Widths();
    HeaderFilled(|ws|);
    var v := HeaderValues(h);
    PutAllExact(ws, HEADER, v, 0, MSGTYPE, h.kind);
    PutAllExact(ws, HEADER, v, 1, FRMLEN, h.length);
    PutAllExact(ws, HEADER, v, 2, ZCNT, h.zcount);
    PutAllExact(ws, HEADER, v, 3, REFSTAID, h.refstaid);
    PutAllExact(ws, HEADER, v, 4, SQNUM, h.seqnum);
    PutAllExact(ws, HEADER, v, 5, STATHLTH, h.stathlth);
  }

  lemma HeaderFilled(n: nat)
    requires n >= 2
    ensures Good(HEADER, n)
  {
    HeaderGood();
  }

  /** Nothing is changed in the header words. */
  predicate SameHead(ws: seq<Bits>, r: seq<Bits>) {
    |ws| >= 2 && |r| == |ws| && r[0] == ws[0] && r[1] == ws[1]
  }

  lemma {:induction false} PutAllKeepsHead(ws: seq<Bits>, f: seq<Loc>, v: seq<int>)
    requires |v| == |f| && |ws| >= 2 && forall i :: 0 <= i < |f| ==> 2 <= f[i].word < |ws| && InWord(f[i])
    ensures SameHead(ws, PutAll(ws, f, v))
    decreases |f|
  {
    if f != [] {
      PutAllKeepsHead(ws, f[..|f| - 1], v[..|f| - 1]);
    }
  }

  lemma PutSatKeepsHead(ws: seq<Bits>, g: nat, p: nat, s: Sat)
    requires p < 3 && GroupWord(g) + 5 <= |ws|
    ensures SameHead(ws, PutSat(ws, g, p, s))
  {
    SatGood(g, p);
    PutAllKeepsHead(ws, SatFields(g, p), SatValues(p, s));
  }

  lemma {:induction false} PutSatsKeepsHead(ws: seq<Bits>, sats: seq<Sat>)
    requires |ws| == RTCM_WORDS_MAX && |sats| <= MAXCORRECTIONS
    ensures SameHead(ws, PutSats(ws, sats))
    decreases |sats|
  {
    hide PutSat;
    if sats != [] {
      var k := |sats| - 1;
      PutSatsKeepsHead(ws, sats[..k]);
      PutSatKeepsHead(PutSats(ws, sats[..k]), k / 3, k % 3, sats[k]);
    }
  }

  lemma SameHeadReads(ws: seq<Bits>, r: seq<Bits>)
    requires SameHead(ws, r)
    ensures ReadHeader(r) == ReadHeader(ws)
  {}

  // ---------- types 3 and 5 ----------

  /** Thirty-two bits as a signed number. */
  function Wrap32(v: int): int {
    var u := v % 0x1_0000_0000;
    if u >= 0x8000_0000 then u - 0x1_0000_0000 else u
  }

  function ReadEcef(ws: seq<Bits>): (int, int, int)
    requires |ws| >= 6
  {
    (Wrap32(Get(ws, X_H) * 0x100 + Get(ws, X_L)),
     Wrap32(Get(ws, Y_H) * 0x1_0000 + Get(ws, Y_L)),
     Wrap32(Get(ws, Z_H) * 0x100_0000 + Get(ws, Z_L)))
  }

  /** The unsigned numbers are cut in two, each at another bit. */
  function EcefValues(x: int, y: int, z: int): (v: seq<int>)
    ensures |v| == 6
  {
    var ux, uy, uz := x % 0x1_0000_0000, y % 0x1_0000_0000, z % 0x1_0000_0000;
    [ux % 0x100, ux / 0x100, uy % 0x1_0000, uy / 0x1_0000, uz % 0x100_0000, uz / 0x100_0000]
  }

  function PutEcef(ws: seq<Bits>, x: int, y: int, z: int): (r: seq<Bits>)
    requires |ws| >= 6
    ensures |r| == |ws|
  {
    EcefGood();
    PutAll(ws, ECEF, EcefValues(x, y, z))
  }

  lemma Halves(v: int, low: nat)
    requires low == 0x100 || low == 0x1_0000 || low == 0x100_0000
    ensures var u := v % 0x1_0000_0000;
            Wrap32(u / low * low + u % low) == Wrap32(v) && 0 <= u / low < 0x1_0000_0000 / low && 0 <= u % low < low
  {
    var u := v % 0x1_0000_0000;
    assert u / low * low + u % low == u;
  }

  lemma EcefFilled(n: nat)
    requires n >= 6
    ensures Good(ECEF, n)
  {
    EcefGood();
  }

  lemma EcefReadPut(ws: seq<Bits>, x: int, y: int, z: int)
    requires |ws| >= 6
    ensures ReadEcef(PutEcef(ws, x, y, z)) == (Wrap32(x), Wrap32(y), Wrap32(z))
  {
    hide Get, PutAll, Pow2, Good, Wrap32;
    Widths();
    EcefFilled(|ws|);
    var v := EcefValues(x, y, z);
    var ux, uy, uz := x % 0x1_0000_0000, y % 0x1_0000_0000, z % 0x1_0000_0000;
    Halves(x, 0x100);
    Halves(y, 0x1_0000);
    Halves(z, 0x100_0000);
    PutAllExact(ws, ECEF, v, 0, X_L, ux % 0x100);
    PutAllExact(ws, ECEF, v, 1, X_H, ux / 0x100);
    PutAllExact(ws, ECEF, v, 2, Y_L, uy % 0x1_0000);
    PutAllExact(ws, ECEF, v, 3, Y_H, uy / 0x1_0000);
    PutAllExact(ws, ECEF, v, 4, Z_L, uz % 0x100_0000);
    PutAllExact(ws, ECEF, v, 5, Z_H, uz / 0x100_0000);
  }

  lemma WrapTwice(v: int)
    ensures Wrap32(Wrap32(v)) == Wrap32(v)
  {}

  function ReadConsat(ws: seq<Bits>, n: nat): Consat
    requires n + 3 <= |ws|
  {
    var f := HealthFields(n);
    var cn0 := Get(ws, f[3]);
    Consat(Get(ws, f[0]), Get(ws, f[1]) != 0, Get(ws, f[2]), if cn0 != 0 then cn0 + CNR_OFFSET else SNR_BAD,
           Get(ws, f[4]), Get(ws, f[5]) != 0, Get(ws, f[6]) != 0, Get(ws, f[7]) * TU_SCALE)
  }

  function Bit(b: bool): int { if b then 1 else 0 }

  function HealthValues(c: Consat): (v: seq<int>)
    ensures |v| == 8
  {
    [c.ident, Bit(c.iodl), c.health, if c.snr == SNR_BAD then 0 else c.snr - CNR_OFFSET,
     c.healthEn, Bit(c.newData), Bit(c.losWarning), c.tou / TU_SCALE]
  }

  function PutConsat(ws: seq<Bits>, n: nat, c: Consat): (r: seq<Bits>)
    requires n + 3 <= |ws|
    ensures |r| == |ws|
  {
    HealthGood(n);
    PutAll(ws, HealthFields(n), HealthValues(c))
  }

  /** Values a word of the message can hold. */
  predicate ConsatFits(c: Consat) {
    && c.ident < 32 && c.health < 8 && (c.snr == SNR_BAD || CNR_OFFSET < c.snr < CNR_OFFSET + 32)
    && c.healthEn < 2 && c.tou % TU_SCALE == 0 && c.tou < 16 * TU_SCALE
  }

  lemma ConsatRange(ws: seq<Bits>, n: nat)
    requires n + 3 <= |ws|
    ensures ConsatFits(ReadConsat(ws, n))
  {
    Widths();
    hide Get, Pow2;
    var f := HealthFields(n);
    GetBound(ws, f[0]);
    GetBound(ws, f[2]);
    GetBound(ws, f[3]);
    GetBound(ws, f[4]);
    GetBound(ws, f[7]);
  }

  lemma ConsatReadPut(ws: seq<Bits>, n: nat, c: Consat)
    requires n + 3 <= |ws| && ConsatFits(c)
    ensures ReadConsat(PutConsat(ws, n, c), n) == c
  {
    hide Get, PutAll, Pow2, Good;
    Widths();
    HealthFilled(n, |ws|);
    var f, v := HealthFields(n), HealthValues(c);
    PutAllExact(ws, f, v, 0, f[0], c.ident);
    PutAllExact(ws, f, v, 1, f[1], Bit(c.iodl));
    PutAllExact(ws, f, v, 2, f[2], c.health);
    PutAllExact(ws, f, v, 3, f[3], v[3]);
    PutAllExact(ws, f, v, 4, f[4], c.healthEn);
    PutAllExact(ws, f, v, 5, f[5], Bit(c.newData));
    PutAllExact(ws, f, v, 6, f[6], Bit(c.losWarning));
    PutAllExact(ws, f, v, 7, f[7], c.tou / TU_SCALE);
  }

  lemma HealthFilled(n: nat, m: nat)
    requires n + 3 <= m
    ensures Good(HealthFields(n), m)
  {
    HealthGood(n);
  }

  /** Storing one word of a health message leaves the others. */
  lemma ConsatReadPutOther(ws: seq<Bits>, n: nat, c: Consat, k: nat)
    requires n + 3 <= |ws| && k + 3 <= |ws| && n != k
    ensures ReadConsat(PutConsat(ws, n, c), k) == ReadConsat(ws, k)
  {
    HealthGood(n);
    var f, v, e := HealthFields(n), HealthValues(c), HealthFields(k);
    assert Good(f, |ws|);
    hide Get, PutAll, Good;
    forall i | 0 <= i < 8 ensures Get(PutAll(ws, f, v), e[i]) == Get(ws, e[i]) {
      assert Apart(f, e[i]);
      PutAllOther(ws, f, v, e[i]);
    }
  }

  function Consats(ws: seq<Bits>, n: nat): (s: seq<Consat>)
    requires |ws| == RTCM_WORDS_MAX && n <= MAXHEALTH
    ensures |s| == n
  {
    seq(n, k requires 0 <= k < n => ReadConsat(ws, k))
  }

  function PutConsats(ws: seq<Bits>, cs: seq<Consat>): (r: seq<Bits>)
    requires |ws| == RTCM_WORDS_MAX && |cs| <= MAXHEALTH
    ensures |r| == |ws|
    decreases |cs|
  {
    if cs == [] then ws else PutConsat(PutConsats(ws, cs[..|cs| - 1]), |cs| - 1, cs[|cs| - 1])
  }

  lemma {:induction false} PutConsatsRead(ws: seq<Bits>, cs: seq<Consat>, k: nat)
    requires |ws| == RTCM_WORDS_MAX && k < |cs| <= MAXHEALTH && ConsatFits(cs[k])
    ensures ReadConsat(PutConsats(ws, cs), k) == cs[k]
    decreases |cs|
  {
    hide PutConsat, ReadConsat, ConsatFits;
    var n := |cs| - 1;
    var before := PutConsats(ws, cs[..n]);
    if k == n {
      ConsatReadPut(before, n, cs[n]);
    } else {
      ConsatReadPutOther(before, n, cs[n], k);
      PutConsatsRead(ws, cs[..n], k);
    }
  }

  lemma {:induction false} PutConsatsKeepsHead(ws: seq<Bits>, cs: seq<Consat>)
    requires |ws| == RTCM_WORDS_MAX && |cs| <= MAXHEALTH
    ensures SameHead(ws, PutConsats(ws, cs))
    decreases |cs|
  {
    if cs != [] {
      var n := |cs| - 1;
      PutConsatsKeepsHead(ws, cs[..n]);
      HealthGood(n);
      PutAllKeepsHead(PutConsats(ws, cs[..n]), HealthFields(n), HealthValues(cs[n]));
    }
  }
}
