/** Where rtcm.h puts the fields of an RTCM-104 message, and what filling a list of fields does. */
module RtcmFields {
  import opened Bytes
  import opened BitFields

  const RTCM_WORDS_MAX: nat := 33
  const MAXCORRECTIONS: nat := 18
  const MAXHEALTH: nat := 31

  // ---------- the header words ----------

  const REFSTAID: Loc := Loc(0, 6, 10)
  const MSGTYPE: Loc := Loc(0, 16, 6)
  const STATHLTH: Loc := Loc(1, 6, 3)
  const FRMLEN: Loc := Loc(1, 9, 5)
  const SQNUM: Loc := Loc(1, 14, 3)
  const ZCNT: Loc := Loc(1, 17, 13)

  /** In the order in which rtcm_repack assigns them. */
  const HEADER: seq<Loc> := [MSGTYPE, FRMLEN, ZCNT, REFSTAID, SQNUM, STATHLTH]

  // ---------- types 1 and 9: corrections, three to five words ----------

  /** The first word of a group of corrections. */
  function GroupWord(g: nat): nat { 2 + 5 * g }

  function Ident(g: nat, p: nat): Loc
    requires p < 3
  {
    var w := GroupWord(g);
    if p == 0 then Loc(w, 22, 5) else if p == 1 then Loc(w + 1, 6, 5) else Loc(w + 3, 14, 5)
  }

  function Udre(g: nat, p: nat): Loc
    requires p < 3
  {
    var w := GroupWord(g);
    if p == 0 then Loc(w, 27, 2) else if p == 1 then Loc(w + 1, 11, 2) else Loc(w + 3, 19, 2)
  }

  function IssueData(g: nat, p: nat): Loc
    requires p < 3
  {
    var w := GroupWord(g);
    if p == 0 then Loc(w + 1, 14, 8) else if p == 1 then Loc(w + 3, 22, 8) else Loc(w + 4, 6, 8)
  }

  function Scale(g: nat, p: nat): Loc
    requires p < 3
  {
    var w := GroupWord(g);
    if p == 0 then Loc(w, 29, 1) else if p == 1 then Loc(w + 1, 13, 1) else Loc(w + 3, 21, 1)
  }

  function RangeRate(g: nat, p: nat): Loc
    requires p < 3
  {
    var w := GroupWord(g);
    if p == 0 then Loc(w + 1, 22, 8) else if p == 1 then Loc(w + 2, 6, 8) else Loc(w + 4, 14, 8)
  }

  /** The correction: one field for the first two satellites of a group, two for the third. */
  function Correction(g: nat, p: nat): seq<Loc>
    requires p < 3
  {
    var w := GroupWord(g);
    if p == 0 then [Loc(w, 6, 16)] else if p == 1 then [Loc(w + 2, 14, 16)] else [Loc(w + 3, 6, 8), Loc(w + 4, 22, 8)]
  }

  /** All fields of a satellite, in the order in which rtcm_repack assigns them. */
  function SatFields(g: nat, p: nat): (f: seq<Loc>)
    requires p < 3
    ensures |f| == if p == 2 then 7 else 6
  {
    [Ident(g, p), Udre(g, p), IssueData(g, p), Scale(g, p)] + Correction(g, p) + [RangeRate(g, p)]
  }

  // ---------- type 3: reference station parameters ----------

  const X_H: Loc := Loc(2, 6, 24)
  const X_L: Loc := Loc(3, 22, 8)
  const Y_H: Loc := Loc(3, 6, 16)
  const Y_L: Loc := Loc(4, 14, 16)
  const Z_H: Loc := Loc(4, 6, 8)
  const Z_L: Loc := Loc(5, 6, 24)

  const ECEF: seq<Loc> := [X_L, X_H, Y_L, Y_H, Z_L, Z_H]

  // ---------- type 5: constellation health, a word to a satellite ----------

  function HealthFields(n: nat): (f: seq<Loc>)
    ensures |f| == 8
  {
    var w := 2 + n;
    [Loc(w, 24, 5), Loc(w, 23, 1), Loc(w, 20, 3), Loc(w, 15, 5), Loc(w, 14, 1), Loc(w, 13, 1), Loc(w, 12, 1), Loc(w, 8, 4)]
  }

  // ---------- type 16: text, three bytes to a word ----------

  function TextByte(n: nat): Loc {
    Loc(2 + n / 3, if n % 3 == 0 then 22 else if n % 3 == 1 then 14 else 6, 8)
  }

  // ---------- filling fields ----------

  predicate Good(f: seq<Loc>, n: nat) {
    && (forall i :: 0 <= i < |f| ==> f[i].word < n && InWord(f[i]))
    && (forall i, j :: 0 <= i < j < |f| ==> Disjoint(f[i], f[j]))
  }

  predicate Apart(f: seq<Loc>, m: Loc) {
    forall i :: 0 <= i < |f| ==> Disjoint(f[i], m)
  }

  function PutAll(ws: seq<Bits>, f: seq<Loc>, v: seq<int>): (r: seq<Bits>)
    requires |v| == |f| && forall i :: 0 <= i < |f| ==> f[i].word < |ws| && InWord(f[i])
    ensures |r| == |ws|
    decreases |f|
  {
    if f == [] then ws else Put(PutAll(ws, f[..|f| - 1], v[..|f| - 1]), f[|f| - 1], v[|f| - 1])
  }

  lemma {:induction false} PutAllOther(ws: seq<Bits>, f: seq<Loc>, v: seq<int>, m: Loc)
    requires |v| == |f| && Good(f, |ws|) && m.word < |ws| && InWord(m) && Apart(f, m)
    ensures Get(PutAll(ws, f, v), m) == Get(ws, m)
    decreases |f|
  {
    hide Put, Get;
    if f != [] {
      var n := |f| - 1;
      PutAllOther(ws, f[..n], v[..n], m);
      GetPutOther(PutAll(ws, f[..n], v[..n]), f[n], v[n], m);
    }
  }

  /** Each field holds the low bits of its value. */
  lemma {:induction false} PutAllGet(ws: seq<Bits>, f: seq<Loc>, v: seq<int>, i: nat)
    requires |v| == |f| && Good(f, |ws|) && i < |f|
    ensures Pow2(f[i].width) > 0 && Get(PutAll(ws, f, v), f[i]) == v[i] % Pow2(f[i].width)
    decreases |f|
  {
    hide Put, Get, Pow2;
    var n := |f| - 1;
    var before := PutAll(ws, f[..n], v[..n]);
    if i == n {
      GetPut(before, f[n], v[n]);
    } else {
      PutAllGet(ws, f[..n], v[..n], i);
      GetPutOther(before, f[n], v[n], f[i]);
    }
  }

  /** A value that fits is held unchanged. */
  lemma PutAllExact(ws: seq<Bits>, f: seq<Loc>, v: seq<int>, i: nat, l: Loc, x: int)
    requires |v| == |f| && Good(f, |ws|) && i < |f| && f[i] == l && v[i] == x && 0 <= x < Pow2(l.width)
    ensures l.word < |ws| && InWord(l) && Get(PutAll(ws, f, v), l) == x
  {
    PutAllGet(ws, f, v, i);
    ModIs(x, Pow2(l.width), 0, x);
  }

  /** The method form: bit-fields of a buffer assigned one after the other. */
  method PutFields(buf: array<Bits>, f: seq<Loc>, v: seq<int>)
    requires |v| == |f| && forall i :: 0 <= i < |f| ==> f[i].word < buf.Length && InWord(f[i])
    modifies buf
    ensures buf[..] == PutAll(old(buf[..]), f, v)
  {
    hide PutAll;
    ghost var ws := buf[..];
    PutNothing(ws);
    for i := 0 to |f|
      invariant buf[..] == PutAll(ws, f[..i], v[..i])
    {
      var l := f[i];
      PutNext(ws, f, v, i);
      var w := buf[l.word];
      buf[l.word] := w[..l.off] + Low(v[i], l.width) + w[l.off + l.width..];
    }
    assert f[..|f|] == f && v[..|f|] == v;
  }

  lemma PutNothing(ws: seq<Bits>)
    ensures PutAll(ws, [], []) == ws
  {}

  lemma PutNext(ws: seq<Bits>, f: seq<Loc>, v: seq<int>, i: nat)
    requires |v| == |f| && i < |f| && forall k :: 0 <= k < |f| ==> f[k].word < |ws| && InWord(f[k])
    ensures PutAll(ws, f[..i + 1], v[..i + 1]) == Put(PutAll(ws, f[..i], v[..i]), f[i], v[i])
  {
    assert f[..i + 1][..i] == f[..i] && v[..i + 1][..i] == v[..i];
  }

  // ---------- no two fields of a message overlap ----------

  lemma HeaderGood()
    ensures Good(HEADER, 2)
  {}

  lemma SatGood(g: nat, p: nat)
    requires p < 3
    ensures Good(SatFields(g, p), GroupWord(g) + 5)
  {}

  lemma SatsApart(g: nat, p: nat, h: nat, q: nat, i: nat)
    requires p < 3 && q < 3 && (g != h || p != q) && i < |SatFields(h, q)|
    ensures Apart(SatFields(g, p), SatFields(h, q)[i])
  {}

  lemma EcefGood()
    ensures Good(ECEF, 6)
  {}

  lemma HealthGood(n: nat)
    ensures Good(HealthFields(n), n + 3)
  {}

  lemma TextGood(n: nat, k: nat)
    requires n != k
    ensures Disjoint(TextByte(n), TextByte(k)) && InWord(TextByte(n))
  {}
}
