/** processGPGSV of nmea_parse.c: the list of satellites in view, assembled from several sentences. */
module Gsv {
  import opened Bytes
  import opened NmeaClock

  const MAXCHANNELS: nat := 20

  /** Four fields of a sentence, or a row of the satellite table. */
  datatype Block = Block(prn: int, elevation: int, azimuth: int, ss: int)

  datatype Mask = ErrorSet | SatelliteSet

  // ---------- a sentence ----------

  datatype Sentence = Malformed | Unnumbered | Part(await: int, part: int, blocks: seq<Block>)

  function BlockAt(field: seq<seq<byte>>, i: nat): Block
    requires i + 4 <= |field|
  {
    Block(Atoi(field[i]), Atoi(field[i + 1]), Atoi(field[i + 2]), Atoi(field[i + 3]))
  }

  /** The blocks from the field `i` on. */
  function Blocks(field: seq<seq<byte>>, i: nat): seq<Block>
    decreases |field| - i
  {
    if i + 4 > |field| then [] else [BlockAt(field, i)] + Blocks(field, i + 4)
  }

  /** `count` commas make one field more. */
  function Parsed(field: seq<seq<byte>>): Sentence
    requires field != []
  {
    var count := |field| - 1;
    if count <= 3 || count % 4 != 3 then Malformed
    else if !HasNumber(field[2]) then Unnumbered
    else Part(Atoi(field[1]), Atoi(field[2]), Blocks(field, 4))
  }

  // ---------- what a sentence does to the table ----------

  /** The rows after more blocks: empty ones are passed over; one more than the table holds clears it and
      ends the sentence. */
  function Filled(rows: seq<Block>, blocks: seq<Block>): (r: seq<Block>)
    requires |rows| <= MAXCHANNELS
    ensures |r| <= MAXCHANNELS
    decreases |blocks|
  {
    if blocks == [] then rows
    else if |rows| >= MAXCHANNELS then []
    else Filled(if blocks[0].prn != 0 then rows + [blocks[0]] else rows, blocks[1..])
  }

  predicate Sane(rows: seq<Block>) { exists k :: 0 <= k < |rows| && rows[k].azimuth != 0 }

  function Processed(rows: seq<Block>, s: Sentence): (r: (seq<Block>, Mask))
    requires |rows| <= MAXCHANNELS
    ensures |r.0| <= MAXCHANNELS
  {
    match s
    case Malformed => ([], ErrorSet)
    case Unnumbered => ([], ErrorSet)
    case Part(await, part, blocks) =>
      var r := Filled(if part == 1 then [] else rows, blocks);
      if part < await then (r, ErrorSet)
      else if Sane(r) then (r, SatelliteSet)
      else ([], ErrorSet)
  }

  // ---------- the driver ----------

  function RowsOf(p: seq<int>, e: seq<int>, a: seq<int>, s: seq<int>): (r: seq<Block>)
    requires |p| == |e| == |a| == |s|
    ensures |r| == |p|
  {
    seq(|p|, k requires 0 <= k < |p| => Block(p[k], e[k], a[k], s[k]))
  }

  class GsvDriver {
    const prn: array<int>
    const elevation: array<int>
    const azimuth: array<int>
    const ss: array<int>
    var satellites: nat
    var await: int
    var part: int

    ghost predicate Valid()
      reads this
    {
      && prn.Length == elevation.Length == azimuth.Length == ss.Length == MAXCHANNELS
      && prn != elevation && prn != azimuth && prn != ss && elevation != azimuth && elevation != ss && azimuth != ss
      && satellites <= MAXCHANNELS
    }

    ghost function Rows(): (r: seq<Block>)
      requires Valid()
      reads this, prn, elevation, azimuth, ss
      ensures |r| == satellites
      ensures forall k :: 0 <= k < satellites ==>
        r[k].prn == prn[k] && r[k].elevation == elevation[k] && r[k].azimuth == azimuth[k] && r[k].ss == ss[k]
    {
      RowsOf(prn[..satellites], elevation[..satellites], azimuth[..satellites], ss[..satellites])
    }

    constructor ()
      ensures Valid() && Rows() == []
      ensures fresh(prn) && fresh(elevation) && fresh(azimuth) && fresh(ss)
    {
      prn := new int[MAXCHANNELS](_ => 0);
      elevation := new int[MAXCHANNELS](_ => 0);
      azimuth := new int[MAXCHANNELS](_ => 0);
      ss := new int[MAXCHANNELS](_ => 0);
      satellites, await, part := 0, 0, 0;
    }

    /** gpsd_zero_satellites */
    method ZeroSatellites()
      requires Valid()
      modifies this`satellites, prn, elevation, azimuth, ss
      ensures Valid() && Rows() == []
    {
      forall i | 0 <= i < MAXCHANNELS { prn[i] := 0; }
      forall i | 0 <= i < MAXCHANNELS { elevation[i] := 0; }
      forall i | 0 <= i < MAXCHANNELS { azimuth[i] := 0; }
      forall i | 0 <= i < MAXCHANNELS { ss[i] := 0; }
      satellites := 0;
    }

    /** One block: written to the next row, which is kept if the satellite has a number. */
    method PutBlock(b: Block)
      requires Valid() && satellites < MAXCHANNELS
      modifies this`satellites, prn, elevation, azimuth, ss
      ensures Valid() && Rows() == old(Rows()) + if b.prn != 0 then [b] else []
    {
      prn[satellites] := b.prn;
      elevation[satellites] := b.elevation;
      azimuth[satellites] := b.azimuth;
      ss[satellites] := b.ss;
      if prn[satellites] != 0 {
        satellites := satellites + 1;
      }
    }

    method ProcessGPGSV(count: nat, field: seq<seq<byte>>) returns (mask: Mask)
      requires Valid() && |field| == count + 1
      modifies this, prn, elevation, azimuth, ss
      ensures Valid() && (Rows(), mask) == Processed(old(Rows()), Parsed(field))
    {
      mask := ErrorSet;
      if count <= 3 || count % 4 != 3 {
        ZeroSatellites();
        return;
      }
      await := Atoi(field[1]);
      if !HasNumber(field[2]) {
        ZeroSatellites();
        return;
      }
      part := Atoi(field[2]);
      if part == 1 {
        ZeroSatellites();
      }
      ReadBlocks(count, field);
      if part < await {
        return;
      }
      var sane := AnyAzimuth();
      if sane {
        mask := SatelliteSet;
      } else {
        ZeroSatellites();
      }
    }

    /** The loop over the blocks of a sentence. */
    method ReadBlocks(count: nat, field: seq<seq<byte>>)
      requires Valid() && |field| == count + 1 && count % 4 == 3
      modifies this`satellites, prn, elevation, azimuth, ss
      ensures Valid() && Rows() == Filled(old(Rows()), Blocks(field, 4))
    {
      hide Filled, Blocks, BlockAt;
      ghost var all := Filled(Rows(), Blocks(field, 4));
      var fldnum := 4;
      while fldnum < count
        invariant Valid() && fldnum % 4 == 0 && 4 <= fldnum <= count + 1
        invariant all == Filled(Rows(), Blocks(field, fldnum))
        decreases count + 1 - fldnum
      {
        BlocksNext(field, fldnum);
        FilledStops(Rows(), BlockAt(field, fldnum), Blocks(field, fldnum + 4));
        if satellites >= MAXCHANNELS {
          ZeroSatellites();
          return;
        }
        ghost var rows := Rows();
        PutBlock(BlockAt(field, fldnum));
        FilledNext(rows, BlockAt(field, fldnum), Blocks(field, fldnum + 4));
        fldnum := fldnum + 4;
      }
      NoBlocks(field, fldnum);
      FilledNothing(Rows());
    }

    method AnyAzimuth() returns (sane: bool)
      requires Valid()
      ensures sane == Sane(Rows())
    {
      sane := false;
      for n := 0 to satellites
        invariant forall k :: 0 <= k < n ==> Rows()[k].azimuth == 0
      {
        if azimuth[n] != 0 {
          assert Rows()[n].azimuth != 0;
          return true;
        }
      }
    }
  }

  lemma {:induction false} BlocksNext(field: seq<seq<byte>>, i: nat)
    requires i + 4 <= |field|
    ensures Blocks(field, i) == [BlockAt(field, i)] + Blocks(field, i + 4)
  {}

  lemma NoBlocks(field: seq<seq<byte>>, i: nat)
    requires i + 4 > |field|
    ensures Blocks(field, i) == []
  {}

  lemma FilledStops(rows: seq<Block>, b: Block, blocks: seq<Block>)
    requires |rows| <= MAXCHANNELS
    ensures |rows| == MAXCHANNELS ==> Filled(rows, [b] + blocks) == []
  {}

  lemma {:induction false} FilledNext(rows: seq<Block>, b: Block, blocks: seq<Block>)
    requires |rows| < MAXCHANNELS
    ensures Filled(rows, [b] + blocks) == Filled(rows + if b.prn != 0 then [b] else [], blocks)
  {
    assert ([b] + blocks)[1..] == blocks && rows + [] == rows;
  }

  // ---------- complete runs ----------

  /** The blocks of satellites that have a number. */
  function Numbered(blocks: seq<Block>): (r: seq<Block>)
    ensures |r| <= |blocks|
  {
    if blocks == [] then [] else (if blocks[0].prn != 0 then [blocks[0]] else []) + Numbered(blocks[1..])
  }

  lemma {:induction false} NumberedConcat(a: seq<Block>, b: seq<Block>)
    ensures Numbered(a + b) == Numbered(a) + Numbered(b)
    decreases |a|
  {
    if a == [] {
      assert a + b == b;
    } else {
      assert (a + b)[1..] == a[1..] + b;
      NumberedConcat(a[1..], b);
    }
  }

  /** There is room for the blocks: when the last of them comes, the table is not full. */
  predicate Fits(blocks: seq<Block>) {
    blocks == [] || |Numbered(blocks[..|blocks| - 1])| < MAXCHANNELS
  }

  /** Blocks that fit the table are added, those without a number passed over; else the table is cleared. */
  lemma {:induction false} FilledIs(rows: seq<Block>, blocks: seq<Block>)
    requires |rows| <= MAXCHANNELS
    ensures Filled(rows, blocks)
            == if blocks == [] || |rows| + |Numbered(blocks[..|blocks| - 1])| < MAXCHANNELS then rows + Numbered(blocks) else []
    decreases |blocks|
  {
    hide Filled, Numbered;
    NumberedFirst(blocks);
    if blocks == [] {
      FilledNothing(rows);
      assert rows + [] == rows;
    } else {
      var b, rest := blocks[0], blocks[1..];
      var more := if b.prn != 0 then [b] else [];
      assert [b] + rest == blocks;
      NumberedFirst(blocks[..|blocks| - 1]);
      if |rows| == MAXCHANNELS {
        FilledStops(rows, b, rest);
      } else {
        FilledNext(rows, b, rest);
        FilledIs(rows + more, rest);
        assert rows + more + Numbered(rest) == rows + (more + Numbered(rest));
        assert rest != [] ==> blocks[..|blocks| - 1][1..] == rest[..|rest| - 1];
      }
    }
  }

  /** The same for rows that are themselves what blocks left. */
  lemma FilledBehind(before: seq<Block>, blocks: seq<Block>)
    requires |Numbered(before)| <= MAXCHANNELS
    ensures Filled(Numbered(before), blocks)
            == if blocks == [] || Fits(before + blocks) then Numbered(before + blocks) else []
  {
    hide Filled, Numbered;
    FilledIs(Numbered(before), blocks);
    NumberedConcat(before, blocks);
    if blocks != [] {
      var front := blocks[..|blocks| - 1];
      assert (before + blocks)[..|before + blocks| - 1] == before + front;
      NumberedConcat(before, front);
    }
  }

  lemma FitsBefore(before: seq<Block>, blocks: seq<Block>)
    requires Fits(before + blocks)
    ensures Fits(before)
  {
    hide Numbered;
    if before != [] && blocks != [] {
      var all, last := before + blocks, before[..|before| - 1];
      var behind := [before[|before| - 1]] + blocks[..|blocks| - 1];
      assert all[..|all| - 1] == last + behind;
      NumberedConcat(last, behind);
    } else {
      assert blocks == [] ==> before + blocks == before;
    }
  }

  lemma FilledNothing(rows: seq<Block>)
    requires |rows| <= MAXCHANNELS
    ensures Filled(rows, []) == rows
  {}

  lemma {:induction false} NumberedFirst(blocks: seq<Block>)
    ensures blocks == [] ==> Numbered(blocks) == []
    ensures blocks != [] ==> Numbered(blocks) == (if blocks[0].prn != 0 then [blocks[0]] else []) + Numbered(blocks[1..])
  {}

  /** All blocks of several sentences. */
  function AllBlocks(parts: seq<seq<Block>>): seq<Block> {
    if parts == [] then [] else AllBlocks(parts[..|parts| - 1]) + parts[|parts| - 1]
  }

  /** The table after the first sentences of a set of `k`, and what the last of them returned. */
  function AfterParts(rows: seq<Block>, k: nat, parts: seq<seq<Block>>): (r: (seq<Block>, Mask))
    requires |rows| <= MAXCHANNELS && 1 <= |parts| <= k
    ensures |r.0| <= MAXCHANNELS
    decreases |parts|
  {
    var n := |parts|;
    Processed(if n == 1 then rows else AfterParts(rows, k, parts[..n - 1]).0, Part(k, n, parts[n - 1]))
  }

  /** Whatever the table held before, after the sentences 1 to n of a set it holds the numbered satellites
      of their blocks in order; only the last sentence of the set reports them, and it does so exactly if
      some azimuth is not zero. */
  lemma {:induction false} CompleteRun(rows: seq<Block>, k: nat, parts: seq<seq<Block>>)
    requires |rows| <= MAXCHANNELS && 1 <= |parts| <= k && Fits(AllBlocks(parts))
    ensures
      var (r, mask) := AfterParts(rows, k, parts);
      var seen := Numbered(AllBlocks(parts));
      if |parts| < k then r == seen && mask == ErrorSet
      else if Sane(seen) then r == seen && mask == SatelliteSet
      else r == [] && mask == ErrorSet
    decreases |parts|
  {
    hide Sane, Fits, Filled, Numbered;
    var n := |parts|;
    var before, blocks := AllBlocks(parts[..n - 1]), parts[n - 1];
    NumberedFirst([]);
    if n > 1 {
      FitsBefore(before, blocks);
      CompleteRun(rows, k, parts[..n - 1]);
    }
    FilledBehind(before, blocks);
    assert blocks == [] ==> before + blocks == before;
  }

  /** Otherwise the sentence that brings one block too many clears the table and reports nothing. */
  lemma Overfull(rows: seq<Block>, k: nat, parts: seq<seq<Block>>)
    requires |rows| <= MAXCHANNELS && 1 <= |parts| <= k && !Fits(AllBlocks(parts)) && Fits(AllBlocks(parts[..|parts| - 1]))
    ensures AfterParts(rows, k, parts) == ([], ErrorSet)
  {
    hide Fits, Filled, Numbered;
    var n := |parts|;
    var before, blocks := AllBlocks(parts[..n - 1]), parts[n - 1];
    NumberedFirst([]);
    if n > 1 {
      CompleteRun(rows, k, parts[..n - 1]);
    }
    FilledBehind(before, blocks);
    assert blocks == [] ==> before + blocks == before;
  }

  // ---------- complete runs, from their text ----------

  predicate AllDigits(f: seq<byte>) { forall i :: 0 <= i < |f| ==> IsDigit(f[i]) }

  /** The number in a field, the last digit the least; an empty field is zero. */
  function Shown(f: seq<byte>): nat
    requires AllDigits(f)
  {
    if f == [] then 0 else 10 * Shown(f[..|f| - 1]) + (f[|f| - 1] as int - '0' as int)
  }

  /** A field with a number in decimal digits, perhaps with zeros in front. */
  predicate Shows(f: seq<byte>, v: int) { AllDigits(f) && Shown(f) == v }

  lemma {:induction false} AtoiDigit(f: seq<byte>, d: byte, acc: nat)
    requires AllDigits(f) && IsDigit(d)
    ensures AtoiFrom(f + [d], acc) == 10 * AtoiFrom(f, acc) + (d as int - '0' as int)
    decreases |f|
  {
    var g := f + [d];
    if f == [] {
      assert g[1..] == [];
      assert AtoiFrom(g[1..], acc * 10 + (d as int - '0' as int)) == acc * 10 + (d as int - '0' as int);
    } else {
      assert g[1..] == f[1..] + [d];
      AtoiDigit(f[1..], d, acc * 10 + (f[0] as int - '0' as int));
    }
  }

  lemma {:induction false} AtoiShown(f: seq<byte>)
    requires AllDigits(f)
    ensures AtoiFrom(f, 0) == Shown(f)
    decreases |f|
  {
    if f != [] {
      var n := |f| - 1;
      AtoiShown(f[..n]);
      AtoiDigit(f[..n], f[n], 0);
      assert f[..n] + [f[n]] == f;
    }
  }

  lemma AtoiShows(f: seq<byte>, v: int)
    requires Shows(f, v)
    ensures Atoi(f) == v && (f != [] ==> HasNumber(f))
  {
    AtoiShown(f);
    hide AtoiFrom, Shown;
    assert Unblanked(f) == f && !Signed(f);
  }

  /** The fields of the sentence `n` of `k`: its tag, k, n, the number of satellites; and for each of these
      the number, elevation, azimuth and signal strength, as the standard lists them. */
  predicate SentenceOf(field: seq<seq<byte>>, k: int, n: int, sats: seq<Block>) {
    && |field| == 4 + 4 * |sats| && sats != []
    && Shows(field[1], k) && field[2] != [] && Shows(field[2], n)
    && forall i :: 0 <= i < |sats| ==> BlockShown(field[4 + 4 * i..8 + 4 * i], sats[i])
  }

  predicate BlockShown(f: seq<seq<byte>>, b: Block) {
    |f| == 4 && Shows(f[0], b.prn) && Shows(f[1], b.elevation) && Shows(f[2], b.azimuth) && Shows(f[3], b.ss)
  }

  lemma BlockAtShown(field: seq<seq<byte>>, i: nat, b: Block)
    requires i + 4 <= |field| && BlockShown(field[i..i + 4], b)
    ensures BlockAt(field, i) == b
  {
    hide Atoi, Shows;
    var f := field[i..i + 4];
    assert f[0] == field[i] && f[1] == field[i + 1] && f[2] == field[i + 2] && f[3] == field[i + 3];
    AtoiShows(f[0], b.prn);
    AtoiShows(f[1], b.elevation);
    AtoiShows(f[2], b.azimuth);
    AtoiShows(f[3], b.ss);
  }

  lemma {:induction false} BlocksShown(field: seq<seq<byte>>, j: nat, sats: seq<Block>)
    requires |field| == 4 + 4 * |sats| && j <= |sats|
    requires forall i :: 0 <= i < |sats| ==> BlockShown(field[4 + 4 * i..8 + 4 * i], sats[i])
    ensures Blocks(field, 4 + 4 * j) == sats[j..]
    decreases |sats| - j
  {
    hide BlockAt, Blocks, BlockShown;
    if j == |sats| {
      NoBlocks(field, 4 + 4 * j);
    } else {
      BlocksNext(field, 4 + 4 * j);
      assert BlockShown(field[4 + 4 * j..8 + 4 * j], sats[j]);
      BlockAtShown(field, 4 + 4 * j, sats[j]);
      BlocksShown(field, j + 1, sats);
      assert 4 + 4 * j + 4 == 4 + 4 * (j + 1) && sats[j..] == [sats[j]] + sats[j + 1..];
    }
  }

  /** A sentence is read as what it shows. */
  lemma ParsedShown(field: seq<seq<byte>>, k: int, n: int, sats: seq<Block>)
    requires SentenceOf(field, k, n, sats)
    ensures Parsed(field) == Part(k, n, sats)
  {
    hide Atoi, Shows, Blocks, BlockShown, HasNumber;
    AtoiShows(field[1], k);
    AtoiShows(field[2], n);
    BlocksShown(field, 0, sats);
    assert sats[0..] == sats;
  }

  /** The table after several sentences, and what the last of them returned. */
  function AfterSentences(rows: seq<Block>, fields: seq<seq<seq<byte>>>): (r: (seq<Block>, Mask))
    requires |rows| <= MAXCHANNELS && fields != [] && forall n :: 0 <= n < |fields| ==> fields[n] != []
    ensures |r.0| <= MAXCHANNELS
    decreases |fields|
  {
    var n := |fields| - 1;
    Processed(if n == 0 then rows else AfterSentences(rows, fields[..n]).0, Parsed(fields[n]))
  }

  /** The sentences 1, 2 and so on of a set of `k`. */
  predicate SentencesOf(fields: seq<seq<seq<byte>>>, k: int, parts: seq<seq<Block>>) {
    |fields| == |parts| && forall n :: 0 <= n < |parts| ==> SentenceOf(fields[n], k, n + 1, parts[n])
  }

  lemma {:induction false} SentencesAreParts(rows: seq<Block>, k: nat, fields: seq<seq<seq<byte>>>, parts: seq<seq<Block>>)
    requires |rows| <= MAXCHANNELS && 1 <= |parts| <= k && SentencesOf(fields, k, parts)
    ensures (forall n :: 0 <= n < |fields| ==> fields[n] != [])
    ensures AfterSentences(rows, fields) == AfterParts(rows, k, parts)
    decreases |parts|
  {
    hide Parsed, Processed, SentenceOf;
    forall n | 0 <= n < |fields| ensures fields[n] != [] {
      assert SentenceOf(fields[n], k, n + 1, parts[n]);
      SentenceNotEmpty(fields[n], k, n + 1, parts[n]);
    }
    var n := |parts| - 1;
    assert SentenceOf(fields[n], k, n + 1, parts[n]);
    ParsedShown(fields[n], k, n + 1, parts[n]);
    if n > 0 {
      SentencesAreParts(rows, k, fields[..n], parts[..n]);
    }
  }

  lemma SentenceNotEmpty(field: seq<seq<byte>>, k: int, n: int, sats: seq<Block>)
    requires SentenceOf(field, k, n, sats)
    ensures field != []
  {}

  /** Whatever the table held before, after the sentences 1 to n of a set of k it holds the satellites that
      they show and number, in order, each quantity in its own column; only the last of the set reports
      them, and it does so exactly if some azimuth is not zero. */
  lemma SentencesCollected(rows: seq<Block>, k: nat, fields: seq<seq<seq<byte>>>, parts: seq<seq<Block>>)
    requires |rows| <= MAXCHANNELS && 1 <= |parts| <= k && Fits(AllBlocks(parts))
    requires SentencesOf(fields, k, parts)
    ensures (forall n :: 0 <= n < |fields| ==> fields[n] != [])
    ensures
      var (r, mask) := AfterSentences(rows, fields);
      var seen := Numbered(AllBlocks(parts));
      if |parts| < k then r == seen && mask == ErrorSet
      else if Sane(seen) then r == seen && mask == SatelliteSet
      else r == [] && mask == ErrorSet
  {
    hide SentencesOf, Fits, AfterSentences, AfterParts, AllBlocks, Numbered, Sane;
    SentencesAreParts(rows, k, fields, parts);
    CompleteRun(rows, k, parts);
  }

  // ---------- there are such sentences ----------

  lemma {:induction false} ShownStep(f: seq<byte>, d: nat)
    requires AllDigits(f) && d < 10
    ensures AllDigits(f + ['0' as int + d]) && Shown(f + ['0' as int + d]) == 10 * Shown(f) + d
  {
    var g := f + ['0' as int + d];
    assert g[..|g| - 1] == f;
  }

  lemma {:induction false} DecimalShows(n: nat)
    ensures Shows(Decimal(n), n) && Decimal(n) != []
    decreases n
  {
    hide Shown, AllDigits;
    if n < 10 {
      NothingShown();
      ShownStep([], n);
      assert Decimal(n) == [] + ['0' as int + n % 10];
    } else {
      DecimalShows(n / 10);
      ShownStep(Decimal(n / 10), n % 10);
    }
  }

  lemma NothingShown()
    ensures AllDigits([]) && Shown([]) == 0
  {}

  /** The fields of a sentence, as a receiver prints them. */
  function Print(k: nat, n: nat, total: nat, sats: seq<Block>): (r: seq<seq<byte>>)
    requires forall i :: 0 <= i < |sats| ==> Printable(sats[i])
    ensures |r| == 4 + 4 * |sats|
    decreases |sats|
  {
    if sats == [] then [['G' as int, 'P' as int, 'G' as int, 'S' as int, 'V' as int], Decimal(k), Decimal(n), Decimal(total)]
    else
      var b := sats[|sats| - 1];
      assert Printable(b);
      Print(k, n, total, sats[..|sats| - 1]) + [Decimal(b.prn), Decimal(b.elevation), Decimal(b.azimuth), Decimal(b.ss)]
  }

  predicate Printable(b: Block) { b.prn >= 0 && b.elevation >= 0 && b.azimuth >= 0 && b.ss >= 0 }

  lemma {:induction false} PrintShows(k: nat, n: nat, total: nat, sats: seq<Block>)
    requires forall i :: 0 <= i < |sats| ==> Printable(sats[i])
    ensures var f := Print(k, n, total, sats); f[1] == Decimal(k) && f[2] == Decimal(n)
    ensures forall i :: 0 <= i < |sats| ==> BlockShown(Print(k, n, total, sats)[4 + 4 * i..8 + 4 * i], sats[i])
    decreases |sats|
  {
    hide Shows, Decimal;
    if sats != [] {
      var m := |sats| - 1;
      assert Printable(sats[m]);
      var f, g, b := Print(k, n, total, sats), Print(k, n, total, sats[..m]), sats[m];
      PrintShows(k, n, total, sats[..m]);
      DecimalShows(b.prn);
      DecimalShows(b.elevation);
      DecimalShows(b.azimuth);
      DecimalShows(b.ss);
      forall i | 0 <= i < |sats| ensures BlockShown(f[4 + 4 * i..8 + 4 * i], sats[i]) {
        if i < m {
          assert BlockShown(g[4 + 4 * i..8 + 4 * i], sats[..m][i]);
          assert f[4 + 4 * i..8 + 4 * i] == g[4 + 4 * i..8 + 4 * i];
        } else {
          assert f[4 + 4 * i..8 + 4 * i] == [Decimal(b.prn), Decimal(b.elevation), Decimal(b.azimuth), Decimal(b.ss)];
        }
      }
    }
  }

  lemma PrintIsSentence(k: nat, n: nat, total: nat, sats: seq<Block>)
    requires sats != [] && forall i :: 0 <= i < |sats| ==> Printable(sats[i])
    ensures SentenceOf(Print(k, n, total, sats), k, n, sats)
  {
    hide Print, Shows, Decimal, BlockShown;
    PrintShows(k, n, total, sats);
    DecimalShows(k);
    DecimalShows(n);
  }
}
