/** The daemon's satellite report, printed in gpsd.c and taken apart by gps_unpack in libgps.c. */
module YReport {
  import opened Bytes

  const MAXCHANNELS: nat := 20
  const MAXTAGLEN: nat := 8

  const ZERO: byte := '0' as int
  const MINUS: byte := '-' as int
  const BLANK: byte := ' ' as int
  const COLON: byte := ':' as int
  const COMMA: byte := ',' as int

  // ---------- numbers ----------

  /** "%d" */
  function Printed(i: int): (s: seq<byte>)
    ensures s != []
  {
    if i < 0 then [MINUS] + Decimal(-i) else Decimal(i)
  }

  function ScanDigits(s: seq<byte>, acc: nat): (nat, seq<byte>)
    decreases |s|
  {
    if s == [] || !IsDigit(s[0]) then (acc, s) else ScanDigits(s[1..], acc * 10 + (s[0] as int - ZERO as int))
  }

  function SkipBlanks(s: seq<byte>): (t: seq<byte>)
    ensures |t| <= |s|
  {
    if s == [] || !IsSpace(s[0]) then s else SkipBlanks(s[1..])
  }

  /** sscanf's "%d": a number and what follows it. */
  function Scan(s: seq<byte>): Option<(int, seq<byte>)> {
    var t := SkipBlanks(s);
    if t == [] then None
    else if t[0] == MINUS then
      if |t| == 1 || !IsDigit(t[1]) then None
      else var (n, rest) := ScanDigits(t[1..], 0); Some((-(n as int), rest))
    else if !IsDigit(t[0]) then None
    else var (n, rest) := ScanDigits(t, 0); Some((n, rest))
  }

  lemma {:induction false} DecimalDigits(n: nat)
    ensures forall k :: 0 <= k < |Decimal(n)| ==> IsDigit(Decimal(n)[k])
    decreases n
  {
    if n >= 10 {
      DecimalDigits(n / 10);
    }
  }

  lemma {:induction false} ScanDigitsConcat(s: seq<byte>, rest: seq<byte>, acc: nat)
    requires forall k :: 0 <= k < |s| ==> IsDigit(s[k])
    ensures ScanDigits(s + rest, acc) == ScanDigits(rest, ScanDigits(s, acc).0)
    decreases |s|
  {
    if s == [] {
      assert s + rest == rest;
    } else {
      assert (s + rest)[1..] == s[1..] + rest;
      ScanDigitsConcat(s[1..], rest, acc * 10 + (s[0] as int - ZERO as int));
    }
  }

  lemma {:induction false} ScanDecimal(n: nat)
    ensures ScanDigits(Decimal(n), 0) == (n, [])
    decreases n
  {
    var last: seq<byte> := [ZERO as int + n % 10];
    var head := if n < 10 then [] else Decimal(n / 10);
    var before := n / 10;
    assert ScanDigits(head, 0).0 == before && forall k :: 0 <= k < |head| ==> IsDigit(head[k]) by {
      if n >= 10 {
        ScanDecimal(n / 10);
        DecimalDigits(n / 10);
      }
    }
    ScanDigitsConcat(head, last, 0);
    assert last[1..] == [];
    assert ScanDigits(last, before) == (before * 10 + n % 10, []);
  }

  /** A printed number is scanned back, up to the first character that is no digit. */
  lemma {:induction false} ScanPrinted(i: int, rest: seq<byte>)
    requires rest == [] || !IsDigit(rest[0])
    ensures Scan(Printed(i) + rest) == Some((i, rest))
  {
    var n: nat := if i < 0 then -i else i;
    var d := Decimal(n);
    DecimalDigits(n);
    ScanDecimal(n);
    ScanDigitsConcat(d, rest, 0);
    var s := Printed(i) + rest;
    assert IsDigit(d[0]);
    if i < 0 {
      assert s == [MINUS] + (d + rest) && s[1..] == d + rest;
    } else {
      assert s == d + rest;
    }
    hide Decimal, ScanDigits;
    assert SkipBlanks(s) == s;
  }

  lemma {:induction false} ScanBlank(s: seq<byte>)
    ensures Scan([BLANK] + s) == Scan(s)
  {
    assert ([BLANK] + s)[1..] == s;
    assert SkipBlanks([BLANK] + s) == SkipBlanks(s);
  }

  // ---------- the report ----------

  /** A row of the daemon's satellite table. */
  datatype Row = Row(prn: int, elevation: int, azimuth: int, ss: int)

  /** A row of the client's table. */
  datatype Seen = Seen(prn: int, elevation: int, azimuth: int, ss: int, used: int)

  function Used(row: Row, used: seq<int>): int { if row.prn in used then 1 else 0 }

  /** The rows with a satellite number, and whether it is in the list of those used. */
  function Reported(rows: seq<Row>, used: seq<int>): (r: seq<Seen>)
    ensures |r| <= |rows|
  {
    if rows == [] then []
    else
      var n := |rows| - 1;
      Reported(rows[..n], used) +
      if rows[n].prn == 0 then []
      else [Seen(rows[n].prn, rows[n].elevation, rows[n].azimuth, rows[n].ss, Used(rows[n], used))]
  }

  /** "%d %d %d %d %d", without the colon. */
  function RowText(r: Seen): seq<byte> {
    Printed(r.prn) + [BLANK] + (Printed(r.elevation) + [BLANK] + (Printed(r.azimuth) + [BLANK]
    + (Printed(r.ss) + [BLANK] + Printed(r.used))))
  }

  function RowsText(rs: seq<Seen>): seq<byte> {
    if rs == [] then [] else RowsText(rs[..|rs| - 1]) + (RowText(rs[|rs| - 1]) + [COLON])
  }

  /** What stands in front of the first colon. */
  function Head(tag: seq<byte>, stamp: seq<byte>, reported: nat): seq<byte> {
    ['Y' as int, '=' as int] + (if tag == [] then [MINUS] else tag) + [BLANK] + stamp + [BLANK] + Decimal(reported)
  }

  function Report(tag: seq<byte>, stamp: seq<byte>, rs: seq<Seen>): seq<byte> {
    Head(tag, stamp, |rs|) + [COLON] + RowsText(rs)
  }

  const NO_REPORT: seq<byte> := ['Y' as int, '=' as int, '?' as int]

  /** The Y case of handle_gpsd_request. The comma in front of the phrase separates it from the last; the
      time stamp comes formatted. */
  method PrintReport(tag: seq<byte>, stamp: seq<byte>, rows: seq<Row>, used: seq<int>) returns (phrase: seq<byte>)
    requires |rows| <= MAXCHANNELS
    ensures phrase == [COMMA] + if rows == [] then NO_REPORT else Report(tag, stamp, Reported(rows, used))
  {
    hide Head, RowsText, Reported;
    if |rows| == 0 {
      return [COMMA] + NO_REPORT;
    }
    var reported := CountReported(rows, used);
    var text := PrintRows(rows, used);
    phrase := [COMMA] + (Head(tag, stamp, reported) + [COLON] + text);
  }

  method CountReported(rows: seq<Row>, ghost used: seq<int>) returns (reported: nat)
    ensures reported == |Reported(rows, used)|
  {
    hide Reported;
    NothingReported(used);
    reported := 0;
    assert rows[..0] == [];
    for i := 0 to |rows|
      invariant reported == |Reported(rows[..i], used)|
    {
      ReportedNext(rows, used, i);
      if rows[i].prn != 0 {
        reported := reported + 1;
      }
    }
    assert rows[..|rows|] == rows;
  }

  method PrintRows(rows: seq<Row>, used: seq<int>) returns (text: seq<byte>)
    ensures text == RowsText(Reported(rows, used))
  {
    hide RowText, RowsText, Reported;
    NothingReported(used);
    text := [];
    assert rows[..0] == [];
    for i := 0 to |rows|
      invariant text == RowsText(Reported(rows[..i], used))
    {
      ReportedNext(rows, used, i);
      var flag := FindUsed(rows[i].prn, used);
      if rows[i].prn != 0 {
        var r := Seen(rows[i].prn, rows[i].elevation, rows[i].azimuth, rows[i].ss, flag);
        RowsTextNext(Reported(rows[..i], used), r);
        text := text + (RowText(r) + [COLON]);
      }
    }
    assert rows[..|rows|] == rows;
  }

  lemma NothingReported(used: seq<int>)
    ensures Reported([], used) == [] && RowsText([]) == []
  {}

  method FindUsed(prn: int, used: seq<int>) returns (flag: int)
    ensures flag == if prn in used then 1 else 0
  {
    flag := 0;
    for j := 0 to |used|
      invariant prn !in used[..j]
    {
      if used[j] == prn {
        return 1;
      }
    }
  }

  lemma {:induction false} ReportedNext(rows: seq<Row>, used: seq<int>, i: nat)
    requires i < |rows|
    ensures Reported(rows[..i + 1], used) ==
            Reported(rows[..i], used) + if rows[i].prn == 0 then []
              else [Seen(rows[i].prn, rows[i].elevation, rows[i].azimuth, rows[i].ss, Used(rows[i], used))]
    ensures rows[i].prn == 0 ==> Reported(rows[..i + 1], used) == Reported(rows[..i], used)
  {
    assert rows[..i + 1][..i] == rows[..i];
    assert Reported(rows[..i], used) + [] == Reported(rows[..i], used);
  }

  lemma RowsTextNext(rs: seq<Seen>, r: Seen)
    ensures RowsText(rs + [r]) == RowsText(rs) + (RowText(r) + [COLON])
  {
    assert (rs + [r])[..|rs|] == rs;
  }

  // ---------- the client ----------

  /** strchr for a colon, and past it. */
  function AfterColon(s: seq<byte>): Option<seq<byte>> {
    if s == [] then None else if s[0] == COLON then Some(s[1..]) else AfterColon(s[1..])
  }

  /** sscanf's "%d" into a variable that keeps its value when nothing is scanned; nothing more is scanned
      after that. */
  function ScanInto(s: Option<seq<byte>>, held: int): (int, Option<seq<byte>>) {
    if s.None? then (held, None)
    else
      match Scan(s.value)
      case None => (held, None)
      case Some((i, rest)) => (i, Some(rest))
  }

  /** "%d %d %d %d %d" */
  function ScanRow(s: seq<byte>, last: Seen): Seen {
    var (i1, s1) := ScanInto(Some(s), last.prn);
    var (i2, s2) := ScanInto(s1, last.elevation);
    var (i3, s3) := ScanInto(s2, last.azimuth);
    var (i4, s4) := ScanInto(s3, last.ss);
    var (i5, s5) := ScanInto(s4, last.used);
    Seen(i1, i2, i3, i4, i5)
  }

  const NOTHING: Seen := Seen(0, 0, 0, 0, 0)

  /** The rows behind the next `n` colons; `last` is what the five variables hold. */
  function ReadRows(sp: Option<seq<byte>>, n: nat, last: Seen): (r: seq<Seen>)
    ensures |r| == n
    decreases n
  {
    if n == 0 then []
    else
      var t := if sp.None? then None else AfterColon(sp.value);
      if t.None? then [NOTHING] + ReadRows(None, n - 1, last)
      else
        var v := ScanRow(t.value, last);
        [v] + ReadRows(t, n - 1, v)
  }

  /** The number of rows flagged as used. */
  function CountUsed(rs: seq<Seen>): nat {
    if rs == [] then 0 else CountUsed(rs[..|rs| - 1]) + if rs[|rs| - 1].used == 1 then 1 else 0
  }

  /** A word of at most `limit` characters, as "%8s" and "%20s" take it. */
  function Word(s: seq<byte>, limit: nat): (w: seq<byte>)
    ensures |w| <= |s|
  {
    if s == [] || IsSpace(s[0]) || limit == 0 then [] else [s[0]] + Word(s[1..], limit - 1)
  }

  class GpsData {
    var satellites: int
    var satellitesUsed: nat
    var tag: seq<byte>
    const table: array<Seen>

    constructor ()
      ensures table.Length == MAXCHANNELS && fresh(table)
    {
      satellites, satellitesUsed, tag := 0, 0, [];
      table := new Seen[MAXCHANNELS](_ => NOTHING);
    }

    /** The Y case of gps_unpack on its field of the response. `junk` stands for the local variables,
        which are not initialised. The count announced must be there and fit the client's arrays. */
    method UnpackReport(sp: seq<byte>, junk: Seen) returns (stamp: seq<byte>)
      requires |sp| >= 2 && table.Length == MAXCHANNELS
      requires |sp| < 3 || sp[2] != '?' as int ==>
        var c := Count(sp); c.Some? && c.value <= MAXCHANNELS
      modifies this, table
      ensures |sp| >= 3 && sp[2] == '?' as int ==> satellites == 0 && stamp == []
      ensures |sp| < 3 || sp[2] != '?' as int ==>
        var rs := ReadRows(Some(sp), if Count(sp).value < 0 then 0 else Count(sp).value, junk);
        && tag == TagOf(sp) && stamp == StampOf(sp) && satellites == Count(sp).value
        && table[..|rs|] == rs && satellitesUsed == CountUsed(rs)
    {
      hide ReadRows, TagOf, StampOf, Count, CountUsed;
      stamp := [];
      if |sp| >= 3 && sp[2] == '?' as int {
        satellites := 0;
        return;
      }
      tag, stamp, satellites := TagOf(sp), StampOf(sp), Count(sp).value;
      ReadTable(sp, if satellites < 0 then 0 else satellites, junk);
    }

    method ReadTable(sp: seq<byte>, n: nat, junk: Seen)
      requires n <= table.Length
      modifies this`satellitesUsed, table
      ensures var rs := ReadRows(Some(sp), n, junk); table[..n] == rs && satellitesUsed == CountUsed(rs)
    {
      hide AfterColon, ScanRow, ReadRows;
      ghost var all := ReadRows(Some(sp), n, junk);
      var s, last := Some(sp), junk;
      satellitesUsed := 0;
      assert all[..0] == [] && all[0..] == all;
      for j := 0 to n
        invariant table[..j] == all[..j] && satellitesUsed == CountUsed(all[..j])
        invariant all[j..] == ReadRows(s, n - j, last)
      {
        RowsNext(s, n - j, last);
        var row := NOTHING;
        s := if s.None? then None else AfterColon(s.value);
        if s.Some? {
          last := ScanRow(s.value, last);
          row := last;
        }
        assert all[j] == all[j..][0] == row && all[j..][1..] == all[j + 1..];
        table[j] := row;
        if row.used == 1 {
          satellitesUsed := satellitesUsed + 1;
        }
        assert all[..j + 1][..j] == all[..j] && all[..j + 1] == all[..j] + [row];
        assert table[..j + 1] == table[..j] + [row];
      }
      assert all[..n] == all;
    }
  }

  lemma {:induction false} RowsNext(sp: Option<seq<byte>>, n: nat, last: Seen)
    requires n > 0
    ensures var t := if sp.None? then None else AfterColon(sp.value);
            var v := if t.None? then NOTHING else ScanRow(t.value, last);
            ReadRows(sp, n, last) == [v] + ReadRows(t, n - 1, if t.None? then last else v)
  {
    hide AfterColon, ScanRow;
  }

  function TagOf(sp: seq<byte>): seq<byte>
    requires |sp| >= 2
  {
    Word(SkipBlanks(sp[2..]), MAXTAGLEN)
  }

  function AfterTag(sp: seq<byte>): seq<byte>
    requires |sp| >= 2
  {
    SkipBlanks(sp[2..])[|TagOf(sp)|..]
  }

  function StampOf(sp: seq<byte>): seq<byte>
    requires |sp| >= 2
  {
    Word(SkipBlanks(AfterTag(sp)), 20)
  }

  /** The number of satellites announced. */
  function Count(sp: seq<byte>): Option<int>
    requires |sp| >= 2
  {
    match Scan(SkipBlanks(AfterTag(sp))[|StampOf(sp)|..])
    case None => None
    case Some((n, rest)) => Some(n)
  }

  // ---------- the two together ----------

  lemma {:induction false} AfterColonIs(s: seq<byte>, rest: seq<byte>)
    requires COLON !in s
    ensures AfterColon(s + [COLON] + rest) == Some(rest)
    decreases |s|
  {
    var t := s + [COLON] + rest;
    if s == [] {
      assert t[1..] == rest;
    } else {
      assert t[1..] == s[1..] + [COLON] + rest;
      AfterColonIs(s[1..], rest);
    }
  }

  /** A row is scanned back whatever the variables held. */
  lemma ScanRowText(r: Seen, rest: seq<byte>, last: Seen)
    ensures ScanRow(RowText(r) + [COLON] + rest, last) == r
  {
    hide Printed, Scan;
    var e := [COLON] + rest;
    var t5 := Printed(r.used) + e;
    var t4 := Printed(r.ss) + ([BLANK] + t5);
    var t3 := Printed(r.azimuth) + ([BLANK] + t4);
    var t2 := Printed(r.elevation) + ([BLANK] + t3);
    assert RowText(r) + [COLON] + rest == Printed(r.prn) + ([BLANK] + t2);
    ScanPrinted(r.prn, [BLANK] + t2);
    ScanBlank(t2);
    ScanPrinted(r.elevation, [BLANK] + t3);
    ScanBlank(t3);
    ScanPrinted(r.azimuth, [BLANK] + t4);
    ScanBlank(t4);
    ScanPrinted(r.ss, [BLANK] + t5);
    ScanBlank(t5);
    ScanPrinted(r.used, e);
  }

  lemma PrintedPlain(i: int)
    ensures COLON !in Printed(i)
  {
    DecimalDigits(if i < 0 then -i else i);
  }

  lemma RowTextPlain(r: Seen)
    ensures COLON !in RowText(r)
  {
    PrintedPlain(r.prn);
    PrintedPlain(r.elevation);
    PrintedPlain(r.azimuth);
    PrintedPlain(r.ss);
    PrintedPlain(r.used);
    hide Printed;
  }

  lemma {:induction false} RowsTextFirst(rs: seq<Seen>)
    requires rs != []
    ensures RowsText(rs) == RowText(rs[0]) + [COLON] + RowsText(rs[1..])
    decreases |rs|
  {
    hide RowText;
    var n := |rs| - 1;
    if n == 0 {
      assert rs[..0] == [] && rs[1..] == [];
    } else {
      RowsTextFirst(rs[..n]);
      var middle := rs[1..][..n - 1];
      assert rs[..n][1..] == middle && rs[1..][n - 1] == rs[n];
      assert RowsText(rs[1..]) == RowsText(middle) + (RowText(rs[n]) + [COLON]);
      var first, last := RowText(rs[0]) + [COLON], RowText(rs[n]) + [COLON];
      assert first + RowsText(middle) + last == first + (RowsText(middle) + last);
    }
  }

  /** The rows printed behind a text without colons are read back. */
  lemma {:induction false} RowsReadBack(head: seq<byte>, rs: seq<Seen>, last: Seen)
    requires COLON !in head
    ensures ReadRows(Some(head + [COLON] + RowsText(rs)), |rs|, last) == rs
    decreases |rs|
  {
    hide RowText, ScanRow, RowsText;
    AfterColonIs(head, RowsText(rs));
    if rs != [] {
      RowsTextFirst(rs);
      ScanRowText(rs[0], RowsText(rs[1..]), last);
      RowTextPlain(rs[0]);
      RowsReadBack(RowText(rs[0]), rs[1..], rs[0]);
    }
  }

  /** A word the client's sscanf takes whole. */
  predicate IsWord(w: seq<byte>, limit: nat) {
    1 <= |w| <= limit && COLON !in w && forall k :: 0 <= k < |w| ==> !IsSpace(w[k])
  }

  lemma {:induction false} WordIs(w: seq<byte>, rest: seq<byte>, limit: nat)
    requires |w| <= limit && (forall k :: 0 <= k < |w| ==> !IsSpace(w[k])) && rest != [] && IsSpace(rest[0])
    ensures Word(w + rest, limit) == w
    decreases |w|
  {
    if w == [] {
      assert w + rest == rest;
    } else {
      assert (w + rest)[1..] == w[1..] + rest;
      WordIs(w[1..], rest, limit - 1);
    }
  }

  lemma NoBlanks(w: seq<byte>, rest: seq<byte>)
    requires w != [] && !IsSpace(w[0])
    ensures SkipBlanks(w + rest) == w + rest && SkipBlanks([BLANK] + (w + rest)) == w + rest
  {
    assert ([BLANK] + (w + rest))[1..] == w + rest;
  }

  /** The client reads the tag, the time stamp and the count as they were printed. */
  lemma HeadReadBack(tag: seq<byte>, stamp: seq<byte>, rs: seq<Seen>)
    requires (tag == [] || IsWord(tag, MAXTAGLEN)) && IsWord(stamp, 20)
    ensures var sp := Report(tag, stamp, rs);
            |sp| >= 2 && TagOf(sp) == (if tag == [] then [MINUS] else tag) && StampOf(sp) == stamp && Count(sp) == Some(|rs|)
  {
    hide RowsText, Decimal, Scan, Word, SkipBlanks;
    var sp := Report(tag, stamp, rs);
    var t := if tag == [] then [MINUS] else tag;
    var e := [COLON] + RowsText(rs);
    var n := Decimal(|rs|);
    var s2 := [BLANK] + (n + e);
    var s1 := [BLANK] + (stamp + s2);
    assert sp[2..] == t + s1;
    NoBlanks(t, s1);
    WordIs(t, s1, MAXTAGLEN);
    assert (t + s1)[|t|..] == s1;
    NoBlanks(stamp, s2);
    WordIs(stamp, s2, 20);
    assert (stamp + s2)[|stamp|..] == s2;
    assert n == Printed(|rs|);
    ScanBlank(n + e);
    ScanPrinted(|rs|, e);
  }

  /** The report, printed and unpacked: the client's table is the daemon's rows with a satellite number, in
      order and with their flags, whatever was in the client's variables. */
  lemma ReportReadBack(tag: seq<byte>, stamp: seq<byte>, rows: seq<Row>, used: seq<int>, junk: Seen)
    requires (tag == [] || IsWord(tag, MAXTAGLEN)) && IsWord(stamp, 20)
    ensures
      var rs := Reported(rows, used);
      var sp := Report(tag, stamp, rs);
      && |sp| >= 2 && Count(sp) == Some(|rs|) && ReadRows(Some(sp), |rs|, junk) == rs
      && CountUsed(rs) == CountListed(rows, used)
  {
    var rs := Reported(rows, used);
    HeadReadBack(tag, stamp, rs);
    HeadPlain(tag, stamp, |rs|);
    hide Head, Count;
    RowsReadBack(Head(tag, stamp, |rs|), rs, junk);
    CountsAgree(rows, used);
  }

  lemma HeadPlain(tag: seq<byte>, stamp: seq<byte>, n: nat)
    requires (tag == [] || IsWord(tag, MAXTAGLEN)) && IsWord(stamp, 20)
    ensures COLON !in Head(tag, stamp, n)
  {
    PrintedPlain(n);
    hide Decimal;
  }

  /** The daemon's rows with a number that is in the list of those used. */
  function CountListed(rows: seq<Row>, used: seq<int>): nat {
    if rows == [] then 0
    else CountListed(rows[..|rows| - 1], used) + if rows[|rows| - 1].prn != 0 && rows[|rows| - 1].prn in used then 1 else 0
  }

  lemma {:induction false} CountsAgree(rows: seq<Row>, used: seq<int>)
    ensures CountUsed(Reported(rows, used)) == CountListed(rows, used)
    decreases |rows|
  {
    if rows != [] {
      var n := |rows| - 1;
      CountsAgree(rows[..n], used);
      var before, all := Reported(rows[..n], used), Reported(rows, used);
      if rows[n].prn != 0 {
        assert all[..|all| - 1] == before;
      } else {
        assert all == before;
      }
    }
  }

  // ---------- the field loop ----------

  predicate Separates(c: byte) { c == COMMA || c == '\r' as int || c == '\n' as int }

  /** What strcspn leaves of a response: the field it begins with. */
  function FieldOf(s: seq<byte>): seq<byte> {
    if s == [] || Separates(s[0]) then [] else [s[0]] + FieldOf(s[1..])
  }

  lemma {:induction false} FieldIs(f: seq<byte>, rest: seq<byte>)
    requires (forall k :: 0 <= k < |f| ==> !Separates(f[k])) && rest != [] && Separates(rest[0])
    ensures FieldOf(f + rest) == f
    decreases |f|
  {
    if f == [] {
      assert f + rest == rest;
    } else {
      assert (f + rest)[1..] == f[1..] + rest;
      FieldIs(f[1..], rest);
    }
  }

  predicate NoSeparator(s: seq<byte>) { forall k :: 0 <= k < |s| ==> !Separates(s[k]) }

  lemma PrintedNoSeparator(i: int)
    ensures NoSeparator(Printed(i))
  {
    DecimalDigits(if i < 0 then -i else i);
  }

  lemma RowTextNoSeparator(r: Seen)
    ensures NoSeparator(RowText(r))
  {
    PrintedNoSeparator(r.prn);
    PrintedNoSeparator(r.elevation);
    PrintedNoSeparator(r.azimuth);
    PrintedNoSeparator(r.ss);
    PrintedNoSeparator(r.used);
    hide Printed;
  }

  lemma {:induction false} RowsTextNoSeparator(rs: seq<Seen>)
    ensures NoSeparator(RowsText(rs))
    decreases |rs|
  {
    hide RowText;
    if rs != [] {
      RowsTextNoSeparator(rs[..|rs| - 1]);
      RowTextNoSeparator(rs[|rs| - 1]);
    }
  }

  /** The report reaches the Y case whole: it holds no comma and no line end, up to the one that ends it. */
  lemma ReportIsOneField(tag: seq<byte>, stamp: seq<byte>, rs: seq<Seen>, rest: seq<byte>)
    requires NoSeparator(tag) && NoSeparator(stamp) && rest != [] && Separates(rest[0])
    ensures FieldOf(Report(tag, stamp, rs) + rest) == Report(tag, stamp, rs)
  {
    PrintedNoSeparator(|rs|);
    RowsTextNoSeparator(rs);
    hide RowsText, Decimal;
    FieldIs(Report(tag, stamp, rs), rest);
  }

  // ---------- no satellites, and a sample ----------

  /** The phrase for an empty table tells the client that there are no satellites. */
  method EmptyReported(client: GpsData, tag: seq<byte>, stamp: seq<byte>, used: seq<int>, junk: Seen)
    requires client.table.Length == MAXCHANNELS
    modifies client, client.table
    ensures client.satellites == 0
  {
    var phrase := PrintReport(tag, stamp, [], used);
    assert phrase[1..] == NO_REPORT;
    var nothing := client.UnpackReport(phrase[1..], junk);
  }

  /** Number, elevation, azimuth, signal strength and whether the satellite is used, as gpsd's manual page
      lists them: 3 40 183 46 1. */
  lemma RowSample()
    ensures RowText(Seen(3, 40, 183, 46, 1)) ==
      ['3' as int, BLANK, '4' as int, '0' as int, BLANK, '1' as int, '8' as int, '3' as int, BLANK, '4' as int, '6' as int, BLANK, '1' as int]
  {
    OneDigit(3);
    OneDigit(1);
    OneDigit(4);
    MoreDigits(40);
    MoreDigits(46);
    MoreDigits(18);
    MoreDigits(183);
    hide Decimal;
  }

  lemma OneDigit(n: nat)
    requires n < 10
    ensures Decimal(n) == [ZERO as int + n]
  {}

  lemma MoreDigits(n: nat)
    requires n >= 10
    ensures Decimal(n) == Decimal(n / 10) + [ZERO as int + n % 10]
  {}
}
