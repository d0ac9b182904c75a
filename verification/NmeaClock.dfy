/** How nmea_parse.c keeps the date: ZDA sets it, and sentences that carry only a time of day move it on. */
module NmeaClock {
  import opened Bytes
  import opened Calendar

  const ZERO: byte := '0' as int

  // ---------- the fields ----------

  /** Two digits of a field as a number. */
  function DD(s: seq<byte>, i: nat): int
    requires i + 2 <= |s|
  {
    (s[i] as int - ZERO as int) * 10 + (s[i + 1] as int - ZERO as int)
  }

  /** A number's text behind leading blanks. */
  function Unblanked(s: seq<byte>): seq<byte> {
    if s != [] && IsSpace(s[0]) then Unblanked(s[1..]) else s
  }

  predicate Signed(s: seq<byte>) { s != [] && (s[0] == '-' as int || s[0] == '+' as int) }

  /** atoi: zero where there is no number. */
  function Atoi(s: seq<byte>): int {
    var t := Unblanked(s);
    if !Signed(t) then AtoiFrom(t, 0)
    else if t[0] == '-' as int then -(AtoiFrom(t[1..], 0) as int) else AtoiFrom(t[1..], 0)
  }

  /** Whether sscanf finds a number. */
  predicate HasNumber(s: seq<byte>) {
    var t := Unblanked(s);
    var digits := if Signed(t) then t[1..] else t;
    digits != [] && IsDigit(digits[0])
  }

  function AtoiFrom(s: seq<byte>, acc: nat): nat
    decreases |s|
  {
    if s == [] || !IsDigit(s[0]) then acc else AtoiFrom(s[1..], acc * 10 + (s[0] as int - ZERO as int))
  }

  /** The date after a time of day: an earlier hour than the last means another day. */
  function Merged(d: Tm, hhmmss: seq<byte>): Tm
    requires |hhmmss| >= 6
  {
    d.(hour := DD(hhmmss, 0), min := DD(hhmmss, 2), sec := DD(hhmmss, 4),
       mday := if DD(hhmmss, 0) < d.hour then d.mday + 1 else d.mday)
  }

  /** The date ZDA sets. */
  function Dated(field: seq<seq<byte>>): Tm
    requires |field| > 4 && |field[1]| >= 6
  {
    Tm(DD(field[1], 4), DD(field[1], 2), DD(field[1], 0), Atoi(field[2]), Atoi(field[3]) - 1, Atoi(field[4]) - 1900)
  }

  class NmeaDriver {
    var date: Tm
    /** The time of the last fix in whole seconds; subseconds are not part of this model. */
    var fixTime: int

    constructor ()
      ensures date == Tm(0, 0, 0, 0, 0, 0)
    {
      date := Tm(0, 0, 0, 0, 0, 0);
      fixTime := 0;
    }

    /** merge_hhmmss */
    method MergeHhmmss(hhmmss: seq<byte>)
      requires |hhmmss| >= 6
      modifies this`date
      ensures date == Merged(old(date), hhmmss)
    {
      var oldHour := date.hour;
      date := date.(hour := DD(hhmmss, 0));
      if date.hour < oldHour {
        date := date.(mday := date.mday + 1);
      }
      date := date.(min := DD(hhmmss, 2));
      date := date.(sec := DD(hhmmss, 4));
    }

    /** processGPZDA: whatever the hour did to the day is overwritten. */
    method ProcessGPZDA(field: seq<seq<byte>>)
      requires |field| > 4 && |field[1]| >= 6 && Atoi(field[3]) >= 1
      modifies this
      ensures date == Dated(field) && fixTime == Closed(date)
    {
      MergeHhmmss(field[1]);
      date := date.(year := Atoi(field[4]) - 1900);
      date := date.(mon := Atoi(field[3]) - 1);
      date := date.(mday := Atoi(field[2]));
      fixTime := Mkgmtime(date);
    }

    /** The time part of processGPGGA: without a fix nothing is done, without a year the time is kept
        but no fix time made of it. */
    method ProcessGPGGA(field: seq<seq<byte>>)
      requires |field| > 6 && (Atoi(field[6]) > 0 ==> |field[1]| >= 6) && date.mon >= 0
      modifies this
      ensures Atoi(field[6]) <= 0 ==> date == old(date) && fixTime == old(fixTime)
      ensures Atoi(field[6]) > 0 ==>
        date == Merged(old(date), field[1]) && fixTime == if date.year == 0 then old(fixTime) else Closed(date)
    {
      var status := Atoi(field[6]);
      if status > 0 {
        MergeHhmmss(field[1]);
        if date.year != 0 {
          fixTime := Mkgmtime(date);
        }
      }
    }

    /** The time part of processGPGLL, which has a status letter and, in later versions, a mode. */
    method ProcessGPGLL(count: nat, field: seq<seq<byte>>)
      requires |field| > 7 && (field[6] == ['A' as int] ==> |field[5]| >= 6) && date.mon >= 0
      modifies this
      ensures
        if field[6] == ['A' as int] && (count < 8 || field[7] == [] || field[7][0] != 'N' as int) then
          date == Merged(old(date), field[5]) && fixTime == if date.year == 0 then old(fixTime) else Closed(date)
        else date == old(date) && fixTime == old(fixTime)
    {
      if field[6] == ['A' as int] && (count < 8 || field[7] == [] || field[7][0] != 'N' as int) {
        MergeHhmmss(field[5]);
        if date.year != 0 {
          fixTime := Mkgmtime(date);
        }
      }
    }
  }

  // ---------- true time ----------

  function Hour(u: int): int { u % DAY / 3600 }

  function Minute(u: int): int { u % DAY / 60 % 60 }

  function Second(u: int): int { u % DAY % 60 }

  function Two(n: int): seq<byte>
    requires 0 <= n < 100
  {
    [ZERO as int + n / 10, ZERO as int + n % 10]
  }

  /** hhmmss of a second of UTC. */
  function TimeDigits(u: int): (s: seq<byte>)
    ensures |s| == 6
  {
    Two(Hour(u)) + Two(Minute(u)) + Two(Second(u))
  }

  /** The field shows the time of day of `u`, perhaps with a fraction behind it. */
  predicate Shows(field: seq<byte>, u: int) {
    |field| >= 6 && field[..6] == TimeDigits(u)
  }

  /** The days a date counts. */
  function Days(d: Tm): int
    requires d.mon >= 0
  {
    ClosedDays(1900 + d.year + d.mon / 12, d.mon % 12) + d.mday - 1
  }

  /** The date stands for the second `u`. */
  predicate Tells(d: Tm, u: int) {
    d.mon >= 0 && Days(d) == u / DAY && d.hour == Hour(u) && d.min == Minute(u) && d.sec == Second(u)
  }

  lemma ShowsDigits(field: seq<byte>, u: int)
    requires Shows(field, u)
    ensures DD(field, 0) == Hour(u) && DD(field, 2) == Minute(u) && DD(field, 4) == Second(u)
  {
    hide Hour, Minute, Second;
    var t := TimeDigits(u);
    assert forall k :: 0 <= k < 6 ==> field[k] == field[..6][k] == t[k];
  }

  lemma DayParts(u: int)
    ensures u == u / DAY * DAY + Hour(u) * 3600 + Minute(u) * 60 + Second(u)
    ensures 0 <= Hour(u) < 24 && 0 <= Minute(u) < 60 && 0 <= Second(u) < 60
  {
    var s := u % DAY;
    assert s / 60 == Hour(u) * 60 + Minute(u);
  }

  /** A date that stands for a second is one for which mkgmtime gives that second. */
  lemma TellsIs(d: Tm, u: int)
    requires d.mon >= 0 && d.hour == Hour(u) && d.min == Minute(u) && d.sec == Second(u)
    ensures Closed(d) == u + (Days(d) - u / DAY) * DAY
    ensures Tells(d, u) <==> Closed(d) == u
  {
    DayParts(u);
    hide ClosedDays, Hour, Minute, Second;
    assert Closed(d) == Days(d) * DAY + d.hour * 3600 + d.min * 60 + d.sec;
  }

  /** A time field brings the date from one second to another exactly if the days between are what the
      hours show: one if the hour has gone back, and none if it has not. */
  lemma StepIsExact(d: Tm, u: int, field: seq<byte>, v: int)
    requires Tells(d, u) && Shows(field, v)
    ensures Closed(Merged(d, field)) == v <==> v / DAY - u / DAY == if Hour(v) < Hour(u) then 1 else 0
    ensures Closed(Merged(d, field)) == v ==> Tells(Merged(d, field), v)
  {
    ShowsDigits(field, v);
    hide ClosedDays, Hour, Minute, Second, Shows, DD, Closed;
    var e := Merged(d, field);
    assert Days(e) == u / DAY + if Hour(v) < Hour(u) then 1 else 0;
    TellsIs(e, v);
  }

  /** Less than a day later, it does unless midnight has passed and the hour is the same again. */
  lemma StepWithinDay(d: Tm, u: int, field: seq<byte>, v: int)
    requires Tells(d, u) && Shows(field, v) && 0 <= v - u < DAY
    ensures Closed(Merged(d, field)) == v <==> v / DAY == u / DAY || Hour(v) != Hour(u)
  {
    StepIsExact(d, u, field, v);
    DayParts(u);
    DayParts(v);
    hide Hour, Minute, Second, Tells, Shows, Merged, Closed;
  }

  /** Such a gap is longer than 23 hours. */
  lemma GapIsSafe(u: int, v: int)
    requires 0 <= v - u <= 82800
    ensures v / DAY - u / DAY == if Hour(v) < Hour(u) then 1 else 0
  {
    DayParts(u);
    DayParts(v);
    hide Hour, Minute, Second;
  }

  /** A gap of 23 hours and a half, from 10:45 to 10:15, loses a day. */
  lemma GapTooLong(d: Tm, field: seq<byte>)
    requires Tells(d, 10 * 3600 + 45 * 60) && Shows(field, DAY + 10 * 3600 + 15 * 60)
    ensures Closed(Merged(d, field)) == 10 * 3600 + 15 * 60
  {
    ShowsDigits(field, DAY + 10 * 3600 + 15 * 60);
    hide Shows, DD, ClosedDays;
    TellsIs(Merged(d, field), 10 * 3600 + 15 * 60);
  }

  // ---------- the clock ----------

  /** A ZDA sentence of the second `u`. */
  predicate ZdaOf(field: seq<seq<byte>>, u: int, y: int, m: nat, d: int) {
    && |field| > 4 && Shows(field[1], u)
    && IsDate(y, m, d) && y >= 1968 && u / DAY == DayNumber(y, m, d)
    && Atoi(field[2]) == d && Atoi(field[3]) == m + 1 && Atoi(field[4]) == y
  }

  /** After a ZDA the date is right, whatever it was before. */
  lemma ZdaSets(field: seq<seq<byte>>, u: int, y: int, m: nat, d: int)
    requires ZdaOf(field, u, y, m, d)
    ensures |field| > 4 && |field[1]| >= 6
    ensures Tells(Dated(field), u) && Dated(field).year != 0 && Closed(Dated(field)) == u
  {
    ShowsDigits(field[1], u);
    ClosedCounts(y, m);
    hide ClosedDays, DayNumber, Shows, DD, Atoi, Hour, Minute, Second, IsDate;
    MonthInYear(y, m, d);
    assert Days(Dated(field)) == DayNumber(y, m, 1) + d - 1;
    DayOfMonth(y, m, d);
    TellsIs(Dated(field), u);
  }

  lemma MonthInYear(y: int, m: nat, d: int)
    requires IsDate(y, m, d)
    ensures y >= 1900 && m / 12 == 0 && m % 12 == m && m < 12
  {}

  lemma DayOfMonth(y: int, m: nat, d: int)
    requires y >= 1900 && m < 12
    ensures DayNumber(y, m, d) == DayNumber(y, m, 1) + d - 1
  {}

  /** A sentence that arrives at second `u`: with a time field if it reports a fix. */
  datatype Sentence = Fix(u: int, field: seq<byte>) | NoFix

  /** The times of the fixes go on from `u` with gaps of at most 23 hours. */
  predicate Steady(u: int, xs: seq<Sentence>)
    decreases |xs|
  {
    xs == [] ||
    if xs[0].Fix? then Shows(xs[0].field, xs[0].u) && 0 <= xs[0].u - u <= 82800 && Steady(xs[0].u, xs[1..])
    else Steady(u, xs[1..])
  }

  function LastFix(u: int, xs: seq<Sentence>): int
    decreases |xs|
  {
    if xs == [] then u else LastFix(if xs[0].Fix? then xs[0].u else u, xs[1..])
  }

  /** The date after the sentences. */
  function Kept(d: Tm, u: int, xs: seq<Sentence>): Tm
    requires Steady(u, xs)
    decreases |xs|
  {
    if xs == [] then d
    else if xs[0].Fix? then Kept(Merged(d, xs[0].field), xs[0].u, xs[1..])
    else Kept(d, u, xs[1..])
  }

  /** For ever after, over any number of midnights, month ends and leap days, the date is true UTC. */
  lemma {:induction false} ClockKeepsTime(d: Tm, u: int, xs: seq<Sentence>)
    requires Tells(d, u) && Steady(u, xs)
    ensures Tells(Kept(d, u, xs), LastFix(u, xs)) && Closed(Kept(d, u, xs)) == LastFix(u, xs)
    ensures Kept(d, u, xs).year == d.year
    decreases |xs|
  {
    hide Tells, Shows, Closed, Merged, Hour;
    if xs == [] {
      assert d.mon >= 0 && Closed(d) == u by { TellsClosed(d, u); }
    } else if xs[0].Fix? {
      StepIsExact(d, u, xs[0].field, xs[0].u);
      GapIsSafe(u, xs[0].u);
      SameYear(d, xs[0].field, xs[0].u);
      ClockKeepsTime(Merged(d, xs[0].field), xs[0].u, xs[1..]);
    } else {
      ClockKeepsTime(d, u, xs[1..]);
    }
  }

  lemma TellsClosed(d: Tm, u: int)
    requires Tells(d, u)
    ensures d.mon >= 0 && Closed(d) == u
  {
    TellsIs(d, u);
  }

  lemma SameYear(d: Tm, field: seq<byte>, u: int)
    requires Shows(field, u)
    ensures |field| >= 6 && Merged(d, field).year == d.year && Merged(d, field).mon == d.mon
  {}

  /** From one ZDA on. */
  lemma ClockAfterZda(zda: seq<seq<byte>>, u: int, y: int, m: nat, d: int, xs: seq<Sentence>)
    requires ZdaOf(zda, u, y, m, d) && Steady(u, xs)
    ensures |zda| > 4 && |zda[1]| >= 6
    ensures var date := Kept(Dated(zda), u, xs);
            date.year != 0 && date.mon >= 0 && Closed(date) == LastFix(u, xs)
  {
    hide Tells, Closed, ZdaOf, Kept, Steady;
    ZdaSets(zda, u, y, m, d);
    ClockKeepsTime(Dated(zda), u, xs);
    TellsClosed(Kept(Dated(zda), u, xs), LastFix(u, xs));
  }
}
