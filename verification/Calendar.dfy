/** mkgmtime of gpsutils.c against a count of the days of the Gregorian calendar. */
module Calendar {
  /** The fields of struct tm that matter here. */
  datatype Tm = Tm(sec: int, min: int, hour: int, mday: int, mon: int, year: int)

  const DAY: int := 86400

  // ---------- the calendar ----------

  predicate Leap(y: int) { y % 4 == 0 && (y % 100 != 0 || y % 400 == 0) }

  function YearLength(y: int): int { if Leap(y) then 366 else 365 }

  /** Months are counted from 0. */
  function MonthLength(y: int, m: nat): int
    requires m < 12
  {
    if m == 1 then (if Leap(y) then 29 else 28)
    else if m == 3 || m == 5 || m == 8 || m == 10 then 30
    else 31
  }

  /** The days from the beginning of 1900 to the beginning of a year. */
  function YearStart(y: int): nat
    requires y >= 1900
    decreases y
  {
    if y == 1900 then 0 else YearStart(y - 1) + YearLength(y - 1)
  }

  /** The days from the beginning of a year to that of a month. */
  function MonthStart(y: int, m: nat): nat
    requires m <= 12
  {
    if m == 0 then 0 else MonthStart(y, m - 1) + MonthLength(y, m - 1)
  }

  predicate IsDate(y: int, m: int, d: int) {
    y >= 1900 && 0 <= m < 12 && 1 <= d <= MonthLength(y, m)
  }

  /** Days since 1 January 1970. */
  function DayNumber(y: int, m: nat, d: int): int
    requires y >= 1900 && m < 12
  {
    YearStart(y) - YearStart(1970) + MonthStart(y, m) + d - 1
  }

  /** What the fields of a time mean: a month counter past December runs into the next years. */
  function TrueTime(t: Tm): int
    requires t.mon >= 0 && t.year >= 0
  {
    DayNumber(1900 + t.year + t.mon / 12, t.mon % 12, t.mday) * DAY + t.hour * 3600 + t.min * 60 + t.sec
  }

  // ---------- the closed form ----------

  /** C's division: towards zero. */
  function Quotient(a: int, b: nat): int
    requires b > 0
  {
    if a >= 0 then a / b else -(-a / b)
  }

  const CUMDAYS: seq<int> := [0, 31, 59, 90, 120, 151, 181, 212, 243, 273, 304, 334]

  /** The days mkgmtime counts up to the first of a month. */
  function ClosedDays(y: int, m: nat): int
    requires m < 12
  {
    (y - 1970) * 365 + CUMDAYS[m] + Quotient(y - 1968, 4) - Quotient(y - 1900, 100) + Quotient(y - 1600, 400)
    - if Leap(y) && m < 2 then 1 else 0
  }

  function Closed(t: Tm): int
    requires t.mon >= 0
  {
    (ClosedDays(1900 + t.year + t.mon / 12, t.mon % 12) + t.mday - 1) * DAY + t.hour * 3600 + t.min * 60 + t.sec
  }

  /** mkgmtime. The code does not ask for a year in range; a month before January would index its table
      out of bounds. */
  method Mkgmtime(t: Tm) returns (result: int)
    requires t.mon >= 0
    ensures result == Closed(t)
  {
    var year := 1900 + t.year + t.mon / 12;
    result := (year - 1970) * 365 + CUMDAYS[t.mon % 12];
    result := result + Quotient(year - 1968, 4);
    result := result - Quotient(year - 1900, 100);
    result := result + Quotient(year - 1600, 400);
    if year % 4 == 0 && (year % 100 != 0 || year % 400 == 0) && t.mon % 12 < 2 {
      result := result - 1;
    }
    result := result + t.mday - 1;
    result := result * 24;
    result := result + t.hour;
    result := result * 60;
    result := result + t.min;
    result := result * 60;
    result := result + t.sec;
  }

  // ---------- the closed form counts days ----------

  /** The closed form with division downwards. */
  function Floored(y: int): int {
    (y - 1970) * 365 + (y - 1968) / 4 - (y - 1900) / 100 + (y - 1600) / 400 - if Leap(y) then 1 else 0
  }

  /** The leap days counted, one year further on. */
  lemma LeapStep(y: int)
    ensures (y + 1 - 1968) / 4 - (y - 1968) / 4 == if (y + 1) % 4 == 0 then 1 else 0
    ensures (y + 1 - 1900) / 100 - (y - 1900) / 100 == if (y + 1) % 100 == 0 then 1 else 0
    ensures (y + 1 - 1600) / 400 - (y - 1600) / 400 == if (y + 1) % 400 == 0 then 1 else 0
  {
    var a, b, c := y - 1968, y - 1900, y - 1600;
    assert y == 4 * 492 + a && y == 100 * 19 + b && y == 400 * 4 + c;
  }

  lemma LeapNests(y: int)
    ensures y % 400 == 0 ==> y % 100 == 0
    ensures y % 100 == 0 ==> y % 4 == 0
  {
    Hundreds(4 * (y / 400));
    Fours(25 * (y / 100));
  }

  lemma Hundreds(k: int)
    ensures 100 * k % 100 == 0
  {}

  lemma Fours(k: int)
    ensures 4 * k % 4 == 0
  {}

  lemma {:induction false} FlooredCounts(y: int)
    requires y >= 1900
    ensures Floored(y) == YearStart(y) + Floored(1900)
    decreases y
  {
    if y > 1900 {
      FlooredCounts(y - 1);
      LeapStep(y - 1);
      LeapNests(y);
    }
  }

  lemma {:induction false} MonthClosed(y: int, m: nat)
    requires m < 12
    ensures MonthStart(y, m) == CUMDAYS[m] + if Leap(y) && m >= 2 then 1 else 0
  {
    hide Leap;
    if m > 0 {
      MonthClosed(y, m - 1);
    }
  }

  lemma Rounding(y: int)
    requires y >= 1900
    ensures Quotient(y - 1968, 4) == (y - 1968) / 4 + if y < 1968 && y % 4 != 0 then 1 else 0
    ensures Quotient(y - 1900, 100) == (y - 1900) / 100 && Quotient(y - 1600, 400) == (y - 1600) / 400
  {
    assert y == 4 * 492 + (y - 1968);
  }

  /** From 1900 on the closed form is the count of days, except in the years before 1968 that are not
      multiples of four, where rounding towards zero makes it one day too many. */
  lemma ClosedCounts(y: int, m: nat)
    requires y >= 1900 && m < 12
    ensures ClosedDays(y, m) == DayNumber(y, m, 1) + if y < 1968 && y % 4 != 0 then 1 else 0
  {
    FlooredCounts(y);
    FlooredCounts(1970);
    MonthClosed(y, m);
    Rounding(y);
    hide Quotient, Leap, YearStart, MonthStart;
    assert Floored(1970) == 0 by { Epoch(); }
  }

  lemma Epoch()
    ensures Floored(1970) == 0
  {}

  /** mkgmtime is right exactly from 1968 on, and in the leap years of this reckoning before. */
  lemma MkgmtimeIsTrue(t: Tm)
    requires t.mon >= 0 && t.year >= 0
    ensures var y := 1900 + t.year + t.mon / 12; Closed(t) == TrueTime(t) <==> y >= 1968 || y % 4 == 0
  {
    ClosedCounts(1900 + t.year + t.mon / 12, t.mon % 12);
    hide ClosedDays, YearStart, MonthStart;
  }

  /** The first of January 1967 comes out as the second. */
  lemma NewYear1967()
    ensures Closed(Tm(0, 0, 0, 1, 0, 67)) == TrueTime(Tm(0, 0, 0, 2, 0, 67))
  {
    ClosedCounts(1967, 0);
    hide ClosedDays, YearStart, MonthStart;
  }

  /** Days past the end of a month run on into the next. */
  lemma LinearInDays(t: Tm, k: int)
    requires t.mon >= 0
    ensures Closed(t.(mday := t.mday + k)) == Closed(t) + k * DAY
  {
    hide ClosedDays;
  }

  // ---------- the order of time ----------

  lemma {:induction false} YearsOrder(y: int, z: int)
    requires 1900 <= y < z
    ensures YearStart(y) + YearLength(y) <= YearStart(z)
    decreases z
  {
    if z > y + 1 {
      YearsOrder(y, z - 1);
    }
  }

  lemma {:induction false} MonthsOrder(y: int, m: nat, n: nat)
    requires m < n <= 12
    ensures MonthStart(y, m) + MonthLength(y, m) <= MonthStart(y, n)
    decreases n
  {
    hide Leap;
    if n > m + 1 {
      MonthsOrder(y, m, n - 1);
    }
  }

  lemma {:induction false} MonthsFill(y: int)
    ensures MonthStart(y, 12) == YearLength(y)
  {
    MonthClosed(y, 11);
  }

  predicate DateBefore(y: int, m: int, d: int, y': int, m': int, d': int) {
    y < y' || (y == y' && (m < m' || (m == m' && d < d')))
  }

  /** A later date has a larger number. */
  lemma DatesOrder(y: int, m: int, d: int, y': int, m': int, d': int)
    requires IsDate(y, m, d) && IsDate(y', m', d') && DateBefore(y, m, d, y', m', d')
    ensures DayNumber(y, m, d) < DayNumber(y', m', d')
  {
    hide Leap, YearStart, MonthStart, MonthLength;
    if y < y' {
      YearsOrder(y, y');
      MonthsFill(y);
      MonthsOrder(y, m, 12);
    } else if m < m' {
      MonthsOrder(y, m, m');
    }
  }

  predicate IsTime(t: Tm) {
    t.year >= 68 && IsDate(1900 + t.year, t.mon, t.mday) && 0 <= t.hour < 24 && 0 <= t.min < 60 && 0 <= t.sec < 60
  }

  predicate ClockBefore(t: Tm, u: Tm) {
    t.hour < u.hour || (t.hour == u.hour && (t.min < u.min || (t.min == u.min && t.sec < u.sec)))
  }

  function SecondOfDay(t: Tm): int { t.hour * 3600 + t.min * 60 + t.sec }

  lemma TimeParts(t: Tm)
    requires IsTime(t)
    ensures Closed(t) == DayNumber(1900 + t.year, t.mon, t.mday) * DAY + SecondOfDay(t)
    ensures 0 <= SecondOfDay(t) < DAY
  {
    MkgmtimeIsTrue(t);
    hide Closed, DayNumber;
    assert t.mon / 12 == 0 && t.mon % 12 == t.mon;
  }

  /** mkgmtime is strictly increasing in calendar order. */
  lemma MkgmtimeIncreases(t: Tm, u: Tm)
    requires IsTime(t) && IsTime(u)
    requires DateBefore(t.year, t.mon, t.mday, u.year, u.mon, u.mday)
             || (t.year == u.year && t.mon == u.mon && t.mday == u.mday && ClockBefore(t, u))
    ensures Closed(t) < Closed(u)
  {
    hide Closed, DayNumber, SecondOfDay, DateBefore, ClockBefore;
    TimeParts(t);
    TimeParts(u);
    if DateBefore(t.year, t.mon, t.mday, u.year, u.mon, u.mday) {
      ShiftYears(t, u);
      DatesOrder(1900 + t.year, t.mon, t.mday, 1900 + u.year, u.mon, u.mday);
    } else {
      ClocksOrder(t, u);
    }
  }

  lemma ShiftYears(t: Tm, u: Tm)
    requires DateBefore(t.year, t.mon, t.mday, u.year, u.mon, u.mday)
    ensures DateBefore(1900 + t.year, t.mon, t.mday, 1900 + u.year, u.mon, u.mday)
  {}

  lemma ClocksOrder(t: Tm, u: Tm)
    requires ClockBefore(t, u) && 0 <= t.min < 60 && 0 <= t.sec < 60 && 0 <= u.min && 0 <= u.sec
    ensures SecondOfDay(t) < SecondOfDay(u)
  {}
}
