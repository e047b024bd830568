/** Calendar arithmetic and time-string handling of aed_time.c: conversions
    between the true Julian day and the Gregorian calendar, seconds-of-day
    splitting, the fixed "YYYY-MM-DD hh:mm:ss" format and the small compiler
    from a letter pattern such as "YYYY-MM-DD" to a scanf/printf format.

    All arithmetic follows C's int division, which truncates toward zero
    (CDiv); the model's integers are unbounded. */
module AedTime {
  import opened Text
  import opened CFormat

  /** C's `/` on int for a positive divisor: truncation toward zero. */
  function CDiv(a: int, b: int): (q: int)
    requires b > 0
    ensures a >= 0 ==> q == a / b
    ensures a < 0 ==> q == -((-a) / b)
  {
    if a >= 0 then a / b else -((-a) / b)
  }

  datatype Date = Date(year: int, month: int, day: int)

  /** The three stages of calendar_date; each yields a quotient and a
      remainder (the algorithm counts years from 1 March). */
  function CenturyOf(j0: int): (int, int) {
    var y0 := CDiv(4 * j0 - 1, 146097);
    (y0, CDiv(4 * j0 - 1 - 146097 * y0, 4))
  }

  function YearOf(d0: int): (int, int) {
    var j2 := CDiv(4 * d0 + 3, 1461);
    (j2, CDiv(4 * d0 + 3 - 1461 * j2 + 4, 4))
  }

  function MonthOf(d2: int): (int, int) {
    var m0 := CDiv(5 * d2 - 3, 153);
    (m0, CDiv(5 * d2 - 3 - 153 * m0 + 5, 5))
  }

  /** calendar_date: a true Julian day to year, month and day. */
  function CalendarDate(julian: int): Date {
    var (y0, d0) := CenturyOf(julian - 1721119);
    var (j2, d2) := YearOf(d0);
    var (m0, d4) := MonthOf(d2);
    if m0 < 10 then Date(100 * y0 + j2, m0 + 3, d4) else Date(100 * y0 + j2 + 1, m0 - 9, d4)
  }

  /** julian_day: year, month and day to the true Julian day. */
  function JulianDay(y: int, m: int, d: int): int {
    var yp := if m > 2 then y else y - 1;
    var mp := if m > 2 then m - 3 else m + 9;
    var c := CDiv(yp, 100);
    var ya := yp - 100 * c;
    CDiv(146097 * c, 4) + CDiv(1461 * ya, 4) + CDiv(153 * mp + 2, 5) + d + 1721119
  }

  // ---------------------------------------------------------------------
  // Each stage of calendar_date is undone by the matching term of
  // julian_day.

  /** Centuries: 146097 days per 400 years. */
  lemma CenturyDown(j0: int)
    requires j0 >= 1
    ensures var (y0, d0) := CenturyOf(j0);
      y0 >= 0 && 0 <= d0 <= 36524 && (146097 * y0) / 4 + d0 + 1 == j0
  {
    var y0 := (4 * j0 - 1) / 146097;
    assert CenturyOf(j0) == (y0, (4 * j0 - 1 - 146097 * y0) / 4);
  }

  /** Years within a century: 1461 days per 4 years. */
  lemma YearDown(d0: int)
    requires 0 <= d0 <= 36524
    ensures var (j2, d2) := YearOf(d0);
      0 <= j2 <= 99 && 1 <= d2 <= 366 && (1461 * j2) / 4 + d2 == d0 + 1
  {
    var j2 := (4 * d0 + 3) / 1461;
    assert YearOf(d0) == (j2, (4 * d0 + 3 - 1461 * j2 + 4) / 4);
  }

  /** Months within a March-based year: 153 days per 5 months. */
  lemma MonthDown(d2: int)
    requires 1 <= d2 <= 366
    ensures var (m0, d4) := MonthOf(d2);
      0 <= m0 <= 11 && 1 <= d4 <= 31 && (153 * m0 + 2) / 5 + d4 == d2
  {
    var m0 := (5 * d2 - 3) / 153;
    assert MonthOf(d2) == (m0, (5 * d2 - 3 - 153 * m0 + 5) / 5);
  }

  /** julian_day(y, m, d) in terms of the March-based year yp = 100 c + ya
      and month mp, for yp >= 0. */
  lemma JulianDayShifted(y: int, m: int, d: int, c: int, ya: int, mp: int)
    requires c >= 0 && 0 <= ya <= 99 && 0 <= mp <= 11
    requires (m > 2 && y == 100 * c + ya && mp == m - 3) || (m <= 2 && y - 1 == 100 * c + ya && mp == m + 9)
    ensures JulianDay(y, m, d) == (146097 * c) / 4 + (1461 * ya) / 4 + (153 * mp + 2) / 5 + d + 1721119
  {
    assert CDiv(100 * c + ya, 100) == c;
  }

  /** julian_day(calendar_date(j)) == j from 1 March of year 0 on. */
  lemma JulianOfCalendar(j: int)
    requires j >= 1721120
    ensures var r := CalendarDate(j); JulianDay(r.year, r.month, r.day) == j
  {
    var (y0, d0) := CenturyOf(j - 1721119);
    CenturyDown(j - 1721119);
    var (j2, d2) := YearOf(d0);
    YearDown(d0);
    var (m0, d4) := MonthOf(d2);
    MonthDown(d2);
    var r := CalendarDate(j);
    JulianDayShifted(r.year, r.month, r.day, y0, j2, m0);
  }

  predicate IsLeap(y: int) {
    (y % 4 == 0 && y % 100 != 0) || y % 400 == 0
  }

  function DaysInMonth(y: int, m: int): int
    requires 1 <= m <= 12
  {
    if m == 2 then (if IsLeap(y) then 29 else 28)
    else if m == 4 || m == 6 || m == 9 || m == 11 then 30
    else 31
  }

  predicate ValidDate(y: int, m: int, d: int) {
    y >= 1 && 1 <= m <= 12 && 1 <= d <= DaysInMonth(y, m)
  }

  /** 400 years are 146097 days: a quarter of c of them is 36524 c plus
      one day per four. */
  lemma CenturyQuarter(c: int)
    requires c >= 0
    ensures (146097 * c) / 4 == 36524 * c + c / 4
  {
    assert 146097 * c == 4 * (36524 * c) + c;
  }

  lemma CenturyUp(c: int, t: int)
    requires c >= 0 && 0 <= t && (t <= 36523 || (t == 36524 && c % 4 == 3))
    ensures CenturyOf((146097 * c) / 4 + t + 1) == (c, t)
  {
    var j := (146097 * c) / 4 + t + 1;
    CenturyQuarter(c);
    var e := 4 * t + 3 - c % 4;
    assert 4 * j - 1 == 146097 * c + e;
    assert 0 <= e < 146097;
    assert (4 * j - 1) / 146097 == c;
    assert (4 * j - 1 - 146097 * c) / 4 == t;
  }

  lemma YearUp(ya: int, u: int)
    requires 0 <= ya <= 99 && 0 <= u && (u <= 364 || (u == 365 && ya % 4 == 3))
    ensures YearOf((1461 * ya) / 4 + u) == (ya, u + 1)
  {
    var x := 4 * ((1461 * ya) / 4 + u) + 3;
    assert x / 1461 == ya;
    assert (x - 1461 * ya + 4) / 4 == u + 1;
  }

  lemma MonthUp(mp: int, d: int)
    requires 0 <= mp <= 11 && 1 <= d <= 31
    requires d == 31 ==> mp in {0, 2, 4, 5, 7, 9, 10}
    ensures MonthOf((153 * mp + 2) / 5 + d) == (mp, d)
  {
    var q := (153 * mp + 2) / 5;
    var r := 153 * mp + 2 - 5 * q;
    assert 0 <= r <= 4;
    if d == 31 {
      // the months with 31 days leave a remainder of at least 2
      assert r >= 2;
    }
    var d2 := q + d;
    assert 153 * mp <= 5 * d2 - 3 < 153 * mp + 153;
    assert (5 * d2 - 3) / 153 == mp;
    assert 5 * d2 - 3 - 153 * mp + 5 == 5 * d + (4 - r);
    assert (5 * d2 - 3 - 153 * mp + 5) / 5 == d;
  }

  /** The day-of-year and day-of-century reach their largest values only on
      29 February, which is exactly when the leap rule allows it. */
  lemma LeapBoundaries(y: int, m: int, d: int, c: int, ya: int)
    requires ValidDate(y, m, d) && c >= 0 && 0 <= ya <= 99
    requires (if m > 2 then y else y - 1) == 100 * c + ya
    ensures var mp := if m > 2 then m - 3 else m + 9;
      var u := (153 * mp + 2) / 5 + d - 1;
      var t := (1461 * ya) / 4 + u;
      0 <= u && (u <= 364 || (u == 365 && ya % 4 == 3))
      && (t <= 36523 || (t == 36524 && c % 4 == 3))
  {
    var mp := if m > 2 then m - 3 else m + 9;
    var u := (153 * mp + 2) / 5 + d - 1;
    MarchDayBound(mp, d, m);
    if u == 365 {
      LeapDivisible(y);
      CenturyRemainder(c, ya + 1);
      assert ya % 4 == 3;
    }
    var t := (1461 * ya) / 4 + u;
    if ya <= 98 {
      QuarterYearsBound(ya);
    } else if t == 36524 {
      assert y == 100 * (c + 1);
      CenturyRemainder(c, 100);
    }
  }

  /** The first 99 years of a century take at most 35794 days. */
  lemma QuarterYearsBound(ya: int)
    requires 0 <= ya <= 98
    ensures (1461 * ya) / 4 <= 35794
  {
    assert 1461 * ya <= 1461 * 98;
  }

  /** The day of a March-based year is at most 365 (29 February), and only
      29 February reaches it. */
  lemma MarchDayBound(mp: int, d: int, m: int)
    requires 1 <= m <= 12 && mp == (if m > 2 then m - 3 else m + 9) && 1 <= d
    requires d <= (if m == 2 then 29 else if m == 4 || m == 6 || m == 9 || m == 11 then 30 else 31)
    ensures 0 <= (153 * mp + 2) / 5 + d - 1 <= 365
    ensures (153 * mp + 2) / 5 + d - 1 == 365 ==> m == 2 && d == 29
  {
  }

  lemma LeapDivisible(y: int)
    requires IsLeap(y)
    ensures y % 4 == 0 && (y % 100 == 0 ==> y % 400 == 0)
  {
  }

  /** Adding r < 4 * 25 + 1 years to a whole number c of centuries. */
  lemma CenturyRemainder(c: int, r: int)
    requires c >= 0 && 0 <= r <= 100
    ensures (100 * c + r) % 4 == r % 4
    ensures r < 100 ==> (100 * c + r) % 100 == r
    ensures r == 100 && (100 * c + r) % 400 == 0 ==> c % 4 == 3
  {
    assert 100 * c + r == 4 * (25 * c) + r;
    if r == 100 && (100 * c + r) % 400 == 0 {
      var k := (100 * c + r) / 400;
      assert 100 * (c + 1) == 400 * k;
      assert c + 1 == 4 * k;
    }
  }

  lemma CalendarFromStages(j: int, y0: int, d0: int, j2: int, d2: int, m0: int, d4: int)
    requires CenturyOf(j - 1721119) == (y0, d0) && YearOf(d0) == (j2, d2) && MonthOf(d2) == (m0, d4)
    ensures CalendarDate(j) == if m0 < 10 then Date(100 * y0 + j2, m0 + 3, d4) else Date(100 * y0 + j2 + 1, m0 - 9, d4)
  {
  }

  /** calendar_date on a day given by its March-based century, year of the
      century, month and day. */
  lemma CalendarOfShifted(c: int, ya: int, mp: int, d: int, j: int)
    requires c >= 0 && 0 <= ya <= 99 && 0 <= mp <= 11 && 1 <= d <= 31
    requires d == 31 ==> mp in {0, 2, 4, 5, 7, 9, 10}
    requires var u := (153 * mp + 2) / 5 + d - 1;
      var t := (1461 * ya) / 4 + u;
      (u <= 364 || (u == 365 && ya % 4 == 3)) && (t <= 36523 || (t == 36524 && c % 4 == 3))
    requires j == (146097 * c) / 4 + (1461 * ya) / 4 + (153 * mp + 2) / 5 + d + 1721119
    ensures CalendarDate(j) == if mp < 10 then Date(100 * c + ya, mp + 3, d) else Date(100 * c + ya + 1, mp - 9, d)
  {
    var u := (153 * mp + 2) / 5 + d - 1;
    var t := (1461 * ya) / 4 + u;
    MonthUp(mp, d);
    YearUp(ya, u);
    CenturyUp(c, t);
    assert j - 1721119 == (146097 * c) / 4 + t + 1;
    CalendarFromStages(j, c, t, ya, u + 1, mp, d);
  }

  /** The date a day given by its March-based stages denotes, as the
      calendar date of that day. */
  lemma CalendarOfStagesDate(y: int, m: int, d: int, c: int, ya: int, mp: int, j: int)
    requires 1 <= m <= 12 && 1 <= d <= 31 && c >= 0 && 0 <= ya <= 99
    requires (m > 2 && y == 100 * c + ya && mp == m - 3) || (m <= 2 && y - 1 == 100 * c + ya && mp == m + 9)
    requires d == 31 ==> mp in {0, 2, 4, 5, 7, 9, 10}
    requires var u := (153 * mp + 2) / 5 + d - 1;
      var t := (1461 * ya) / 4 + u;
      (u <= 364 || (u == 365 && ya % 4 == 3)) && (t <= 36523 || (t == 36524 && c % 4 == 3))
    requires j == (146097 * c) / 4 + (1461 * ya) / 4 + (153 * mp + 2) / 5 + d + 1721119
    ensures CalendarDate(j) == Date(y, m, d)
  {
    CalendarOfShifted(c, ya, mp, d, j);
  }

  /** calendar_date(julian_day(y, m, d)) == (y, m, d) for every Gregorian
      date from year 1 on. */
  lemma CalendarOfJulian(y: int, m: int, d: int)
    requires ValidDate(y, m, d)
    ensures CalendarDate(JulianDay(y, m, d)) == Date(y, m, d)
  {
    var yp := if m > 2 then y else y - 1;
    var mp := if m > 2 then m - 3 else m + 9;
    var c, ya := yp / 100, yp % 100;
    LeapBoundaries(y, m, d, c, ya);
    JulianDayShifted(y, m, d, c, ya, mp);
    CalendarOfStagesDate(y, m, d, c, ya, mp, JulianDay(y, m, d));
  }

  // ---------------------------------------------------------------------
  // day_of_year and time_diff

  /** day_of_year: days since 1 January of the date's own year. */
  function DayOfYear(jday: int): int {
    var r := CalendarDate(jday);
    jday - JulianDay(r.year, 1, 1)
  }

  /** The first two terms of julian_day for a March-based year yp. */
  function YearStart(yp: int): int {
    var c := CDiv(yp, 100);
    CDiv(146097 * c, 4) + CDiv(1461 * (yp - 100 * c), 4)
  }

  /** Consecutive March-based years are 365 or 366 days apart. */
  lemma YearStartStep(yp: int)
    requires yp >= 0
    ensures 365 <= YearStart(yp + 1) - YearStart(yp) <= 366
  {
    var c := yp / 100;
    var ya := yp % 100;
    YearStartSplit(c, ya);
    if ya < 99 {
      YearStartSplit(c, ya + 1);
      QuarterStep(1461 * ya, 1461);
    } else {
      assert yp + 1 == 100 * (c + 1) + 0;
      YearStartSplit(c + 1, 0);
      QuarterStep(146097 * c, 146097);
      assert (1461 * ya) / 4 == 36159;
    }
  }

  /** Adding n days to x moves a quarter of it by n / 4 or one more. */
  lemma QuarterStep(x: int, n: int)
    requires x >= 0 && n >= 0
    ensures n / 4 <= (x + n) / 4 - x / 4 <= n / 4 + 1
  {
  }

  lemma YearStartSplit(c: int, ya: int)
    requires c >= 0 && 0 <= ya <= 99
    ensures YearStart(100 * c + ya) == (146097 * c) / 4 + (1461 * ya) / 4
  {
    assert CDiv(100 * c + ya, 100) == c;
  }

  lemma JulianDayByYearStart(y: int, m: int, d: int)
    requires (if m > 2 then y else y - 1) >= 0
    ensures var mp := if m > 2 then m - 3 else m + 9;
      JulianDay(y, m, d) == YearStart(if m > 2 then y else y - 1) + CDiv(153 * mp + 2, 5) + d + 1721119
  {
  }

  /** The stages of calendar_date in terms of the March-based year yp and
      the day d2 within it. */
  lemma CalendarStages(jday: int) returns (yp: int, d2: int, m0: int, d4: int)
    requires jday >= 1721120
    ensures yp >= 0 && 0 <= m0 <= 11 && 1 <= d4 <= 31
    ensures d2 == (153 * m0 + 2) / 5 + d4 && 1 <= d2 <= 366
    ensures jday == YearStart(yp) + d2 + 1721119
    ensures CalendarDate(jday) == if m0 < 10 then Date(yp, m0 + 3, d4) else Date(yp + 1, m0 - 9, d4)
  {
    var (y0, d0) := CenturyOf(jday - 1721119);
    CenturyDown(jday - 1721119);
    var (j2, d2') := YearOf(d0);
    YearDown(d0);
    var (m0', d4') := MonthOf(d2');
    MonthDown(d2');
    CalendarFromStages(jday, y0, d0, j2, d2', m0', d4');
    yp, d2, m0, d4 := 100 * y0 + j2, d2', m0', d4';
    YearStartSplit(y0, j2);
  }

  /** calendar_date yields a month in 1..12 and a day in 1..31 for every
      day from 1 March of year 0 on. */
  lemma CalendarDateRange(jday: int)
    requires jday >= 1721120
    ensures var r := CalendarDate(jday); 1 <= r.month <= 12 && 1 <= r.day <= 31 && r.year >= 0
  {
    var yp, d2, m0, d4 := CalendarStages(jday);
  }

  /** julian_day of 1 January of year y, for y >= 1. */
  lemma NewYearDay(y: int)
    requires y >= 1
    ensures JulianDay(y, 1, 1) == YearStart(y - 1) + 307 + 1721119
  {
    JulianDayByYearStart(y, 1, 1);
  }

  lemma DayOfYearAt(jday: int, y: int)
    requires CalendarDate(jday).year == y
    ensures DayOfYear(jday) == jday - JulianDay(y, 1, 1)
  {
  }

  lemma YearStartZero()
    ensures YearStart(0) == 0
  {
    assert CDiv(0, 100) == 0;
  }

  /** March to December of a March-based year take its first 306 days. */
  lemma MarchMonthDays(m0: int, d4: int)
    requires 0 <= m0 <= 11 && 1 <= d4 <= 31
    ensures m0 < 10 ==> (153 * m0 + 2) / 5 + d4 <= 306
    ensures m0 >= 10 ==> (153 * m0 + 2) / 5 + d4 >= 307
  {
  }

  /** day_of_year lies in 0..365 for every day from 1 March of year 0 on. */
  lemma DayOfYearRange(jday: int)
    requires jday >= 1721120
    ensures 0 <= DayOfYear(jday) <= 365
  {
    var yp, d2, m0, d4 := CalendarStages(jday);
    MarchMonthDays(m0, d4);
    if m0 < 10 {
      if yp == 0 {
        DayOfYearZero(jday, d2);
      } else {
        DayOfYearEarly(jday, yp, d2);
      }
    } else {
      DayOfYearLate(jday, yp, d2);
    }
  }

  /** C's truncating division makes julian_day(0, 1, 1) one day late
      (1721061 rather than 1721060), so March to December of year 0 are
      days 59..364 of their year. */
  lemma DayOfYearZero(jday: int, d2: int)
    requires CalendarDate(jday).year == 0
    requires jday == YearStart(0) + d2 + 1721119 && 1 <= d2 <= 306
    ensures 59 <= DayOfYear(jday) <= 364
  {
    YearStartZero();
    DayOfYearAt(jday, 0);
    assert CDiv(-1, 100) == 0 && CDiv(-1461, 4) == -365;
    assert JulianDay(0, 1, 1) == 1721061;
  }

  /** day_of_year for a day from March to December: its year starts with
      the previous March-based year's January. */
  lemma DayOfYearEarly(jday: int, yp: int, d2: int)
    requires yp >= 1 && CalendarDate(jday).year == yp
    requires jday == YearStart(yp) + d2 + 1721119 && 1 <= d2 <= 306
    ensures 0 <= DayOfYear(jday) <= 365
  {
    var jan := JulianDay(yp, 1, 1);
    DayOfYearAt(jday, yp);
    NewYearDay(yp);
    YearStartStep(yp - 1);
    assert yp - 1 + 1 == yp;
    var s0, s1 := YearStart(yp - 1), YearStart(yp);
    assert 365 <= s1 - s0 <= 366 && jan == s0 + 307 + 1721119;
    assert 0 <= jday - jan <= 365;
  }

  /** day_of_year for a day in January or February: its year starts with
      the same March-based year's January. */
  lemma DayOfYearLate(jday: int, yp: int, d2: int)
    requires yp >= 0 && CalendarDate(jday).year == yp + 1
    requires jday == YearStart(yp) + d2 + 1721119 && 307 <= d2 <= 366
    ensures 0 <= DayOfYear(jday) <= 365
  {
    var jan := JulianDay(yp + 1, 1, 1);
    DayOfYearAt(jday, yp + 1);
    NewYearDay(yp + 1);
    assert yp + 1 - 1 == yp;
    assert 0 <= jday - jan <= 365;
  }

  /** 1 January is day 0 of its year. */
  lemma DayOfYearNewYear(y: int)
    requires y >= 1
    ensures DayOfYear(JulianDay(y, 1, 1)) == 0
  {
    CalendarOfJulian(y, 1, 1);
  }

  /** time_diff: seconds from (jul2, secs2) to (jul1, secs1). */
  function TimeDiff(jul1: int, secs1: int, jul2: int, secs2: int): int {
    86400 * (jul1 - jul2) + (secs1 - secs2)
  }

  /** An instant as seconds since the start of Julian day 0. */
  function Instant(jul: int, secs: int): int {
    86400 * jul + secs
  }

  /** time_diff is the distance between the two instants: zero on equal
      arguments and antisymmetric. */
  lemma TimeDiffMeaning(jul1: int, secs1: int, jul2: int, secs2: int)
    ensures TimeDiff(jul1, secs1, jul2, secs2) == Instant(jul1, secs1) - Instant(jul2, secs2)
    ensures TimeDiff(jul1, secs1, jul2, secs2) == -TimeDiff(jul2, secs2, jul1, secs1)
    ensures TimeDiff(jul1, secs1, jul1, secs1) == 0
  {
  }

  // ---------------------------------------------------------------------
  // The fixed format "YYYY-MM-DD hh:mm:ss"

  datatype Clock = Clock(hh: int, min: int, ss: int)

  /** The hour/minute/second split of write_time_string and
      write_time_formatted. */
  function SplitSeconds(secs: int): (c: Clock)
    ensures 3600 * c.hh + 60 * c.min + c.ss == secs
    ensures secs >= 0 ==> c.hh == secs / 3600 && 0 <= c.min < 60 && 0 <= c.ss < 60
    ensures secs < 0 ==> -60 < c.min <= 0 && -60 < c.ss <= 0
  {
    var hh := CDiv(secs, 3600);
    var min := CDiv(secs - hh * 3600, 60);
    Clock(hh, min, secs - 3600 * hh - 60 * min)
  }

  /** "%2d:%2d:%2d" */
  const ClockFormat: seq<Directive> := [Num(2), Char(':'), Num(2), Char(':'), Num(2)]
  /** "%2d %2d:%2d:%2d" */
  const DayClockFormat: seq<Directive> := [Num(2), Space] + ClockFormat
  /** "%2d-%2d %2d:%2d:%2d" */
  const MonthDayClockFormat: seq<Directive> := [Num(2), Char('-')] + DayClockFormat
  /** "%4d-%2d-%2d %2d:%2d:%2d" */
  const TimeStringFormat: seq<Directive> := [Num(4), Char('-')] + MonthDayClockFormat

  datatype Moment = Moment(jul: int, secs: int)

  /** read_time_string: both results stay 0 unless enough fields scan; the
      day needs the three date fields, the seconds hours and minutes, plus
      the seconds field when that scans too. */
  function ReadTimeString(timestr: string): (r: Moment)
    ensures var v := ScanFormat(TimeStringFormat, timestr);
      && (|v| <= 2 ==> r.jul == 0)
      && (|v| > 2 ==> r.jul == JulianDay(v[0], v[1], v[2]))
      && (|v| <= 4 ==> r.secs == 0)
      && (|v| == 5 ==> r.secs == 3600 * v[3] + 60 * v[4])
      && (|v| == 6 ==> r.secs == 3600 * v[3] + 60 * v[4] + v[5])
  {
    var v := ScanFormat(TimeStringFormat, timestr);
    var n := |v|;
    var jul := if n > 2 then JulianDay(v[0], v[1], v[2]) else 0;
    var secs := if n > 4 then 3600 * v[3] + 60 * v[4] else 0;
    Moment(jul, if n > 5 then secs + v[5] else secs)
  }

  /** write_time_string: "%04d-%02d-%02d %02d:%02d:%02d" of the calendar
      date of jul and the split of secs. */
  function WriteTimeString(jul: int, secs: int): string {
    var c := SplitSeconds(secs);
    var d := CalendarDate(jul);
    TimeFieldsString(d.year, d.month, d.day, c.hh, c.min, c.ss)
  }

  /** "%02d:%02d:%02d" */
  function ClockString(hh: int, mi: int, ss: int): string {
    FormatInt(hh, 2) + ([':'] + (FormatInt(mi, 2) + ([':'] + FormatInt(ss, 2))))
  }

  /** "%04d-%02d-%02d %02d:%02d:%02d" */
  function TimeFieldsString(y: int, mo: int, d: int, hh: int, mi: int, ss: int): string {
    FormatInt(y, 4) + (['-'] + MonthDayClockString(mo, d, hh, mi, ss))
  }

  function MonthDayClockString(mo: int, d: int, hh: int, mi: int, ss: int): string {
    FormatInt(mo, 2) + (['-'] + DayClockString(d, hh, mi, ss))
  }

  function DayClockString(d: int, hh: int, mi: int, ss: int): string {
    FormatInt(d, 2) + ([' '] + ClockString(hh, mi, ss))
  }

  lemma ScanClock(hh: nat, mi: nat, ss: nat)
    requires hh < 100 && mi < 100 && ss < 100
    ensures ScanFormat(ClockFormat, ClockString(hh, mi, ss)) == [hh as int, mi as int, ss as int]
    ensures var s := ClockString(hh, mi, ss); s != [] && !IsSpace(s[0])
  {
    assert Pow10(2) == 100;
    ScanFormatLastNum(2, ss);
    ScanFormatNumThen(2, Char(':'), [':'], [Num(2)], mi, FormatInt(ss, 2));
    ScanFormatNumThen(2, Char(':'), [':'], [Num(2), Char(':')] + [Num(2)], hh,
      FormatInt(mi, 2) + ([':'] + FormatInt(ss, 2)));
    ClockFormatShape();
    Cons3(hh, mi, ss);
    FormatIntDigits(hh, 2);
  }

  lemma ClockFormatShape()
    ensures ClockFormat == [Num(2), Char(':')] + ([Num(2), Char(':')] + [Num(2)])
  {
  }

  lemma Cons3(a: int, b: int, c: int)
    ensures [a] + ([b] + [c]) == [a, b, c]
  {
  }

  lemma ScanDayClock(d: nat, hh: nat, mi: nat, ss: nat)
    requires d < 100 && hh < 100 && mi < 100 && ss < 100
    ensures ScanFormat(DayClockFormat, DayClockString(d, hh, mi, ss)) == [d as int, hh as int, mi as int, ss as int]
  {
    ScanClock(hh, mi, ss);
    assert Pow10(2) == 100;
    ScanFormatNumThen(2, Space, [' '], ClockFormat, d, ClockString(hh, mi, ss));
    Cons4(d, hh, mi, ss);
  }

  lemma Cons4(a: int, b: int, c: int, d: int)
    ensures [a] + [b, c, d] == [a, b, c, d]
  {
  }

  lemma ScanMonthDayClock(mo: nat, d: nat, hh: nat, mi: nat, ss: nat)
    requires mo < 100 && d < 100 && hh < 100 && mi < 100 && ss < 100
    ensures ScanFormat(MonthDayClockFormat, MonthDayClockString(mo, d, hh, mi, ss))
         == [mo as int, d as int, hh as int, mi as int, ss as int]
  {
    ScanDayClock(d, hh, mi, ss);
    assert Pow10(2) == 100;
    ScanFormatNumThen(2, Char('-'), ['-'], DayClockFormat, mo, DayClockString(d, hh, mi, ss));
    Cons5(mo, d, hh, mi, ss);
  }

  /** "%4d-%2d-%2d %2d:%2d:%2d" reads back the six fields that
      "%04d-%02d-%02d %02d:%02d:%02d" wrote, when each fits its width. */
  lemma ScanTimeFields(y: nat, mo: nat, d: nat, hh: nat, mi: nat, ss: nat)
    requires y < 10000 && mo < 100 && d < 100 && hh < 100 && mi < 100 && ss < 100
    ensures ScanFormat(TimeStringFormat, TimeFieldsString(y, mo, d, hh, mi, ss))
         == [y as int, mo as int, d as int, hh as int, mi as int, ss as int]
  {
    ScanMonthDayClock(mo, d, hh, mi, ss);
    assert Pow10(4) == 10000;
    ScanFormatNumThen(4, Char('-'), ['-'], MonthDayClockFormat, y, MonthDayClockString(mo, d, hh, mi, ss));
    Cons6(y, mo, d, hh, mi, ss);
  }

  lemma Cons5(a: int, b: int, c: int, d: int, e: int)
    ensures [a] + [b, c, d, e] == [a, b, c, d, e]
  {
  }

  lemma Cons6(a: int, b: int, c: int, d: int, e: int, f: int)
    ensures [a] + [b, c, d, e, f] == [a, b, c, d, e, f]
  {
  }

  /** Reading back a written time string gives the same day and seconds,
      for dates from 1 March of year 0 up to year 9999 and hours below 100. */
  lemma ReadWriteTimeString(jul: int, secs: int)
    requires jul >= 1721120 && CalendarDate(jul).year <= 9999
    requires 0 <= secs < 360000
    ensures ReadTimeString(WriteTimeString(jul, secs)) == Moment(jul, secs)
  {
    var c := SplitSeconds(secs);
    var d := CalendarDate(jul);
    JulianOfCalendar(jul);
    CenturyDown(jul - 1721119);
    var (_, d0) := CenturyOf(jul - 1721119);
    YearDown(d0);
    var (_, d2) := YearOf(d0);
    MonthDown(d2);
    assert 1 <= d.month <= 12 && 1 <= d.day <= 31 && d.year >= 0;
    ScanTimeFields(d.year, d.month, d.day, c.hh, c.min, c.ss);
  }
}
