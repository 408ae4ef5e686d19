/**
 * Proleptic Gregorian calendar arithmetic standing in for the date library the
 * source relies on. A date is a day number (day 0 is 1970-01-01), a datetime is
 * a number of minutes since 1970-01-01T00:00. Years are counted internally from
 * March 1st ("March years") so that the leap day is the last day of a year.
 */
module Calendar {

  type Date = int
  type DateTime = int

  const MinutesPerDay: int := 1440

  /** The calendar date of a datetime (floor division: also right before 1970). */
  function DateOf(t: DateTime): (d: Date)
    ensures Midnight(d) <= t < Midnight(d + 1)
  {
    t / MinutesPerDay
  }

  /** The datetime of 00:00 on a date. */
  function Midnight(d: Date): (t: DateTime)
  {
    d * MinutesPerDay
  }

  lemma DateOfMidnight(d: Date, m: int)
    requires 0 <= m < MinutesPerDay
    ensures DateOf(Midnight(d) + m) == d
  {
  }

  /** Midnight of a date falls on that date. */
  lemma MidnightDate(d: Date)
    ensures DateOf(Midnight(d)) == d
  {
    DateOfMidnight(d, 0);
    assert Midnight(d) + 0 == Midnight(d);
  }

  /** Later datetimes never fall on an earlier date. */
  lemma DateOfMonotone(s: DateTime, t: DateTime)
    requires s <= t
    ensures DateOf(s) <= DateOf(t)
  {
    if DateOf(t) < DateOf(s) {
      MidnightMonotone(DateOf(t) + 1, DateOf(s));
    }
  }

  lemma MidnightMonotone(a: Date, b: Date)
    ensures a < b <==> Midnight(a) < Midnight(b)
    ensures a == b <==> Midnight(a) == Midnight(b)
  {
  }

  // ---------------------------------------------------------------------------
  // March years
  // ---------------------------------------------------------------------------

  /** Day number of March 1st of year y. */
  function YearStartMarch(y: int): Date
  {
    365 * y + y / 4 - y / 100 + y / 400 - 719468
  }

  /** Days from March 1st to the first day of the mp-th month of a March year (March is 0). */
  function MonthOffset(mp: int): int
  {
    if mp <= 0 then 0 else if mp == 1 then 31 else if mp == 2 then 61
    else if mp == 3 then 92 else if mp == 4 then 122 else if mp == 5 then 153
    else if mp == 6 then 184 else if mp == 7 then 214 else if mp == 8 then 245
    else if mp == 9 then 275 else if mp == 10 then 306 else 337
  }

  lemma YearStartMarchStep(y: int)
    ensures 365 <= YearStartMarch(y + 1) - YearStartMarch(y) <= 366
  {
    var a4, b4 := y / 4, (y + 1) / 4;
    var a100, b100 := y / 100, (y + 1) / 100;
    var a400, b400 := y / 400, (y + 1) / 400;
    assert b4 - a4 == 0 || b4 - a4 == 1;
    assert b100 - a100 == 0 || b100 - a100 == 1;
    assert b400 - a400 == 0 || b400 - a400 == 1;
    if b100 - a100 == 1 {
      assert y + 1 == 100 * b100;
      assert y + 1 == 4 * (25 * b100);
      assert b4 == 25 * b100;
      assert a4 == 25 * b100 - 1;
    }
    if b400 - a400 == 1 {
      assert y + 1 == 400 * b400;
      assert b100 == 4 * b400;
      assert a100 == 4 * b400 - 1;
    }
  }

  lemma {:induction false} YearStartMarchMonotone(a: int, b: int)
    requires a <= b
    ensures YearStartMarch(a) + 365 * (b - a) <= YearStartMarch(b)
    decreases b - a
  {
    if a < b {
      YearStartMarchMonotone(a, b - 1);
      YearStartMarchStep(b - 1);
    }
  }

  /** The March year holding day z. */
  function MarchYear(z: Date): (y: int)
    ensures YearStartMarch(y) <= z < YearStartMarch(y + 1)
  {
    var w := z + 719468;
    var y0 := (400 * w) / 146097;
    MarchYearEstimate(z, y0);
    if YearStartMarch(y0 + 1) <= z then y0 + 1 else y0
  }

  lemma MarchYearEstimate(z: Date, y0: int)
    requires y0 == (400 * (z + 719468)) / 146097
    ensures YearStartMarch(y0) <= z < YearStartMarch(y0 + 2)
  {
    var w := z + 719468;
    assert 146097 * y0 <= 400 * w < 146097 * y0 + 146097;
    var q4, q100, q400 := y0 / 4, y0 / 100, y0 / 400;
    assert 4 * q4 <= y0 && 100 * q100 > y0 - 100 && 400 * q400 <= y0;
    assert 400 * YearStartMarch(y0) < 400 * z + 400;
    var y2 := y0 + 2;
    var r4, r100, r400 := y2 / 4, y2 / 100, y2 / 400;
    assert 4 * r4 > y2 - 4 && 100 * r100 <= y2 && 400 * r400 > y2 - 400;
    assert 400 * YearStartMarch(y2) > 400 * z;
  }

  lemma MarchYearUnique(z: Date, y: int)
    requires YearStartMarch(y) <= z < YearStartMarch(y + 1)
    ensures MarchYear(z) == y
  {
    var y' := MarchYear(z);
    if y' < y {
      YearStartMarchMonotone(y' + 1, y);
    } else if y < y' {
      YearStartMarchMonotone(y + 1, y');
    }
  }

  /** The March month (0 = March, ..., 11 = February) holding the day-of-March-year doy. */
  function MarchMonth(doy: int): (mp: int)
    requires 0 <= doy <= 365
    ensures 0 <= mp <= 11
    ensures MonthOffset(mp) <= doy
    ensures mp < 11 ==> doy < MonthOffset(mp + 1)
    ensures mp < 10 <==> doy < 306
  {
    if doy < 31 then 0 else if doy < 61 then 1 else if doy < 92 then 2
    else if doy < 122 then 3 else if doy < 153 then 4 else if doy < 184 then 5
    else if doy < 214 then 6 else if doy < 245 then 7 else if doy < 275 then 8
    else if doy < 306 then 9 else if doy < 337 then 10 else 11
  }

  lemma MarchMonthUnique(doy: int, mp: int)
    requires 0 <= doy <= 365 && 0 <= mp <= 11
    requires MonthOffset(mp) <= doy
    requires mp < 11 ==> doy < MonthOffset(mp + 1)
    ensures MarchMonth(doy) == mp
  {
  }

  // ---------------------------------------------------------------------------
  // Civil dates
  // ---------------------------------------------------------------------------

  datatype Civil = Civil(year: int, month: int, day: int)

  predicate ValidMonth(m: int) { 1 <= m <= 12 }

  /** Leap years of the proleptic Gregorian calendar (year 0 is one). */
  predicate IsLeapYear(y: int)
  {
    y % 4 == 0 && (y % 100 != 0 || y % 400 == 0)
  }

  function DaysInMonth(y: int, m: int): (n: int)
    requires ValidMonth(m)
    ensures 28 <= n <= 31
  {
    if m == 2 then (if IsLeapYear(y) then 29 else 28)
    else if m == 4 || m == 6 || m == 9 || m == 11 then 30
    else 31
  }

  /** The years the date library represents. */
  const MinYear: int := -262144
  const MaxYear: int := 262143

  /** A date the date library accepts as year, month and day. */
  predicate ValidDate(y: int, m: int, d: int)
  {
    MinYear <= y <= MaxYear && ValidMonth(m) && 1 <= d <= DaysInMonth(y, m)
  }

  /** Day number of the civil date (y, m, d); d may run past the month end. */
  function DaysFromCivil(y: int, m: int, d: int): Date
    requires ValidMonth(m)
  {
    var yy := if m <= 2 then y - 1 else y;
    var mp := if m > 2 then m - 3 else m + 9;
    YearStartMarch(yy) + MonthOffset(mp) + d - 1
  }

  function CivilFromDays(z: Date): (c: Civil)
    ensures ValidMonth(c.month) && 1 <= c.day <= 31
  {
    var y := MarchYear(z);
    YearStartMarchStep(y);
    var doy := z - YearStartMarch(y);
    var mp := MarchMonth(doy);
    var d := doy - MonthOffset(mp) + 1;
    var m := if mp < 10 then mp + 3 else mp - 9;
    Civil(if m <= 2 then y + 1 else y, m, d)
  }

  function Year(z: Date): int { CivilFromDays(z).year }
  function Month(z: Date): int { CivilFromDays(z).month }
  function Day(z: Date): int { CivilFromDays(z).day }

  lemma CivilRoundTrip(z: Date)
    ensures var c := CivilFromDays(z); DaysFromCivil(c.year, c.month, c.day) == z
  {
  }

  /** The month after (y, m). */
  function NextMonth(y: int, m: int): (r: (int, int))
    requires ValidMonth(m)
    ensures ValidMonth(r.1)
  {
    if m == 12 then (y + 1, 1) else (y, m + 1)
  }

  /** First day of the month holding z. */
  function MonthStart(z: Date): Date
  {
    DaysFromCivil(Year(z), Month(z), 1)
  }

  /** First day of the month after the one holding z. */
  function MonthEnd(z: Date): Date
  {
    var n := NextMonth(Year(z), Month(z));
    DaysFromCivil(n.0, n.1, 1)
  }

  /** January 1st of year y. */
  function Jan1(y: int): Date
  {
    DaysFromCivil(y, 1, 1)
  }

  lemma Jan1Step(y: int)
    ensures 365 <= Jan1(y + 1) - Jan1(y) <= 366
  {
    YearStartMarchStep(y - 1);
  }

  lemma {:induction false} Jan1Monotone(a: int, b: int)
    requires a <= b
    ensures Jan1(a) + 365 * (b - a) <= Jan1(b)
  {
    YearStartMarchMonotone(a - 1, b - 1);
  }

  /** January 1st falls 306 days into the previous March year. */
  lemma Jan1March(y: int)
    ensures Jan1(y) == YearStartMarch(y - 1) + 306
  {
  }

  /** Year(z) is the year whose January 1st is the last one on or before z. */
  lemma YearBounds(z: Date)
    ensures Jan1(Year(z)) <= z < Jan1(Year(z) + 1)
  {
    var y := MarchYear(z);
    YearStartMarchStep(y - 1);
    YearStartMarchStep(y);
    var mp := MarchMonth(z - YearStartMarch(y));
    CivilMarch(z, y, mp);
    var yz := Year(z);
    if mp < 10 {
      assert yz == y;
    } else {
      assert yz == y + 1;
    }
    JanuaryBounds(z, yz);
  }

  /** A day from January 1st of y up to the next January 1st, in March-year terms. */
  lemma JanuaryBounds(z: Date, y: int)
    requires YearStartMarch(y - 1) + 306 <= z < YearStartMarch(y) + 306
    ensures Jan1(y) <= z < Jan1(y + 1)
  {
    Jan1March(y);
    Jan1March(y + 1);
  }

  /** Years do not overlap: only one year's January 1st bounds a day from below this way. */
  lemma Jan1Unique(z: Date, y1: int, y2: int)
    requires Jan1(y1) <= z < Jan1(y1 + 1) && Jan1(y2) <= z < Jan1(y2 + 1)
    ensures y1 == y2
  {
    if y1 < y2 {
      Jan1Monotone(y1 + 1, y2);
    } else if y2 < y1 {
      Jan1Monotone(y2 + 1, y1);
    }
  }

  /** A day lies in exactly one calendar year: the one Year names. */
  lemma YearCharacterization(z: Date, y: int)
    ensures Year(z) == y <==> Jan1(y) <= z < Jan1(y + 1)
  {
    YearBounds(z);
    if Jan1(y) <= z < Jan1(y + 1) {
      Jan1Unique(z, Year(z), y);
    }
  }

  /** The bounds of month (y, m) in March-year terms. */
  lemma MonthBoundsMarch(y: int, m: int)
    requires ValidMonth(m)
    ensures var yy := if m <= 2 then y - 1 else y;
            var mp := if m > 2 then m - 3 else m + 9;
            var n := NextMonth(y, m);
            && DaysFromCivil(y, m, 1) == YearStartMarch(yy) + MonthOffset(mp)
            && DaysFromCivil(n.0, n.1, 1) ==
                 if mp < 11 then YearStartMarch(yy) + MonthOffset(mp + 1) else YearStartMarch(yy + 1)
  {
  }

  /** The first days of a month and of the next one, for a month given in March-year terms. */
  lemma MonthStartOfMarch(yc: int, mc: int, y: int, mp: int)
    requires 0 <= mp <= 11
    requires mc == (if mp < 10 then mp + 3 else mp - 9) && yc == (if mp < 10 then y else y + 1)
    ensures DaysFromCivil(yc, mc, 1) == YearStartMarch(y) + MonthOffset(mp)
    ensures DaysFromCivil(NextMonth(yc, mc).0, NextMonth(yc, mc).1, 1)
         == if mp < 11 then YearStartMarch(y) + MonthOffset(mp + 1) else YearStartMarch(y + 1)
  {
    MonthBoundsMarch(yc, mc);
  }

  /** Year(z) and Month(z), in March-year terms. */
  lemma CivilMarch(z: Date, y: int, mp: int)
    requires y == MarchYear(z) && 0 <= z - YearStartMarch(y) <= 365 && mp == MarchMonth(z - YearStartMarch(y))
    ensures Month(z) == (if mp < 10 then mp + 3 else mp - 9) && Year(z) == (if mp < 10 then y else y + 1)
  {
  }

  /** A day lies between the first day of its month and the first day of the next month. */
  lemma MonthBounds(z: Date)
    ensures MonthStart(z) <= z < MonthEnd(z)
  {
    var y := MarchYear(z);
    YearStartMarchStep(y);
    var mp := MarchMonth(z - YearStartMarch(y));
    CivilMarch(z, y, mp);
    MonthStartOfMarch(Year(z), Month(z), y, mp);
  }

  /** The civil year and month of a day, read off its March year and March month. */
  lemma CivilOfMarch(z: Date, yy: int, mp: int)
    requires 0 <= mp <= 11
    requires YearStartMarch(yy) <= z < YearStartMarch(yy + 1)
    requires MonthOffset(mp) <= z - YearStartMarch(yy)
    requires mp < 11 ==> z - YearStartMarch(yy) < MonthOffset(mp + 1)
    ensures Month(z) == if mp < 10 then mp + 3 else mp - 9
    ensures Year(z) == if mp < 10 then yy else yy + 1
  {
    MarchYearUnique(z, yy);
    YearStartMarchStep(yy);
    MarchMonthUnique(z - YearStartMarch(yy), mp);
  }

  /** A day between the first day of month (y, m) and the first day of the next month is in (y, m). */
  lemma MonthFromBounds(z: Date, y: int, m: int)
    requires ValidMonth(m)
    requires DaysFromCivil(y, m, 1) <= z < DaysFromCivil(NextMonth(y, m).0, NextMonth(y, m).1, 1)
    ensures Year(z) == y && Month(z) == m
  {
    var yy := if m <= 2 then y - 1 else y;
    var mp := if m > 2 then m - 3 else m + 9;
    MonthBoundsMarch(y, m);
    YearStartMarchStep(yy);
    CivilOfMarch(z, yy, mp);
  }

  /** A day lies in exactly one month: the one Year and Month name. */
  lemma MonthCharacterization(z: Date, y: int, m: int)
    requires ValidMonth(m)
    ensures (Year(z) == y && Month(z) == m) <==>
            (DaysFromCivil(y, m, 1) <= z < DaysFromCivil(NextMonth(y, m).0, NextMonth(y, m).1, 1))
  {
    if DaysFromCivil(y, m, 1) <= z < DaysFromCivil(NextMonth(y, m).0, NextMonth(y, m).1, 1) {
      MonthFromBounds(z, y, m);
    } else {
      MonthBounds(z);
    }
  }

  lemma MonthBucket(z: Date, z': Date)
    requires MonthStart(z) <= z' < MonthEnd(z)
    ensures MonthStart(z) <= z < MonthEnd(z)
    ensures Year(z') == Year(z) && Month(z') == Month(z)
  {
    MonthCharacterization(z, Year(z), Month(z));
    MonthCharacterization(z', Year(z), Month(z));
  }

  /** The March year ending with February of year y has a leap day exactly when y is a leap year. */
  lemma MarchYearLength(y: int)
    ensures YearStartMarch(y) - YearStartMarch(y - 1) == if IsLeapYear(y) then 366 else 365
  {
    var a, b, c := y / 4 - (y - 1) / 4, y / 100 - (y - 1) / 100, y / 400 - (y - 1) / 400;
    assert YearStartMarch(y) - YearStartMarch(y - 1) == 365 + a - b + c;
    Quarters(y);
    Centuries(y);
    QuadCenturies(y);
    if y % 400 == 0 {
      QuadCenturyDivides(y);
    } else if y % 100 == 0 {
      CenturyDivides(y);
    }
  }

  lemma QuadCenturyDivides(y: int)
    requires y % 400 == 0
    ensures y % 100 == 0 && y % 4 == 0
  {
    var q := y / 400;
    assert y == 400 * q;
  }

  lemma CenturyDivides(y: int)
    requires y % 100 == 0
    ensures y % 4 == 0
  {
    var q := y / 100;
    assert y == 4 * (25 * q);
  }

  lemma Quarters(y: int)
    ensures y / 4 - (y - 1) / 4 == if y % 4 == 0 then 1 else 0
  {
  }

  lemma Centuries(y: int)
    ensures y / 100 - (y - 1) / 100 == if y % 100 == 0 then 1 else 0
  {
  }

  lemma QuadCenturies(y: int)
    ensures y / 400 - (y - 1) / 400 == if y % 400 == 0 then 1 else 0
  {
  }

  /** Month (y, m) runs for DaysInMonth(y, m) days up to the first day of the next month. */
  lemma MonthLength(y: int, m: int)
    requires ValidMonth(m)
    ensures DaysFromCivil(NextMonth(y, m).0, NextMonth(y, m).1, 1) - DaysFromCivil(y, m, 1) == DaysInMonth(y, m)
  {
    MonthBoundsMarch(y, m);
    if m == 2 {
      MarchYearLength(y);
    }
  }

  /** The civil date (y, m, d) is read back from its day number. */
  lemma CivilOfDate(y: int, m: int, d: int)
    requires ValidMonth(m) && 1 <= d <= DaysInMonth(y, m)
    ensures var z := DaysFromCivil(y, m, d); Year(z) == y && Month(z) == m && Day(z) == d
  {
    var z := DaysFromCivil(y, m, d);
    MonthLength(y, m);
    DaysFromCivilShift(y, m, d, 1);
    MonthFromBounds(z, y, m);
    CivilRoundTrip(z);
    assert DaysFromCivil(Year(z), Month(z), Day(z)) == DaysFromCivil(y, m, Day(z));
    DaysFromCivilShift(y, m, Day(z), d);
  }

  /** Within a month, day numbers advance with the day of the month. */
  lemma DaysFromCivilShift(y: int, m: int, d1: int, d2: int)
    requires ValidMonth(m)
    ensures DaysFromCivil(y, m, d1) - DaysFromCivil(y, m, d2) == d1 - d2
  {
  }

  /** The first day of a month lies in that month. */
  lemma MonthStartIn(z: Date)
    ensures Year(MonthStart(z)) == Year(z) && Month(MonthStart(z)) == Month(z)
  {
    CivilOfDate(Year(z), Month(z), 1);
  }

  /** The month after the one holding z starts on the day MonthEnd(z) names. */
  lemma MonthEndStarts(z: Date)
    ensures MonthStart(MonthEnd(z)) == MonthEnd(z)
  {
    var n := NextMonth(Year(z), Month(z));
    CivilOfDate(n.0, n.1, 1);
  }

  /** January 1st of year y lies in year y. */
  lemma Jan1Year(y: int)
    ensures Year(Jan1(y)) == y
  {
    CivilOfDate(y, 1, 1);
  }

  /** The next day is in the same year, or is January 1st of the next year. */
  lemma YearStep(z: Date)
    ensures Year(z + 1) == Year(z) || (Year(z + 1) == Year(z) + 1 && z + 1 == Jan1(Year(z) + 1))
  {
    YearBounds(z);
    if z + 1 < Jan1(Year(z) + 1) {
      YearCharacterization(z + 1, Year(z));
    } else {
      Jan1Year(Year(z) + 1);
    }
  }

  /** The next day is in the same month, or is the first day of the next month. */
  lemma MonthStep(z: Date)
    ensures || (MonthStart(z + 1) == MonthStart(z) && MonthEnd(z + 1) == MonthEnd(z))
            || (MonthStart(z + 1) == z + 1 && z + 1 == MonthEnd(z))
  {
    MonthBounds(z);
    if z + 1 < MonthEnd(z) {
      MonthBucket(z, z + 1);
    } else {
      MonthEndStarts(z);
    }
  }

  // ---------------------------------------------------------------------------
  // Weekdays and ISO 8601 week dates
  // ---------------------------------------------------------------------------

  /** Days since the last Monday: Monday is 0, Sunday is 6 (1970-01-01 was a Thursday). */
  function Weekday(z: Date): (w: int)
    ensures 0 <= w < 7
  {
    (z + 3) % 7
  }

  /** The Monday that starts the week holding z. */
  function Monday(z: Date): Date
  {
    z - Weekday(z)
  }

  lemma MondayBucket(z: Date, z': Date)
    requires Monday(z) <= z' < Monday(z) + 7
    ensures Monday(z') == Monday(z)
  {
  }

  /** The Monday of the next day is the same one, unless z is a Sunday. */
  lemma MondayStep(z: Date)
    ensures Monday(z + 1) == if Weekday(z) == 6 then Monday(z) + 7 else Monday(z)
  {
    var k := (z + 3) / 7;
    assert z + 3 == 7 * k + Weekday(z);
    if Weekday(z) == 6 {
      assert z + 4 == 7 * (k + 1);
    } else {
      assert z + 4 == 7 * k + (Weekday(z) + 1);
    }
  }

  /**
   * ISO 8601 (section 4.1.4 of ISO 8601:2004) numbers weeks Monday to Sunday;
   * week 1 of a year is the one holding that year's first Thursday, so a week
   * belongs to the year of its Thursday.
   */
  function Thursday(z: Date): Date
  {
    Monday(z) + 3
  }

  function IsoYear(z: Date): int
  {
    Year(Thursday(z))
  }

  function IsoWeek(z: Date): (w: int)
    ensures 1 <= w <= 53
  {
    var t := Thursday(z);
    YearCharacterization(t, Year(t));
    Jan1Step(Year(t));
    (t - Jan1(Year(t))) / 7 + 1
  }

  /** The day of ISO year y, week w, weekday wd (Monday is 0): week 1 holds January 4th. */
  function FromIsoYwd(y: int, w: int, wd: int): Date
  {
    Monday(Jan1(y) + 3) + 7 * (w - 1) + wd
  }

  lemma MondayOfWindow(x: Date, m: Date)
    requires Weekday(m) == 0 && m <= x < m + 7
    ensures Monday(x) == m
  {
    var k := (m + 3) / 7;
    assert m + 3 == 7 * k;
    assert (x + 3) % 7 == x - m;
  }

  lemma WeekdayShift(z: Date, k: int)
    ensures Weekday(z + 7 * k) == Weekday(z)
  {
    var q := (z + 3) / 7;
    assert z + 3 == 7 * q + Weekday(z);
    assert z + 7 * k + 3 == 7 * (q + k) + Weekday(z);
  }

  lemma ThursdayWeekday(z: Date)
    ensures Weekday(Thursday(z)) == 3
  {
    var m := Monday(z);
    var k := (z + 3) / 7;
    assert m + 3 == 7 * k;
    assert Thursday(z) + 3 == 7 * k + 3;
  }

  /** Counting whole weeks back from a Thursday t to the week holding j + 3. */
  lemma WeeksBack(t: Date, j: Date)
    requires Weekday(t) == 3
    ensures Monday(j + 3) + 7 * ((t - j) / 7) == t - 3
  {
    var q := (t - j) / 7;
    var r := (t - j) % 7;
    assert t == j + r + 7 * q;
    WeekdayShift(j + r - 3, q);
    assert Weekday(t - 3) == 0;
    MondayOfWindow(j + 3, j + r - 3);
  }

  /** Week (t - j) / 7 + 1 of the year starting on day j has its Monday three days before the Thursday t. */
  lemma FromIsoYwdThursday(y: int, t: Date)
    requires Weekday(t) == 3
    ensures FromIsoYwd(y, (t - Jan1(y)) / 7 + 1, 0) == t - 3
  {
    WeeksBack(t, Jan1(y));
  }

  /** Rebuilding the Monday of a day's ISO week from the ISO year and week gives that Monday. */
  lemma IsoWeekMonday(z: Date)
    ensures FromIsoYwd(IsoYear(z), IsoWeek(z), 0) == Monday(z)
  {
    var t := Thursday(z);
    ThursdayWeekday(z);
    FromIsoYwdThursday(Year(t), t);
    assert IsoYear(z) == Year(t);
    assert IsoWeek(z) == (t - Jan1(Year(t))) / 7 + 1;
  }

  lemma IsoWeekConstant(z: Date, z': Date)
    requires Monday(z') == Monday(z)
    ensures IsoYear(z') == IsoYear(z) && IsoWeek(z') == IsoWeek(z)
  {
    assert Thursday(z') == Thursday(z);
  }

  /** A Monday is its own week's Monday. */
  lemma MondayIsMonday(z: Date)
    ensures Weekday(Monday(z)) == 0 && Monday(Monday(z)) == Monday(z)
  {
    var k := (z + 3) / 7;
    assert Monday(z) + 3 == 7 * k;
  }

  /** The week after the one holding z starts seven days after its Monday. */
  lemma NextMonday(z: Date)
    ensures Monday(Monday(z) + 7) == Monday(z) + 7
  {
    MondayIsMonday(z);
    WeekdayShift(Monday(z), 1);
    MondayOfWindow(Monday(z) + 7, Monday(z) + 7);
  }

  /**
   * The ISO week that straddles New Year 2025 (y is 2024): Monday 2024-12-30
   * to Sunday 2025-01-05 is week 1 of ISO year 2025, and its first two days
   * lie in calendar year 2024.
   */
  lemma NewYear2025Week(y: int, mon: Date)
    requires y == 2024 && mon == DaysFromCivil(y, 12, 30)
    ensures Weekday(mon) == 0 && Monday(mon + 2) == mon
    ensures Year(mon) == y && Year(mon + 2) == y + 1
    ensures IsoYear(mon) == y + 1 && IsoWeek(mon) == 1 && IsoWeek(mon + 2) == 1
  {
    NewYear2025Days(y, mon);
    NewYear2025Iso(y, mon);
    SameIsoWeek(mon);
  }

  /** The Wednesday after a Monday is in the same ISO week. */
  lemma SameIsoWeek(mon: Date)
    requires Weekday(mon) == 0
    ensures IsoWeek(mon + 2) == IsoWeek(mon)
  {
    MondayOfWindow(mon, mon);
    MondayOfWindow(mon + 2, mon);
    IsoWeekConstant(mon, mon + 2);
  }

  lemma NewYear2025Days(y: int, mon: Date)
    requires y == 2024 && mon == DaysFromCivil(y, 12, 30)
    ensures Weekday(mon) == 0 && Monday(mon + 2) == mon
    ensures Year(mon) == y && Year(mon + 2) == y + 1
  {
    assert YearStartMarch(y) == 19783;
    assert mon == 20087;
    MondayOf20087(mon);
    NewYear2025Years(y, mon);
  }

  /** Day 20087 (2024-12-30) is a Monday. */
  lemma MondayOf20087(mon: Date)
    requires mon == 20087
    ensures Weekday(mon) == 0 && Monday(mon + 2) == mon
  {
  }

  lemma NewYear2025Years(y: int, mon: Date)
    requires y == 2024 && mon == DaysFromCivil(y, 12, 30)
    ensures Year(mon) == y && Year(mon + 2) == y + 1
  {
    CivilOfDate(y, 12, 30);
    NewYear2025Jan1(y, mon);
  }

  lemma NewYear2025Jan1(y: int, mon: Date)
    requires y == 2024 && mon == DaysFromCivil(y, 12, 30)
    ensures Year(mon + 2) == y + 1
  {
    CivilOfDate(y + 1, 1, 1);
    assert DaysFromCivil(y + 1, 1, 1) == mon + 2;
  }

  lemma NewYear2025Iso(y: int, mon: Date)
    requires y == 2024 && mon == DaysFromCivil(y, 12, 30)
    ensures IsoYear(mon) == y + 1 && IsoWeek(mon) == 1
  {
    var thu := DaysFromCivil(y + 1, 1, 2);
    assert YearStartMarch(y) == 19783;
    assert mon == 20087 && thu == 20090;
    assert Thursday(mon) == thu;
    CivilOfDate(y + 1, 1, 2);
    assert Jan1(y + 1) == thu - 1;
  }
}
