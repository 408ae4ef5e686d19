/**
 * The time scales of the graph's x axis in their fixed order, the text the
 * date library writes for a date, and the label a date gets at each scale.
 */
module Scales {
  import C = Calendar
  import opened Text

  datatype Scale = Day | Week | Month | Year | All

  /** The position of a scale in declaration order. */
  function Rank(s: Scale): nat
  {
    match s
    case Day => 0
    case Week => 1
    case Month => 2
    case Year => 3
    case All => 4
  }

  /** Different scales have different positions. */
  lemma RankInjective(s: Scale, t: Scale)
    ensures Rank(s) == Rank(t) ==> s == t
  {
  }

  /** `Scale::iterator`: every scale once, in declaration order. */
  function Iterator(): (r: seq<Scale>)
    ensures |r| == 5
    ensures forall i :: 0 <= i < |r| ==> Rank(r[i]) == i
    ensures forall s :: Rank(s) < |r| && r[Rank(s)] == s
  {
    [Day, Week, Month, Year, All]
  }

  // ---------------------------------------------------------------------------
  // The text of a date
  // ---------------------------------------------------------------------------

  /** A month or a day written on two digits (`{:02}`, `{:0>2}`). */
  function Pad2(n: nat): string
  {
    ZeroPad(NatToString(n), 2)
  }

  lemma Pad2Digits(n: nat)
    requires n < 100
    ensures |Pad2(n)| == 2 && AllDigits(Pad2(n)) && DecimalValue(Pad2(n)) == n
  {
    assert Pow10(2) == 100;
    NatToStringLength(n, 2);
    PaddedValue(n, 2);
  }

  /**
   * The year at the head of a date's text: four digits for the years 0 to
   * 9999, otherwise an explicit sign and at least four digits (`{:+05}`).
   */
  function YearText(y: int): string
  {
    if 0 <= y <= 9999 then ZeroPad(NatToString(y), 4)
    else if y > 9999 then "+" + NatToString(y)
    else "-" + ZeroPad(NatToString(-y), 4)
  }

  /** Different years are written differently. */
  lemma YearTextInjective(y1: int, y2: int)
    requires YearText(y1) == YearText(y2)
    ensures y1 == y2
  {
    YearTextSameForm(y1, y2);
    if 0 <= y1 <= 9999 {
      PaddedInjective(y1, y2, 4);
    } else if y1 > 9999 {
      LongYearsInjective(y1, y2);
    } else {
      NegativeYearsInjective(y1, y2);
    }
  }

  lemma LongYearsInjective(y1: int, y2: int)
    requires y1 > 9999 && y2 > 9999 && YearText(y1) == YearText(y2)
    ensures y1 == y2
  {
    assert NatToString(y1) == YearText(y1)[1..];
    assert NatToString(y2) == YearText(y2)[1..];
    NatToStringInjective(y1, y2);
  }

  lemma NegativeYearsInjective(y1: int, y2: int)
    requires y1 < 0 && y2 < 0 && YearText(y1) == YearText(y2)
    ensures y1 == y2
  {
    var m, n: nat := -y1, -y2;
    NegativeYearDigits(y1, m);
    NegativeYearDigits(y2, n);
    PaddedInjective(m, n, 4);
  }

  lemma NegativeYearDigits(y: int, m: nat)
    requires y < 0 && m == -y
    ensures YearText(y)[1..] == ZeroPad(NatToString(m), 4)
  {
    var t := ZeroPad(NatToString(m), 4);
    assert YearText(y) == "-" + t;
    assert ("-" + t)[1..] == t;
  }

  lemma YearTextSameForm(y1: int, y2: int)
    requires YearText(y1) == YearText(y2)
    ensures 0 <= y1 <= 9999 <==> 0 <= y2 <= 9999
    ensures y1 > 9999 <==> y2 > 9999
  {
    YearTextShape(y1);
    YearTextShape(y2);
  }

  lemma PaddedInjective(m: nat, n: nat, w: nat)
    requires ZeroPad(NatToString(m), w) == ZeroPad(NatToString(n), w)
    ensures m == n
  {
    PaddedValue(m, w);
    PaddedValue(n, w);
  }

  /** The first character tells the three forms apart. */
  lemma YearTextShape(y: int)
    ensures |YearText(y)| > 1
    ensures IsDigit(YearText(y)[0]) <==> 0 <= y <= 9999
    ensures YearText(y)[0] == '+' <==> y > 9999
    ensures YearText(y)[0] == '-' <==> y < 0
  {
    if 0 <= y <= 9999 {
      PaddedValue(y, 4);
    }
  }

  /** `NaiveDate::to_string`: `YYYY-MM-DD`. */
  function DateText(z: C.Date): string
  {
    YearText(C.Year(z)) + "-" + Pad2(C.Month(z)) + "-" + Pad2(C.Day(z))
  }

  /** A date's text names that date and no other. */
  lemma DateTextInjective(z1: C.Date, z2: C.Date)
    ensures DateText(z1) == DateText(z2) <==> z1 == z2
  {
    if DateText(z1) == DateText(z2) {
      var c1, c2 := C.CivilFromDays(z1), C.CivilFromDays(z2);
      Pad2Digits(c1.month);
      Pad2Digits(c2.month);
      Pad2Digits(c1.day);
      Pad2Digits(c2.day);
      var h1 := YearText(c1.year) + "-" + Pad2(c1.month);
      var h2 := YearText(c2.year) + "-" + Pad2(c2.month);
      assert h1 + ['-'] + Pad2(c1.day) == h2 + ['-'] + Pad2(c2.day);
      SplitBeforeDigits(h1, Pad2(c1.day), h2, Pad2(c2.day), '-');
      SplitBeforeDigits(YearText(c1.year), Pad2(c1.month), YearText(c2.year), Pad2(c2.month), '-');
      YearTextInjective(c1.year, c2.year);
      C.CivilRoundTrip(z1);
      C.CivilRoundTrip(z2);
    }
  }

  // ---------------------------------------------------------------------------
  // naive_date_to_scale_x
  // ---------------------------------------------------------------------------

  /**
   * The label of a date at a scale. The week label pairs the calendar year
   * with the ISO week number, and the month is written without padding.
   */
  function ScaleLabel(z: C.Date, s: Scale): string
  {
    match s
    case Day => DateText(z)
    case Week => IntToString(C.Year(z)) + "-" + NatToString(C.IsoWeek(z))
    case Month => IntToString(C.Year(z)) + "-" + NatToString(C.Month(z))
    case Year => IntToString(C.Year(z))
    case All => "all"
  }

  /** A year followed by a dash and a number splits back into both. */
  lemma DashedInjective(y1: int, n1: nat, y2: int, n2: nat)
    ensures IntToString(y1) + "-" + NatToString(n1) == IntToString(y2) + "-" + NatToString(n2)
        <==> y1 == y2 && n1 == n2
  {
    if IntToString(y1) + "-" + NatToString(n1) == IntToString(y2) + "-" + NatToString(n2) {
      assert IntToString(y1) + ['-'] + NatToString(n1) == IntToString(y2) + ['-'] + NatToString(n2);
      SplitBeforeDigits(IntToString(y1), NatToString(n1), IntToString(y2), NatToString(n2), '-');
      IntToStringInjective(y1, y2);
      NatToStringInjective(n1, n2);
    }
  }

  /** Two dates share a day label exactly when they are the same date. */
  lemma DayLabelIdentifies(z1: C.Date, z2: C.Date)
    ensures ScaleLabel(z1, Day) == ScaleLabel(z2, Day) <==> z1 == z2
  {
    DateTextInjective(z1, z2);
  }

  /** Two dates share a week label exactly when their calendar years and ISO weeks agree. */
  lemma WeekLabelIdentifies(z1: C.Date, z2: C.Date)
    ensures ScaleLabel(z1, Week) == ScaleLabel(z2, Week)
        <==> C.Year(z1) == C.Year(z2) && C.IsoWeek(z1) == C.IsoWeek(z2)
  {
    DashedInjective(C.Year(z1), C.IsoWeek(z1), C.Year(z2), C.IsoWeek(z2));
  }

  /** Two dates share a month label exactly when they fall in the same month of the same year. */
  lemma MonthLabelIdentifies(z1: C.Date, z2: C.Date)
    ensures ScaleLabel(z1, Month) == ScaleLabel(z2, Month)
        <==> C.Year(z1) == C.Year(z2) && C.Month(z1) == C.Month(z2)
  {
    DashedInjective(C.Year(z1), C.Month(z1), C.Year(z2), C.Month(z2));
  }

  /** Two dates share a year label exactly when they fall in the same year. */
  lemma YearLabelIdentifies(z1: C.Date, z2: C.Date)
    ensures ScaleLabel(z1, Year) == ScaleLabel(z2, Year) <==> C.Year(z1) == C.Year(z2)
  {
    if ScaleLabel(z1, Year) == ScaleLabel(z2, Year) {
      IntToStringInjective(C.Year(z1), C.Year(z2));
    }
  }

  /** Every day of a month gets that month's label. */
  lemma MonthLabelBucket(z: C.Date, z': C.Date)
    requires C.MonthStart(z) <= z' < C.MonthEnd(z)
    ensures ScaleLabel(z', Month) == ScaleLabel(z, Month)
  {
    C.MonthBucket(z, z');
  }

  /** Every day of a year gets that year's label. */
  lemma YearLabelBucket(z: C.Date, z': C.Date)
    requires C.Jan1(C.Year(z)) <= z' < C.Jan1(C.Year(z) + 1)
    ensures ScaleLabel(z', Year) == ScaleLabel(z, Year)
  {
    C.YearCharacterization(z', C.Year(z));
  }

  /**
   * Days of one ISO week that straddle New Year get two different week
   * labels, because the label takes the calendar year.
   */
  lemma WeekLabelSplitsWeek(z1: C.Date, z2: C.Date)
    requires C.Monday(z1) == C.Monday(z2) && C.Year(z1) != C.Year(z2)
    ensures ScaleLabel(z1, Week) != ScaleLabel(z2, Week)
  {
    WeekLabelIdentifies(z1, z2);
  }
}
