/**
 * The x axis of the graph. For each periodic scale (day, ISO week, month,
 * year) the run of segments covering a range of days, built one day at a time
 * with adjacent duplicates suppressed, plus a single segment for the whole
 * range; the display text of a segment; the key-to-position index and the
 * lookup of the segment holding a datetime; and the restriction of the
 * segments to a date range.
 *
 * The list-building and index lemmas are stated for any segment function and
 * any key function; the calendar enters only through the per-scale lemmas
 * that show the source's segments and keys meet their hypotheses.
 */
module XSegments {
  import C = Calendar
  import opened Text
  import opened Scales

  /** A half-open interval [start, end) of datetimes at one scale. */
  datatype XSegment = XSegment(scale: Scale, start: C.DateTime, end: C.DateTime)

  /** The segments of every scale and, for the periodic scales, the position of each key. */
  datatype ScaleXSegments = ScaleXSegments(values: map<Scale, seq<XSegment>>, index: map<Scale, map<string, nat>>)

  // ---------------------------------------------------------------------------
  // Display
  // ---------------------------------------------------------------------------

  /** The text of a segment, read off the date of its start. */
  function Display(x: XSegment): string
  {
    var z := C.DateOf(x.start);
    match x.scale
    case Day => IntToString(C.Year(z)) + "-" + Pad2(C.Month(z)) + "-" + Pad2(C.Day(z))
    case Week => IntToString(C.Year(z)) + "-w" + Pad2(C.IsoWeek(z))
    case Month => IntToString(C.Year(z)) + "-" + Pad2(C.Month(z))
    case Year => IntToString(C.Year(z))
    case All => "all"
  }

  /**
   * A segment starting at noon on 2022-03-14 (y is 2022; a Monday of ISO
   * week 11) displays as 2022-03-14, 2022-w11, 2022-03, 2022 and all.
   */
  lemma DisplayExamples(y: int, z: C.Date, t: C.DateTime, u: C.DateTime)
    requires y == 2022 && z == C.DaysFromCivil(y, 3, 14) && t == C.Midnight(z) + 720
    ensures Display(XSegment(Day, t, u)) == "2022-03-14"
    ensures Display(XSegment(Week, t, u)) == "2022-w11"
    ensures Display(XSegment(Month, t, u)) == "2022-03"
    ensures Display(XSegment(Year, t, u)) == "2022"
    ensures Display(XSegment(All, t, u)) == "all"
  {
    C.DateOfMidnight(z, 720);
    March14(y, z);
    Texts2022(C.Year(z), C.Month(z), C.Day(z), C.IsoWeek(z));
    DisplayOn(z, t, u);
  }

  /** The texts of a segment starting on a day whose year, month, day and ISO week read 2022, 03, 14 and 11. */
  lemma DisplayOn(z: C.Date, t: C.DateTime, u: C.DateTime)
    requires C.DateOf(t) == z
    requires IntToString(C.Year(z)) == "2022" && Pad2(C.Month(z)) == "03"
    requires Pad2(C.Day(z)) == "14" && Pad2(C.IsoWeek(z)) == "11"
    ensures Display(XSegment(Day, t, u)) == "2022-03-14"
    ensures Display(XSegment(Week, t, u)) == "2022-w11"
    ensures Display(XSegment(Month, t, u)) == "2022-03"
    ensures Display(XSegment(Year, t, u)) == "2022"
    ensures Display(XSegment(All, t, u)) == "all"
  {
    Join2022(IntToString(C.Year(z)), Pad2(C.Month(z)), Pad2(C.Day(z)), Pad2(C.IsoWeek(z)));
    DisplayIs(XSegment(Day, t, u), "2022-03-14");
    DisplayIs(XSegment(Week, t, u), "2022-w11");
    DisplayIs(XSegment(Month, t, u), "2022-03");
    DisplayIs(XSegment(Year, t, u), "2022");
  }

  /** Display reads the fields of the start date that its scale names. */
  lemma DisplayIs(x: XSegment, text: string)
    requires x.scale == Day ==> text == IntToString(C.Year(C.DateOf(x.start))) + "-" + Pad2(C.Month(C.DateOf(x.start))) + "-" + Pad2(C.Day(C.DateOf(x.start)))
    requires x.scale == Week ==> text == IntToString(C.Year(C.DateOf(x.start))) + "-w" + Pad2(C.IsoWeek(C.DateOf(x.start)))
    requires x.scale == Month ==> text == IntToString(C.Year(C.DateOf(x.start))) + "-" + Pad2(C.Month(C.DateOf(x.start)))
    requires x.scale == Year ==> text == IntToString(C.Year(C.DateOf(x.start)))
    requires x.scale == All ==> text == "all"
    ensures Display(x) == text
  {
  }

  /** The year 2022, month 3, day 14 and week 11 are written 2022, 03, 14 and 11. */
  lemma Texts2022(y: int, m: nat, d: nat, w: nat)
    requires y == 2022 && m == 3 && d == 14 && w == 11
    ensures IntToString(y) == "2022" && Pad2(m) == "03" && Pad2(d) == "14" && Pad2(w) == "11"
  {
    Year2022Text();
    Pad2Of3();
    Pad2Of11();
    Pad2Of14();
  }

  lemma Join2022(year: string, month: string, day: string, week: string)
    requires year == "2022" && month == "03" && day == "14" && week == "11"
    ensures year + "-" + month + "-" + day == "2022-03-14"
    ensures year + "-w" + week == "2022-w11"
    ensures year + "-" + month == "2022-03"
  {
  }

  lemma Year2022Text() ensures IntToString(2022) == "2022" {}
  lemma Pad2Of3() ensures Pad2(3) == "03" {}
  lemma Pad2Of11() ensures Pad2(11) == "11" {}
  lemma Pad2Of14() ensures Pad2(14) == "14" {}

  lemma March14(y: int, z: C.Date)
    requires y == 2022 && z == C.DaysFromCivil(y, 3, 14)
    ensures C.Year(z) == 2022 && C.Month(z) == 3 && C.Day(z) == 14 && C.IsoWeek(z) == 11
  {
    C.CivilOfDate(y, 3, 14);
    March14Week(y, z);
  }

  lemma March14Week(y: int, z: C.Date)
    requires y == 2022 && z == C.DaysFromCivil(y, 3, 14)
    ensures C.IsoWeek(z) == 11
  {
    var thu := C.DaysFromCivil(y, 3, 17);
    assert C.YearStartMarch(y) == 19052;
    assert C.YearStartMarch(y - 1) == 18687;
    assert z == 19065 && thu == 19068;
    assert C.Thursday(z) == thu;
    C.CivilOfDate(y, 3, 17);
    assert C.Jan1(y) == 18993;
  }

  /** Day segments display differently exactly when they start on different dates. */
  lemma DisplayDayIdentifies(x1: XSegment, x2: XSegment)
    requires x1.scale == Day && x2.scale == Day
    ensures Display(x1) == Display(x2) <==> C.DateOf(x1.start) == C.DateOf(x2.start)
  {
    var z1, z2 := C.DateOf(x1.start), C.DateOf(x2.start);
    if Display(x1) == Display(x2) {
      var c1, c2 := C.CivilFromDays(z1), C.CivilFromDays(z2);
      Pad2Digits(c1.month);
      Pad2Digits(c2.month);
      Pad2Digits(c1.day);
      Pad2Digits(c2.day);
      var h1 := IntToString(c1.year) + "-" + Pad2(c1.month);
      var h2 := IntToString(c2.year) + "-" + Pad2(c2.month);
      assert h1 + ['-'] + Pad2(c1.day) == h2 + ['-'] + Pad2(c2.day);
      SplitBeforeDigits(h1, Pad2(c1.day), h2, Pad2(c2.day), '-');
      SplitBeforeDigits(IntToString(c1.year), Pad2(c1.month), IntToString(c2.year), Pad2(c2.month), '-');
      IntToStringInjective(c1.year, c2.year);
      PaddedDigitsInjective(c1.month, c2.month);
      PaddedDigitsInjective(c1.day, c2.day);
      C.CivilRoundTrip(z1);
      C.CivilRoundTrip(z2);
    }
  }

  lemma PaddedDigitsInjective(m: nat, n: nat)
    requires m < 100 && n < 100 && Pad2(m) == Pad2(n)
    ensures m == n
  {
    Pad2Digits(m);
    Pad2Digits(n);
  }

  // ---------------------------------------------------------------------------
  // The segment of a day at a periodic scale
  // ---------------------------------------------------------------------------

  /**
   * The segment holding day d: the day; the week from its Monday to the next
   * Monday (the source rebuilds it from the ISO year and week number, and
   * WeekSegment shows the two agree); the 1st of the month to the 1st of the
   * next month; January 1st to January 1st.
   */
  function SegmentOf(s: Scale, d: C.Date): XSegment
    requires s != All
  {
    match s
    case Day => XSegment(Day, C.Midnight(d), C.Midnight(d + 1))
    case Week => XSegment(Week, C.Midnight(C.Monday(d)), C.Midnight(C.Monday(d) + 7))
    case Month => XSegment(Month, C.Midnight(C.MonthStart(d)), C.Midnight(C.MonthEnd(d)))
    case Year => XSegment(Year, C.Midnight(C.Jan1(C.Year(d))), C.Midnight(C.Jan1(C.Year(d) + 1)))
  }

  /** SegmentOf at one scale, as a function of the day. */
  function Segment(s: Scale): C.Date -> XSegment
    requires s != All
  {
    d => SegmentOf(s, d)
  }

  /**
   * The week segment is the one the source builds: from Monday of the day's
   * ISO year and week number to midnight after Sunday of that week.
   */
  lemma WeekSegment(d: C.Date)
    ensures SegmentOf(Week, d) == XSegment(Week, C.Midnight(C.FromIsoYwd(C.IsoYear(d), C.IsoWeek(d), 0)),
                                           C.Midnight(C.FromIsoYwd(C.IsoYear(d), C.IsoWeek(d), 6) + 1))
  {
    C.IsoWeekMonday(d);
  }

  /** Every segment holds the whole of the day it is computed from. */
  lemma Holds(s: Scale, d: C.Date)
    requires s != All
    ensures SegmentOf(s, d).start <= C.Midnight(d) && C.Midnight(d + 1) <= SegmentOf(s, d).end
  {
    match s
    case Day =>
    case Week => HoldsWeek(d);
    case Month => HoldsMonth(d);
    case Year => HoldsYear(d);
  }

  lemma HoldsWeek(d: C.Date)
    ensures SegmentOf(Week, d).start <= C.Midnight(d) && C.Midnight(d + 1) <= SegmentOf(Week, d).end
  {
    C.MidnightMonotone(C.Monday(d), d);
    C.MidnightMonotone(d + 1, C.Monday(d) + 7);
  }

  lemma HoldsMonth(d: C.Date)
    ensures SegmentOf(Month, d).start <= C.Midnight(d) && C.Midnight(d + 1) <= SegmentOf(Month, d).end
  {
    C.MonthBounds(d);
    C.MidnightMonotone(C.MonthStart(d), d);
    C.MidnightMonotone(d + 1, C.MonthEnd(d));
  }

  lemma HoldsYear(d: C.Date)
    ensures SegmentOf(Year, d).start <= C.Midnight(d) && C.Midnight(d + 1) <= SegmentOf(Year, d).end
  {
    C.YearBounds(d);
    C.MidnightMonotone(C.Jan1(C.Year(d)), d);
    C.MidnightMonotone(d + 1, C.Jan1(C.Year(d) + 1));
  }

  /**
   * A segment function advances at day d when the segment of d is not empty
   * and the segment of the next day is the same one or starts where it ends.
   */
  predicate Advances(seg: C.Date -> XSegment, d: C.Date)
  {
    seg(d).start < seg(d).end && (seg(d + 1) == seg(d) || seg(d + 1).start == seg(d).end)
  }

  /** The source's segments advance at every day, at every periodic scale. */
  lemma SegmentAdvances(s: Scale, d: C.Date)
    requires s != All
    ensures Advances(Segment(s), d)
  {
    match s
    case Day => C.MidnightMonotone(d, d + 1);
    case Week => AdvancesWeek(d);
    case Month => AdvancesMonth(d);
    case Year => AdvancesYear(d);
  }

  lemma AdvancesWeek(d: C.Date)
    ensures Advances(Segment(Week), d)
  {
    C.MondayStep(d);
    C.MidnightMonotone(C.Monday(d), C.Monday(d) + 7);
  }

  lemma AdvancesMonth(d: C.Date)
    ensures Advances(Segment(Month), d)
  {
    C.MonthBounds(d);
    C.MonthStep(d);
    if C.MonthStart(d + 1) == C.MonthStart(d) && C.MonthEnd(d + 1) == C.MonthEnd(d) {
      assert Segment(Month)(d + 1) == Segment(Month)(d);
    } else {
      assert Segment(Month)(d + 1).start == Segment(Month)(d).end;
    }
  }

  lemma AdvancesYear(d: C.Date)
    ensures Advances(Segment(Year), d)
  {
    var y := C.Year(d);
    C.Jan1Step(y);
    C.YearStep(d);
    YearSegment(d, y);
    YearSegment(d + 1, C.Year(d + 1));
  }

  /** The month segment of a day in month m of year y. */
  lemma MonthSegment(d: C.Date, y: int, m: int)
    requires C.Year(d) == y && C.Month(d) == m
    ensures C.ValidMonth(m)
    ensures var next := C.NextMonth(y, m);
            Segment(Month)(d) == XSegment(Month, C.Midnight(C.DaysFromCivil(y, m, 1)), C.Midnight(C.DaysFromCivil(next.0, next.1, 1)))
  {
  }

  /** The year segment of a day in year y. */
  lemma YearSegment(d: C.Date, y: int)
    requires C.Year(d) == y
    ensures Segment(Year)(d) == XSegment(Year, C.Midnight(C.Jan1(y)), C.Midnight(C.Jan1(y + 1)))
  {
  }

  // ---------------------------------------------------------------------------
  // The run of segments
  // ---------------------------------------------------------------------------

  /** Appends x unless it equals the last segment appended. */
  function Push(segs: seq<XSegment>, x: XSegment): seq<XSegment>
  {
    if segs == [] || segs[|segs| - 1] != x then segs + [x] else segs
  }

  /** The segments once the days start .. stop - 1 have been visited in order. */
  function Segs(seg: C.Date -> XSegment, start: C.Date, stop: C.Date): seq<XSegment>
    decreases stop - start
  {
    if stop <= start then [] else Push(Segs(seg, start, stop - 1), seg(stop - 1))
  }

  /** Consecutive segments touch and each is non-empty, so starts strictly increase. */
  predicate Chained(segs: seq<XSegment>)
  {
    && (forall i :: 0 <= i < |segs| ==> segs[i].start < segs[i].end)
    && (forall i :: 0 <= i < |segs| - 1 ==> segs[i].end == segs[i + 1].start)
  }

  /**
   * The run is empty exactly when no day was visited; its first segment is
   * that of the first day and its last segment that of the last day.
   */
  lemma {:induction false} SegsEnds(seg: C.Date -> XSegment, start: C.Date, stop: C.Date)
    ensures |Segs(seg, start, stop)| == 0 <==> stop <= start
    ensures start < stop ==> Segs(seg, start, stop)[0] == seg(start)
    ensures start < stop ==> Segs(seg, start, stop)[|Segs(seg, start, stop)| - 1] == seg(stop - 1)
    decreases stop - start
  {
    if start < stop {
      SegsEnds(seg, start, stop - 1);
    }
  }

  /** Visiting one more day pushes its segment. */
  lemma SegsNext(seg: C.Date -> XSegment, start: C.Date, stop: C.Date)
    requires start <= stop
    ensures Segs(seg, start, stop + 1) == Push(Segs(seg, start, stop), seg(stop))
  {
  }

  /** No day visited, no segment. */
  lemma EmptyRun(seg: C.Date -> XSegment, start: C.Date, stop: C.Date)
    requires stop <= start
    ensures Segs(seg, start, stop) == [] && Segs(seg, start, start) == []
  {
  }

  /** SegsEnds for the days start .. end. */
  lemma RunEnds(seg: C.Date -> XSegment, start: C.Date, end: C.Date)
    requires start <= end
    ensures |Segs(seg, start, end + 1)| > 0
    ensures Segs(seg, start, end + 1)[0] == seg(start)
    ensures Segs(seg, start, end + 1)[|Segs(seg, start, end + 1)| - 1] == seg(end)
  {
    SegsEnds(seg, start, end + 1);
  }

  /** A segment function that advances on every visited day yields a chained run. */
  lemma {:induction false} SegsChained(seg: C.Date -> XSegment, start: C.Date, stop: C.Date)
    requires forall x :: start <= x < stop ==> Advances(seg, x)
    ensures Chained(Segs(seg, start, stop))
    decreases stop - start
  {
    if start < stop {
      SegsChained(seg, start, stop - 1);
      assert Advances(seg, stop - 1);
      if start < stop - 1 {
        SegsEnds(seg, start, stop - 1);
        assert Advances(seg, stop - 2);
      }
    }
  }

  /** In a chained run, starts strictly increase, so no segment repeats. */
  lemma {:induction false} ChainedIncreasing(segs: seq<XSegment>, i: nat, j: nat)
    requires Chained(segs) && i < j < |segs|
    ensures segs[i].start < segs[j].start
    decreases j - i
  {
    if i + 1 < j {
      ChainedIncreasing(segs, i + 1, j);
    }
  }

  /** Every visited day has its segment in the run. */
  lemma {:induction false} SegsCover(seg: C.Date -> XSegment, start: C.Date, stop: C.Date, d: C.Date)
    requires start <= d < stop
    ensures seg(d) in Segs(seg, start, stop)
    decreases stop - start
  {
    SegsEnds(seg, start, stop);
    if d < stop - 1 {
      SegsCover(seg, start, stop - 1, d);
    }
  }

  /** Every segment in the run is the segment of a visited day. */
  lemma {:induction false} SegsSound(seg: C.Date -> XSegment, start: C.Date, stop: C.Date, i: nat)
    requires i < |Segs(seg, start, stop)|
    ensures exists d :: start <= d < stop && Segs(seg, start, stop)[i] == seg(d)
    decreases stop - start
  {
    var prev := Segs(seg, start, stop - 1);
    if i < |prev| {
      SegsSound(seg, start, stop - 1, i);
      var d :| start <= d < stop - 1 && prev[i] == seg(d);
      assert Segs(seg, start, stop)[i] == seg(d);
    } else {
      assert Segs(seg, start, stop)[i] == seg(stop - 1);
    }
  }

  /** Day segments: one per day of start .. stop - 1, in order, each from midnight to midnight. */
  lemma {:induction false} DaySegs(start: C.Date, stop: C.Date)
    ensures |Segs(Segment(Day), start, stop)| == if stop <= start then 0 else stop - start
    ensures forall i :: 0 <= i < |Segs(Segment(Day), start, stop)| ==>
              Segs(Segment(Day), start, stop)[i] == XSegment(Day, C.Midnight(start + i), C.Midnight(start + i + 1))
    decreases stop - start
  {
    if start < stop {
      DaySegs(start, stop - 1);
      if start < stop - 1 {
        SegsEnds(Segment(Day), start, stop - 1);
        C.MidnightMonotone(stop - 2, stop - 1);
      }
    }
  }

  // ---------------------------------------------------------------------------
  // ScaleXSegments::new
  // ---------------------------------------------------------------------------

  /**
   * The segments `new` lists for the days start .. end: at each periodic
   * scale the run of the days' segments, and one All segment from midnight of
   * start to midnight after end.
   */
  function NewValues(start: C.Date, end: C.Date): map<Scale, seq<XSegment>>
  {
    map[All := [XSegment(All, C.Midnight(start), C.Midnight(end + 1))],
        Day := Segs(Segment(Day), start, end + 1),
        Week := Segs(Segment(Week), start, end + 1),
        Month := Segs(Segment(Month), start, end + 1),
        Year := Segs(Segment(Year), start, end + 1)]
  }

  /**
   * `ScaleXSegments::new`: one pass over the days start .. end, pushing each
   * day's segment at each periodic scale unless it repeats the last one; the
   * All scale gets one segment from midnight of start to midnight after end.
   */
  method New(start: C.Date, end: C.Date) returns (r: ScaleXSegments)
    ensures r.values == NewValues(start, end)
    ensures r.index == BuildIndex(r.values)
  {
    var days, weeks, months, years := VisitDays(start, end);
    var values := map[All := [XSegment(All, C.Midnight(start), C.Midnight(end + 1))],
                      Day := days, Week := weeks, Month := months, Year := years];
    r := ScaleXSegments(values, BuildIndex(values));
  }

  /**
   * The loop of `new` over the days start .. end: each day's segment at each
   * periodic scale is pushed unless it repeats the last one.
   */
  method VisitDays(start: C.Date, end: C.Date)
    returns (days: seq<XSegment>, weeks: seq<XSegment>, months: seq<XSegment>, years: seq<XSegment>)
    ensures days == Segs(Segment(Day), start, end + 1)
    ensures weeks == Segs(Segment(Week), start, end + 1)
    ensures months == Segs(Segment(Month), start, end + 1)
    ensures years == Segs(Segment(Year), start, end + 1)
  {
    days, weeks, months, years := [], [], [], [];
    var current := start;
    while current <= end
      invariant current == start || start < current <= end + 1
      invariant days == Segs(Segment(Day), start, current)
      invariant weeks == Segs(Segment(Week), start, current)
      invariant months == Segs(Segment(Month), start, current)
      invariant years == Segs(Segment(Year), start, current)
      decreases end - current
    {
      days := PushDay(days, start, current);
      weeks := PushWeek(weeks, start, current);
      months := PushMonth(months, start, current);
      years := PushYear(years, start, current);
      current := current + 1;
    }
    if end < start {
      assert current == start;
      EmptyRun(Segment(Day), start, end + 1);
      EmptyRun(Segment(Week), start, end + 1);
      EmptyRun(Segment(Month), start, end + 1);
      EmptyRun(Segment(Year), start, end + 1);
    }
  }

  /**
   * Every scale has a list; the All list is the single segment of the whole
   * range; each periodic list is the run of its days' segments, and is empty
   * when the range is.
   */
  lemma NewValuesMeaning(start: C.Date, end: C.Date)
    ensures forall s :: s in NewValues(start, end)
    ensures NewValues(start, end)[All] == [XSegment(All, C.Midnight(start), C.Midnight(end + 1))]
    ensures forall s :: s != All ==> NewValues(start, end)[s] == Segs(Segment(s), start, end + 1)
    ensures end < start ==> forall s :: s != All ==> NewValues(start, end)[s] == []
  {
    forall s
      ensures s in NewValues(start, end)
      ensures s != All ==> NewValues(start, end)[s] == Segs(Segment(s), start, end + 1)
    {
      match s
      case All =>
      case Day =>
      case Week =>
      case Month =>
      case Year =>
    }
    if end < start {
      forall s | s != All
        ensures NewValues(start, end)[s] == []
      {
        EmptyRun(Segment(s), start, end + 1);
      }
    }
  }

  /** The day block of the loop of `new`: the day from midnight to midnight, unless it repeats. */
  method PushDay(days: seq<XSegment>, start: C.Date, current: C.Date) returns (r: seq<XSegment>)
    requires start <= current && days == Segs(Segment(Day), start, current)
    ensures r == Segs(Segment(Day), start, current + 1)
  {
    var day := XSegment(Day, C.Midnight(current), C.Midnight(current + 1));
    r := PushSegment(days, Segment(Day), start, current, day);
  }

  /** The week block: Monday to Sunday of the ISO week, rebuilt from ISO year and week number. */
  method PushWeek(weeks: seq<XSegment>, start: C.Date, current: C.Date) returns (r: seq<XSegment>)
    requires start <= current && weeks == Segs(Segment(Week), start, current)
    ensures r == Segs(Segment(Week), start, current + 1)
  {
    var iy, iw := C.IsoYear(current), C.IsoWeek(current);
    var week := XSegment(Week, C.Midnight(C.FromIsoYwd(iy, iw, 0)), C.Midnight(C.FromIsoYwd(iy, iw, 6) + 1));
    WeekSegment(current);
    r := PushSegment(weeks, Segment(Week), start, current, week);
  }

  /** The month block: the 1st of the month to the 1st of the next month. */
  method PushMonth(months: seq<XSegment>, start: C.Date, current: C.Date) returns (r: seq<XSegment>)
    requires start <= current && months == Segs(Segment(Month), start, current)
    ensures r == Segs(Segment(Month), start, current + 1)
  {
    var y, m := C.Year(current), C.Month(current);
    var next := C.NextMonth(y, m);
    var month := XSegment(Month, C.Midnight(C.DaysFromCivil(y, m, 1)), C.Midnight(C.DaysFromCivil(next.0, next.1, 1)));
    MonthSegment(current, y, m);
    r := PushSegment(months, Segment(Month), start, current, month);
  }

  /** The year block: January 1st to January 1st of the next year. */
  method PushYear(years: seq<XSegment>, start: C.Date, current: C.Date) returns (r: seq<XSegment>)
    requires start <= current && years == Segs(Segment(Year), start, current)
    ensures r == Segs(Segment(Year), start, current + 1)
  {
    var y := C.Year(current);
    var year := XSegment(Year, C.Midnight(C.DaysFromCivil(y, 1, 1)), C.Midnight(C.DaysFromCivil(y + 1, 1, 1)));
    YearSegment(current, y);
    r := PushSegment(years, Segment(Year), start, current, year);
  }

  /** Appending the segment of the current day unless it is the last one already there. */
  method PushSegment(segs: seq<XSegment>, seg: C.Date -> XSegment, start: C.Date, current: C.Date, x: XSegment)
    returns (r: seq<XSegment>)
    requires start <= current && segs == Segs(seg, start, current) && x == seg(current)
    ensures r == Segs(seg, start, current + 1)
  {
    SegsNext(seg, start, current);
    r := segs;
    if segs == [] || segs[|segs| - 1] != x {
      r := segs + [x];
    }
  }

  /** Every periodic run of `new` is chained. */
  lemma PeriodicChained(start: C.Date, end: C.Date, s: Scale)
    requires s != All
    ensures Chained(Segs(Segment(s), start, end + 1))
  {
    forall x | start <= x < end + 1
      ensures Advances(Segment(s), x)
    {
      SegmentAdvances(s, x);
    }
    SegsChained(Segment(s), start, end + 1);
  }

  /**
   * For start <= end, each periodic run of `new` is chained, starts with the
   * segment of the start date and ends with the segment of the end date.
   */
  lemma NewShape(start: C.Date, end: C.Date, s: Scale)
    requires s != All && start <= end
    ensures var segs := Segs(Segment(s), start, end + 1);
            && |segs| > 0 && Chained(segs)
            && segs[0] == SegmentOf(s, start) && segs[|segs| - 1] == SegmentOf(s, end)
  {
    RunEnds(Segment(s), start, end);
    PeriodicChained(start, end, s);
  }

  /** A run whose first and last days' segments hold those days spans them all. */
  lemma RunSpan(seg: C.Date -> XSegment, start: C.Date, end: C.Date)
    requires start <= end
    requires seg(start).start <= C.Midnight(start) && C.Midnight(end + 1) <= seg(end).end
    ensures var segs := Segs(seg, start, end + 1);
            |segs| > 0 && segs[0].start <= C.Midnight(start) && C.Midnight(end + 1) <= segs[|segs| - 1].end
  {
    RunEnds(seg, start, end);
  }

  /**
   * For start <= end, each periodic run of `new` spans from midnight of the
   * start date, or before, to midnight after the end date, or after.
   */
  lemma NewSpan(start: C.Date, end: C.Date, s: Scale)
    requires s != All && start <= end
    ensures var segs := Segs(Segment(s), start, end + 1);
            |segs| > 0 && segs[0].start <= C.Midnight(start) && C.Midnight(end + 1) <= segs[|segs| - 1].end
  {
    Holds(s, start);
    Holds(s, end);
    RunSpan(Segment(s), start, end);
  }

  /**
   * At every scale, `new` lists a chain of segments from one that starts by
   * midnight of the first day to one that ends after the last day; at the
   * All scale, the one segment of exactly those days.
   */
  lemma NewReaches(start: C.Date, end: C.Date, s: Scale)
    requires start <= end
    ensures var segs := NewValues(start, end)[s];
            && |segs| > 0 && Chained(segs)
            && segs[0].start <= C.Midnight(start) && C.Midnight(end + 1) <= segs[|segs| - 1].end
            && (s == All ==> segs == [XSegment(All, C.Midnight(start), C.Midnight(end + 1))])
  {
    NewValuesMeaning(start, end);
    if s == All {
      var segs := [XSegment(All, C.Midnight(start), C.Midnight(end + 1))];
      C.MidnightMonotone(start, end + 1);
      assert NewValues(start, end)[s] == segs;
    } else {
      var segs := Segs(Segment(s), start, end + 1);
      NewShape(start, end, s);
      NewSpan(start, end, s);
      assert NewValues(start, end)[s] == segs;
    }
  }

  /** Every member of the run is the segment of a visited day. */
  lemma RunSound(seg: C.Date -> XSegment, start: C.Date, stop: C.Date, x: XSegment)
    requires x in Segs(seg, start, stop)
    ensures exists z :: start <= z < stop && x == seg(z)
  {
    var i :| 0 <= i < |Segs(seg, start, stop)| && Segs(seg, start, stop)[i] == x;
    SegsSound(seg, start, stop, i);
  }

  /** The segment of every day of start .. end is listed, and every listed segment is the segment of such a day. */
  lemma NewCovers(start: C.Date, end: C.Date, s: Scale, d: C.Date, x: XSegment)
    requires s != All
    ensures start <= d <= end ==> SegmentOf(s, d) in Segs(Segment(s), start, end + 1)
    ensures x in Segs(Segment(s), start, end + 1) ==> exists z :: start <= z <= end && x == SegmentOf(s, z)
  {
    if start <= d <= end {
      SegsCover(Segment(s), start, end + 1, d);
    }
    if x in Segs(Segment(s), start, end + 1) {
      RunSound(Segment(s), start, end + 1, x);
      var z :| start <= z < end + 1 && x == Segment(s)(z);
      assert x == SegmentOf(s, z);
    }
  }

  // ---------------------------------------------------------------------------
  // build_index and find_correponding_x_segment_idx
  // ---------------------------------------------------------------------------

  /** The key of a date at a periodic scale: year and ISO week, and year and month, are run together. */
  function DateKey(s: Scale, z: C.Date): string
    requires s != All
  {
    match s
    case Day => DateText(z)
    case Week => IntToString(C.Year(z)) + NatToString(C.IsoWeek(z))
    case Month => IntToString(C.Year(z)) + NatToString(C.Month(z))
    case Year => IntToString(C.Year(z))
  }

  /** DateKey at one scale, as a function of the date. */
  function KeyOf(s: Scale): C.Date -> string
    requires s != All
  {
    z => DateKey(s, z)
  }

  /** The key of the i-th segment: the key of the date it starts on. */
  function KeyAt(segs: seq<XSegment>, key: C.Date -> string, i: nat): string
    requires i < |segs|
  {
    key(C.DateOf(segs[i].start))
  }

  /** Each segment's key mapped to its position; a later segment with the same key wins. */
  function IndexBy(segs: seq<XSegment>, key: C.Date -> string): map<string, nat>
  {
    if segs == [] then map[]
    else IndexBy(segs[..|segs| - 1], key)[KeyAt(segs, key, |segs| - 1) := |segs| - 1]
  }

  /** `build_index`: the index of each periodic scale (day, week, month, year). */
  function BuildIndex(values: map<Scale, seq<XSegment>>): map<Scale, map<string, nat>>
    requires Day in values && Week in values && Month in values && Year in values
  {
    map s | s in values && s != All :: IndexBy(values[s], KeyOf(s))
  }

  /** `find_correponding_x_segment_idx`: the indexed position of the datetime's key, 0 when it is absent. */
  function FindIndex(sxs: ScaleXSegments, s: Scale, t: C.DateTime): nat
    requires s == All || s in sxs.index
  {
    if s == All then 0
    else
      var k := DateKey(s, C.DateOf(t));
      if k in sxs.index[s] then sxs.index[s][k] else 0
  }

  /**
   * The index holds exactly the keys of the segments, and maps each key to
   * the last position that has it.
   */
  lemma {:induction false} IndexByMeaning(segs: seq<XSegment>, key: C.Date -> string, k: string)
    ensures k in IndexBy(segs, key) <==> exists i :: 0 <= i < |segs| && KeyAt(segs, key, i) == k
    ensures k in IndexBy(segs, key) ==>
              var p := IndexBy(segs, key)[k];
              && p < |segs| && KeyAt(segs, key, p) == k
              && forall j :: p < j < |segs| ==> KeyAt(segs, key, j) != k
  {
    if segs != [] {
      var init := segs[..|segs| - 1];
      IndexByMeaning(init, key, k);
      assert forall i :: 0 <= i < |init| ==> KeyAt(init, key, i) == KeyAt(segs, key, i);
      if k in IndexBy(segs, key) && k != KeyAt(segs, key, |segs| - 1) {
        var i :| 0 <= i < |init| && KeyAt(init, key, i) == k;
        assert KeyAt(segs, key, i) == k;
      }
    }
  }

  /** When no two segments share a key, the index maps each segment's key to its own position. */
  lemma IndexByDistinct(segs: seq<XSegment>, key: C.Date -> string, i: nat)
    requires i < |segs|
    requires forall a, b :: 0 <= a < |segs| && 0 <= b < |segs| && KeyAt(segs, key, a) == KeyAt(segs, key, b) ==> a == b
    ensures KeyAt(segs, key, i) in IndexBy(segs, key) && IndexBy(segs, key)[KeyAt(segs, key, i)] == i
  {
    IndexByMeaning(segs, key, KeyAt(segs, key, i));
  }

  /** A key agrees with a segment function at d when d's segment starts on a date with d's key. */
  predicate KeyMatches(seg: C.Date -> XSegment, key: C.Date -> string, d: C.Date)
  {
    key(C.DateOf(seg(d).start)) == key(d)
  }

  /** A key separates days x and y when sharing a key means sharing a segment. */
  predicate KeySeparates(seg: C.Date -> XSegment, key: C.Date -> string, x: C.Date, y: C.Date)
  {
    key(x) == key(y) ==> seg(x) == seg(y)
  }

  /**
   * Looking a visited day's key up in the index of a chained run finds the
   * position of that day's segment, when the key agrees with the segments and
   * separates them.
   */
  /** A chained run in which each day's key is that of its segment and no two segments share a key. */
  predicate Lookupable(seg: C.Date -> XSegment, key: C.Date -> string, start: C.Date, stop: C.Date)
  {
    && Chained(Segs(seg, start, stop))
    && (forall x :: start <= x < stop ==> KeyMatches(seg, key, x))
    && (forall x, y :: start <= x < stop && start <= y < stop ==> KeySeparates(seg, key, x, y))
  }

  lemma LookupHits(seg: C.Date -> XSegment, key: C.Date -> string, start: C.Date, stop: C.Date, d: C.Date)
    requires start <= d < stop && Lookupable(seg, key, start, stop)
    ensures key(d) in IndexBy(Segs(seg, start, stop), key)
    ensures var i := IndexBy(Segs(seg, start, stop), key)[key(d)];
            i < |Segs(seg, start, stop)| && Segs(seg, start, stop)[i] == seg(d)
  {
    var segs := Segs(seg, start, stop);
    SegsCover(seg, start, stop, d);
    var i :| 0 <= i < |segs| && segs[i] == seg(d);
    assert KeyMatches(seg, key, d);
    assert KeyAt(segs, key, i) == key(d);
    forall a, b | 0 <= a < |segs| && 0 <= b < |segs| && KeyAt(segs, key, a) == KeyAt(segs, key, b)
      ensures a == b
    {
      KeyedPositions(seg, key, start, stop, a, b);
    }
    IndexByDistinct(segs, key, i);
  }

  lemma KeyedPositions(seg: C.Date -> XSegment, key: C.Date -> string, start: C.Date, stop: C.Date, a: nat, b: nat)
    requires Chained(Segs(seg, start, stop))
    requires forall x :: start <= x < stop ==> KeyMatches(seg, key, x)
    requires forall x, y :: start <= x < stop && start <= y < stop ==> KeySeparates(seg, key, x, y)
    requires a < |Segs(seg, start, stop)| && b < |Segs(seg, start, stop)|
    requires KeyAt(Segs(seg, start, stop), key, a) == KeyAt(Segs(seg, start, stop), key, b)
    ensures a == b
  {
    var segs := Segs(seg, start, stop);
    SegsSound(seg, start, stop, a);
    SegsSound(seg, start, stop, b);
    var x :| start <= x < stop && segs[a] == seg(x);
    var y :| start <= y < stop && segs[b] == seg(y);
    assert KeyMatches(seg, key, x) && KeyMatches(seg, key, y);
    assert KeySeparates(seg, key, x, y);
    if a < b {
      ChainedIncreasing(segs, a, b);
    } else if b < a {
      ChainedIncreasing(segs, b, a);
    }
  }

  /** A key no segment has is not in the index. */
  lemma LookupMisses(segs: seq<XSegment>, key: C.Date -> string, k: string)
    requires forall i :: 0 <= i < |segs| ==> KeyAt(segs, key, i) != k
    ensures k !in IndexBy(segs, key)
  {
    IndexByMeaning(segs, key, k);
  }

  /** Segments of every periodic scale with the index `build_index` makes of them. */
  predicate Indexed(sxs: ScaleXSegments)
  {
    && Day in sxs.values && Week in sxs.values && Month in sxs.values && Year in sxs.values
    && sxs.index == BuildIndex(sxs.values)
  }

  /** The lookup at a periodic scale reads the key of the datetime's date in that scale's index. */
  lemma FindIndexReads(values: map<Scale, seq<XSegment>>, s: Scale, t: C.DateTime)
    requires s != All && Day in values && Week in values && Month in values && Year in values
    ensures var index := IndexBy(values[s], KeyOf(s));
            var k := KeyOf(s)(C.DateOf(t));
            FindIndex(ScaleXSegments(values, BuildIndex(values)), s, t) == if k in index then index[k] else 0
  {
  }

  /**
   * At the All scale the lookup is position 0, the single segment, which
   * holds every datetime on a day of start .. end.
   */
  lemma FindIndexAll(sxs: ScaleXSegments, start: C.Date, end: C.Date, t: C.DateTime)
    requires All in sxs.values && sxs.values[All] == [XSegment(All, C.Midnight(start), C.Midnight(end + 1))]
    requires start <= C.DateOf(t) <= end
    ensures var i := FindIndex(sxs, All, t);
            i < |sxs.values[All]| && sxs.values[All][i].start <= t < sxs.values[All][i].end
  {
    C.MidnightMonotone(start, C.DateOf(t));
    C.MidnightMonotone(C.DateOf(t) + 1, end + 1);
  }

  // ---------------------------------------------------------------------------
  // Keys within the years 1000 .. 9999
  // ---------------------------------------------------------------------------

  /** Day numbers of January 1st, 1001 and of January 1st, 9999. */
  const Jan1Of1001: C.Date := -353920
  const Jan1Of9999: C.Date := 2932532

  /** A range of days whose calendar and ISO years all have four digits. */
  predicate FourDigitYears(start: C.Date, end: C.Date)
  {
    Jan1Of1001 <= start && end < Jan1Of9999
  }

  /** January 1st of the years 1000 and 10000, three days or more outside that range. */
  lemma FourDigitBounds()
    ensures C.Jan1(1000) == -354285 && C.Jan1(10000) == 2932897
  {
  }

  lemma YearsInRange(start: C.Date, end: C.Date, d: C.Date)
    requires FourDigitYears(start, end) && start <= d <= end
    ensures 1000 <= C.Year(d) <= 9999 && 1000 <= C.IsoYear(d) <= 9999
  {
    FourDigitBounds();
    YearAtLeast(d, 1000);
    YearBelow(d, 10000);
    YearAtLeast(C.Thursday(d), 1000);
    YearBelow(C.Thursday(d), 10000);
  }

  lemma YearAtLeast(d: C.Date, y: int)
    requires C.Jan1(y) <= d
    ensures y <= C.Year(d)
  {
    C.YearBounds(d);
    if C.Year(d) < y {
      C.Jan1Monotone(C.Year(d) + 1, y);
    }
  }

  lemma YearBelow(d: C.Date, y: int)
    requires d < C.Jan1(y)
    ensures C.Year(d) < y
  {
    C.YearBounds(d);
    if y <= C.Year(d) {
      C.Jan1Monotone(y, C.Year(d));
    }
  }

  /** A four-digit year followed by a number splits back into both. */
  lemma FourDigitKeyInjective(y1: int, n1: nat, y2: int, n2: nat)
    requires 1000 <= y1 <= 9999 && 1000 <= y2 <= 9999
    ensures IntToString(y1) + NatToString(n1) == IntToString(y2) + NatToString(n2) <==> y1 == y2 && n1 == n2
  {
    NatToStringFourDigits(y1);
    NatToStringFourDigits(y2);
    if IntToString(y1) + NatToString(n1) == IntToString(y2) + NatToString(n2) {
      SplitAtLength(IntToString(y1), NatToString(n1), IntToString(y2), NatToString(n2));
      IntToStringInjective(y1, y2);
      NatToStringInjective(n1, n2);
    }
  }

  // ---------------------------------------------------------------------------
  // The lookup at the day, month and year scales
  // ---------------------------------------------------------------------------

  /** The day, month and year keys of a segment's first day are those of every day in it. */
  lemma KeyMatch(s: Scale, d: C.Date)
    requires s == Day || s == Month || s == Year
    ensures KeyMatches(Segment(s), KeyOf(s), d)
  {
    match s
    case Day => C.MidnightDate(d);
    case Month =>
      C.MidnightDate(C.MonthStart(d));
      C.MonthStartIn(d);
    case Year =>
      C.MidnightDate(C.Jan1(C.Year(d)));
      C.Jan1Year(C.Year(d));
  }

  /** Days with the same day, month or year key share a segment (months: within four-digit years). */
  lemma KeySeparate(s: Scale, start: C.Date, end: C.Date, x: C.Date, y: C.Date)
    requires s == Day || s == Year || (s == Month && FourDigitYears(start, end))
    requires start <= x <= end && start <= y <= end
    ensures KeySeparates(Segment(s), KeyOf(s), x, y)
  {
    match s
    case Day => DateTextInjective(x, y);
    case Month => MonthKeySeparate(start, end, x, y);
    case Year =>
      if DateKey(Year, x) == DateKey(Year, y) {
        IntToStringInjective(C.Year(x), C.Year(y));
      }
  }

  lemma MonthKeySeparate(start: C.Date, end: C.Date, x: C.Date, y: C.Date)
    requires FourDigitYears(start, end) && start <= x <= end && start <= y <= end
    ensures DateKey(Month, x) == DateKey(Month, y) ==> SegmentOf(Month, x) == SegmentOf(Month, y)
  {
    YearsInRange(start, end, x);
    YearsInRange(start, end, y);
    FourDigitKeyInjective(C.Year(x), C.Month(x), C.Year(y), C.Month(y));
  }

  lemma KeysMatch(start: C.Date, end: C.Date, s: Scale)
    requires s == Day || s == Month || s == Year
    ensures forall x :: start <= x < end + 1 ==> KeyMatches(Segment(s), KeyOf(s), x)
  {
    forall x | start <= x < end + 1
      ensures KeyMatches(Segment(s), KeyOf(s), x)
    {
      KeyMatch(s, x);
    }
  }

  lemma KeysSeparate(start: C.Date, end: C.Date, s: Scale)
    requires s == Day || s == Year || (s == Month && FourDigitYears(start, end))
    ensures forall x, y :: start <= x < end + 1 && start <= y < end + 1 ==> KeySeparates(Segment(s), KeyOf(s), x, y)
  {
    forall x, y | start <= x < end + 1 && start <= y < end + 1
      ensures KeySeparates(Segment(s), KeyOf(s), x, y)
    {
      KeySeparate(s, start, end, x, y);
    }
  }

  /**
   * At the day, month and year scales (months: within four-digit years) the
   * key of a day of start .. end is indexed at the position of that day's segment.
   */
  lemma ScaleLookup(start: C.Date, end: C.Date, s: Scale, d: C.Date)
    requires s == Day || s == Year || (s == Month && FourDigitYears(start, end))
    requires start <= d <= end
    ensures var segs := Segs(Segment(s), start, end + 1);
            var index := IndexBy(segs, KeyOf(s));
            KeyOf(s)(d) in index && index[KeyOf(s)(d)] < |segs| && segs[index[KeyOf(s)(d)]] == Segment(s)(d)
  {
    PeriodicLookupable(start, end, s);
    LookupHits(Segment(s), KeyOf(s), start, end + 1, d);
  }

  /** The day, month and year runs of `new` can be looked up by key (months: within four-digit years). */
  lemma PeriodicLookupable(start: C.Date, end: C.Date, s: Scale)
    requires s == Day || s == Year || (s == Month && FourDigitYears(start, end))
    ensures Lookupable(Segment(s), KeyOf(s), start, end + 1)
  {
    PeriodicChained(start, end, s);
    KeysMatch(start, end, s);
    KeysSeparate(start, end, s);
  }

  /**
   * At the day, month and year scales (months: within four-digit years) the
   * lookup of a datetime on a day of start .. end, in segments built by `new`
   * for those days, finds the segment of that day, which holds the datetime.
   */
  lemma FindIndexHits(sxs: ScaleXSegments, start: C.Date, end: C.Date, s: Scale, t: C.DateTime)
    requires s == Day || s == Year || (s == Month && FourDigitYears(start, end))
    requires Indexed(sxs) && sxs.values[s] == Segs(Segment(s), start, end + 1)
    requires start <= C.DateOf(t) <= end
    ensures var i := FindIndex(sxs, s, t);
            && i < |sxs.values[s]| && sxs.values[s][i] == SegmentOf(s, C.DateOf(t))
            && sxs.values[s][i].start <= t < sxs.values[s][i].end
  {
    ScaleLookup(start, end, s, C.DateOf(t));
    FindIndexReads(sxs.values, s, t);
    Holds(s, C.DateOf(t));
  }

  // ---------------------------------------------------------------------------
  // The week lookup, as written and as intended
  // ---------------------------------------------------------------------------

  /** The as-written key of a week segment: the calendar year of its Monday and the ISO week. */
  lemma SegmentWeekKey(d: C.Date)
    ensures KeyOf(Week)(C.DateOf(SegmentOf(Week, d).start)) == IntToString(C.Year(C.Monday(d))) + NatToString(C.IsoWeek(d))
  {
    C.MidnightDate(C.Monday(d));
    C.MondayIsMonday(d);
    C.IsoWeekConstant(d, C.Monday(d));
  }

  lemma MondayYears(d: C.Date)
    requires Jan1Of1001 <= d < Jan1Of9999
    ensures 1000 <= C.Year(C.Monday(d)) <= 9999 && 1000 <= C.Year(d) <= 9999
  {
    YearsInRange(d, d, d);
    FourDigitBounds();
    YearAtLeast(C.Monday(d), 1000);
    YearBelow(C.Monday(d), 10000);
  }

  /**
   * The key the lookup computes for a day differs from the key of that day's
   * own week segment whenever the week's Monday lies in the previous
   * calendar year: the segment is keyed by its Monday's year, the day by its
   * own.
   */
  lemma WeekKeyMismatch(d: C.Date)
    requires Jan1Of1001 <= d < Jan1Of9999 && C.Year(C.Monday(d)) != C.Year(d)
    ensures DateKey(Week, d) != KeyOf(Week)(C.DateOf(SegmentOf(Week, d).start))
  {
    SegmentWeekKey(d);
    MondayYears(d);
    FourDigitKeyInjective(C.Year(d), C.IsoWeek(d), C.Year(C.Monday(d)), C.IsoWeek(d));
  }

  /** The intended week key: the ISO year and ISO week of the date, which every day of a week shares. */
  function IsoWeekKey(z: C.Date): string
  {
    IntToString(C.IsoYear(z)) + NatToString(C.IsoWeek(z))
  }

  /** IsoWeekKey as a function of the date. */
  function IsoKey(): C.Date -> string
  {
    z => IsoWeekKey(z)
  }

  /** The index built with the intended week key. */
  function FixedBuildIndex(values: map<Scale, seq<XSegment>>): map<Scale, map<string, nat>>
    requires Day in values && Week in values && Month in values && Year in values
  {
    BuildIndex(values)[Week := IndexBy(values[Week], IsoKey())]
  }

  /** Segments of every periodic scale with the index built with the intended week key. */
  predicate FixedIndexed(sxs: ScaleXSegments)
  {
    && Day in sxs.values && Week in sxs.values && Month in sxs.values && Year in sxs.values
    && sxs.index == FixedBuildIndex(sxs.values)
  }

  /** The lookup with the intended week key; the other scales are unchanged. */
  function FixedFindIndex(sxs: ScaleXSegments, s: Scale, t: C.DateTime): nat
    requires s == All || s in sxs.index
  {
    if s == Week then
      var k := IsoWeekKey(C.DateOf(t));
      if k in sxs.index[Week] then sxs.index[Week][k] else 0
    else FindIndex(sxs, s, t)
  }

  lemma IsoKeyMatch(d: C.Date)
    ensures KeyMatches(Segment(Week), IsoKey(), d)
  {
    C.MidnightDate(C.Monday(d));
    C.MondayIsMonday(d);
    C.IsoWeekConstant(d, C.Monday(d));
  }

  lemma IsoKeySeparate(start: C.Date, end: C.Date, x: C.Date, y: C.Date)
    requires FourDigitYears(start, end) && start <= x <= end && start <= y <= end
    ensures KeySeparates(Segment(Week), IsoKey(), x, y)
  {
    if IsoWeekKey(x) == IsoWeekKey(y) {
      YearsInRange(start, end, x);
      YearsInRange(start, end, y);
      FourDigitKeyInjective(C.IsoYear(x), C.IsoWeek(x), C.IsoYear(y), C.IsoWeek(y));
      C.IsoWeekMonday(x);
      C.IsoWeekMonday(y);
    }
  }

  lemma IsoKeysMatch(start: C.Date, end: C.Date)
    ensures forall x :: start <= x < end + 1 ==> KeyMatches(Segment(Week), IsoKey(), x)
  {
    forall x | start <= x < end + 1
      ensures KeyMatches(Segment(Week), IsoKey(), x)
    {
      IsoKeyMatch(x);
    }
  }

  lemma IsoKeysSeparate(start: C.Date, end: C.Date)
    requires FourDigitYears(start, end)
    ensures forall x, y :: start <= x < end + 1 && start <= y < end + 1 ==> KeySeparates(Segment(Week), IsoKey(), x, y)
  {
    forall x, y | start <= x < end + 1 && start <= y < end + 1
      ensures KeySeparates(Segment(Week), IsoKey(), x, y)
    {
      IsoKeySeparate(start, end, x, y);
    }
  }

  /** With the intended key, a week's key is indexed at the position of its segment (four-digit years). */
  lemma IsoWeekLookup(start: C.Date, end: C.Date, d: C.Date)
    requires FourDigitYears(start, end) && start <= d <= end
    ensures var segs := Segs(Segment(Week), start, end + 1);
            var index := IndexBy(segs, IsoKey());
            IsoWeekKey(d) in index && index[IsoWeekKey(d)] < |segs| && segs[index[IsoWeekKey(d)]] == Segment(Week)(d)
  {
    PeriodicChained(start, end, Week);
    IsoKeysMatch(start, end);
    IsoKeysSeparate(start, end);
    LookupHits(Segment(Week), IsoKey(), start, end + 1, d);
  }

  /** With the intended key, the week lookup finds the week segment holding the datetime (four-digit years). */
  lemma FixedWeekHits(sxs: ScaleXSegments, start: C.Date, end: C.Date, t: C.DateTime)
    requires FixedIndexed(sxs) && sxs.values[Week] == Segs(Segment(Week), start, end + 1)
    requires FourDigitYears(start, end) && start <= C.DateOf(t) <= end
    ensures var i := FixedFindIndex(sxs, Week, t);
            && i < |sxs.values[Week]| && sxs.values[Week][i] == SegmentOf(Week, C.DateOf(t))
            && sxs.values[Week][i].start <= t < sxs.values[Week][i].end
  {
    IsoWeekLookup(start, end, C.DateOf(t));
    Holds(Week, C.DateOf(t));
  }

  /** Away from the week scale the corrected lookup is the lookup as written. */
  lemma FixedAgrees(values: map<Scale, seq<XSegment>>, s: Scale, t: C.DateTime)
    requires s != Week && Day in values && Week in values && Month in values && Year in values
    ensures FixedFindIndex(ScaleXSegments(values, FixedBuildIndex(values)), s, t)
         == FindIndex(ScaleXSegments(values, BuildIndex(values)), s, t)
  {
    var fixed := ScaleXSegments(values, FixedBuildIndex(values));
    var written := ScaleXSegments(values, BuildIndex(values));
    if s != All {
      var idx := BuildIndex(values);
      assert s in idx && idx[s] == IndexBy(values[s], KeyOf(s));
      assert fixed.index[s] == idx[s];
      assert FixedFindIndex(fixed, s, t) == FindIndex(fixed, s, t);
    }
  }

  /**
   * The corrected lookup finds, at every periodic scale and within
   * four-digit years, the segment of the datetime's day, which holds it.
   */
  lemma FixedFindIndexHits(sxs: ScaleXSegments, start: C.Date, end: C.Date, s: Scale, t: C.DateTime)
    requires s != All && FixedIndexed(sxs) && sxs.values[s] == Segs(Segment(s), start, end + 1)
    requires FourDigitYears(start, end) && start <= C.DateOf(t) <= end
    ensures var i := FixedFindIndex(sxs, s, t);
            && i < |sxs.values[s]| && sxs.values[s][i] == SegmentOf(s, C.DateOf(t))
            && sxs.values[s][i].start <= t < sxs.values[s][i].end
  {
    if s == Week {
      FixedWeekHits(sxs, start, end, t);
    } else {
      var written := ScaleXSegments(sxs.values, BuildIndex(sxs.values));
      FindIndexHits(written, start, end, s, t);
      FixedAgrees(sxs.values, s, t);
    }
  }

  /**
   * The week lookup as written, over the two weeks 2024-12-23 .. 2025-01-05
   * (y is 2024): a datetime on 2025-01-01 lies in the last week segment, but
   * its key (calendar year 2025, week 1) matches no segment, so the lookup
   * falls back to position 0, the week of 2024-12-23, which does not hold it;
   * the corrected lookup finds the last segment.
   */
  lemma WeekLookupAcrossNewYear(y: int, start: C.Date, t: C.DateTime, values: map<Scale, seq<XSegment>>)
    requires y == 2024 && start == C.DaysFromCivil(y, 12, 23) && C.DateOf(t) == start + 9
    requires Day in values && Week in values && Month in values && Year in values
    requires values[Week] == Segs(Segment(Week), start, start + 14)
    ensures var segs := values[Week];
            && |segs| > 1
            && FindIndex(ScaleXSegments(values, BuildIndex(values)), Week, t) == 0
            && !(segs[0].start <= t < segs[0].end)
            && segs[|segs| - 1].start <= t < segs[|segs| - 1].end
            && FixedFindIndex(ScaleXSegments(values, FixedBuildIndex(values)), Week, t) == |segs| - 1
  {
    Monday2024(y, start);
    WeekLookupYearEnd(y, start, t, values);
  }

  /** 2024-12-23 is a Monday nine days before January 1st, 2025, within four-digit years. */
  lemma Monday2024(y: int, start: C.Date)
    requires y == 2024 && start == C.DaysFromCivil(y, 12, 23)
    ensures YearEnd(y, start)
  {
    assert C.YearStartMarch(y) == 19783;
    assert C.YearStartMarch(y - 1) == 19417;
    assert start == 20080;
    C.Jan1Monotone(1001, y);
    C.Jan1Monotone(y + 1, 9999);
  }

  /**
   * Two weeks from a Monday start of year y whose second week holds January
   * 1st of year y + 1, on the 9th day after start (a Wednesday).
   */
  predicate YearEnd(y: int, start: C.Date)
  {
    && 1000 <= y < 9999
    && C.Weekday(start) == 0 && C.Jan1(y) <= start && C.Jan1(y + 1) == start + 9
    && FourDigitYears(start, start + 13)
  }

  /** WeekLookupAcrossNewYear, for any such two weeks. */
  lemma WeekLookupYearEnd(y: int, start: C.Date, t: C.DateTime, values: map<Scale, seq<XSegment>>)
    requires YearEnd(y, start) && C.DateOf(t) == start + 9
    requires Day in values && Week in values && Month in values && Year in values
    requires values[Week] == Segs(Segment(Week), start, start + 14)
    ensures var segs := values[Week];
            && |segs| > 1
            && FindIndex(ScaleXSegments(values, BuildIndex(values)), Week, t) == 0
            && !(segs[0].start <= t < segs[0].end)
            && segs[|segs| - 1].start <= t < segs[|segs| - 1].end
            && FixedFindIndex(ScaleXSegments(values, FixedBuildIndex(values)), Week, t) == |segs| - 1
  {
    WeekLookupMisses(y, start, t, values);
    YearEndWeeks(y, start, t);
    FixedFindsLast(y, start, t, values);
  }

  /** The corrected week lookup of a datetime on January 1st finds the last week of such two weeks. */
  lemma FixedFindsLast(y: int, start: C.Date, t: C.DateTime, values: map<Scale, seq<XSegment>>)
    requires YearEnd(y, start) && C.DateOf(t) == start + 9
    requires Day in values && Week in values && Month in values && Year in values
    requires values[Week] == Segs(Segment(Week), start, start + 14)
    ensures FixedFindIndex(ScaleXSegments(values, FixedBuildIndex(values)), Week, t) == |values[Week]| - 1
  {
    YearEndWeeks(y, start, t);
    var sxs := ScaleXSegments(values, FixedBuildIndex(values));
    FixedWeekHits(sxs, start, start + 13, t);
    LastPosition(values[Week], FixedFindIndex(sxs, Week, t));
  }

  /** In a chained run only the last position holds the last segment. */
  lemma LastPosition(segs: seq<XSegment>, i: nat)
    requires Chained(segs) && i < |segs| && segs[i] == segs[|segs| - 1]
    ensures i == |segs| - 1
  {
    if i < |segs| - 1 {
      ChainedIncreasing(segs, i, |segs| - 1);
    }
  }

  /**
   * The week run of such two weeks is chained, has more than one segment,
   * its first does not hold a datetime on January 1st, and its last is the
   * one of that day, which holds it.
   */
  lemma YearEndWeeks(y: int, start: C.Date, t: C.DateTime)
    requires YearEnd(y, start) && C.DateOf(t) == start + 9
    ensures var segs := Segs(Segment(Week), start, start + 14);
            && |segs| > 1 && Chained(segs)
            && !(segs[0].start <= t < segs[0].end)
            && segs[|segs| - 1] == SegmentOf(Week, C.DateOf(t))
            && segs[|segs| - 1].start <= t < segs[|segs| - 1].end
  {
    NewShape(start, start + 13, Week);
    SecondWeek(start, C.DateOf(t));
    SecondWeek(start, start + 13);
    FirstWeek(start);
    C.MidnightMonotone(start + 7, start + 9);
    Holds(Week, C.DateOf(t));
  }

  /** The week of a Monday runs to the next Monday. */
  lemma FirstWeek(start: C.Date)
    requires C.Weekday(start) == 0
    ensures SegmentOf(Week, start) == XSegment(Week, C.Midnight(start), C.Midnight(start + 7))
  {
  }

  /** The days from the Monday start + 7 to the Sunday start + 13 share the week of start + 7. */
  lemma SecondWeek(start: C.Date, d: C.Date)
    requires C.Weekday(start) == 0 && start + 7 <= d <= start + 13
    ensures SegmentOf(Week, d) == XSegment(Week, C.Midnight(start + 7), C.Midnight(start + 14))
  {
    C.WeekdayShift(start, 1);
    C.MondayOfWindow(d, start + 7);
  }

  /** The as-written week lookup of a datetime on January 1st finds no key among such two weeks. */
  lemma WeekLookupMisses(y: int, start: C.Date, t: C.DateTime, values: map<Scale, seq<XSegment>>)
    requires YearEnd(y, start) && C.DateOf(t) == start + 9
    requires Day in values && Week in values && Month in values && Year in values
    requires values[Week] == Segs(Segment(Week), start, start + 14)
    ensures FindIndex(ScaleXSegments(values, BuildIndex(values)), Week, t) == 0
  {
    var segs := Segs(Segment(Week), start, start + 14);
    var k := KeyOf(Week)(C.DateOf(t));
    forall i | 0 <= i < |segs|
      ensures KeyAt(segs, KeyOf(Week), i) != k
    {
      WeekKeyOtherYear(y, start, t, i);
    }
    LookupMisses(segs, KeyOf(Week), k);
    FindIndexReads(values, Week, t);
  }

  /** The week key of a segment of such two weeks is not the key of January 1st. */
  lemma WeekKeyOtherYear(y: int, start: C.Date, t: C.DateTime, i: nat)
    requires YearEnd(y, start) && C.DateOf(t) == start + 9
    requires i < |Segs(Segment(Week), start, start + 14)|
    ensures KeyAt(Segs(Segment(Week), start, start + 14), KeyOf(Week), i) != KeyOf(Week)(C.DateOf(t))
  {
    WeekKeyIn(y, start, i);
    C.Jan1Year(y + 1);
    WeekKeysDiffer(C.DateOf(Segs(Segment(Week), start, start + 14)[i].start), C.DateOf(t));
  }

  /** Week keys of dates in different four-digit calendar years differ. */
  lemma WeekKeysDiffer(z1: C.Date, z2: C.Date)
    requires 1000 <= C.Year(z1) <= 9999 && 1000 <= C.Year(z2) <= 9999 && C.Year(z1) != C.Year(z2)
    ensures KeyOf(Week)(z1) != KeyOf(Week)(z2)
  {
    FourDigitKeyInjective(C.Year(z1), C.IsoWeek(z1), C.Year(z2), C.IsoWeek(z2));
  }

  /** Every week segment of such two weeks starts on a Monday of calendar year y. */
  lemma WeekKeyIn(y: int, start: C.Date, i: nat)
    requires YearEnd(y, start)
    requires i < |Segs(Segment(Week), start, start + 14)|
    ensures C.Year(C.DateOf(Segs(Segment(Week), start, start + 14)[i].start)) == y
  {
    var end := start + 13;
    SegsSound(Segment(Week), start, end + 1, i);
    var d :| start <= d < end + 1 && Segs(Segment(Week), start, end + 1)[i] == Segment(Week)(d);
    C.MidnightDate(C.Monday(d));
    MondayInYear(y, start, d);
  }

  /** The Monday of each day of such two weeks is in calendar year y. */
  lemma MondayInYear(y: int, start: C.Date, d: C.Date)
    requires YearEnd(y, start) && start <= d <= start + 13
    ensures C.Year(C.Monday(d)) == y
  {
    if d < start + 7 {
      C.MondayOfWindow(d, start);
    } else {
      C.WeekdayShift(start, 1);
      C.MondayOfWindow(d, start + 7);
    }
    C.YearCharacterization(C.Monday(d), y);
  }

  // ---------------------------------------------------------------------------
  // filter_by_date
  // ---------------------------------------------------------------------------

  /** A segment kept by `filter_by_date`: starting on or after sd, ending on a date strictly before ed. */
  predicate Within(x: XSegment, sd: C.Date, ed: C.Date)
  {
    C.DateOf(x.start) >= sd && C.DateOf(x.end) < ed
  }

  /** The kept segments, in their order. */
  function KeepWithin(segs: seq<XSegment>, sd: C.Date, ed: C.Date): (r: seq<XSegment>)
    ensures |r| <= |segs|
    ensures forall x :: x in r <==> x in segs && Within(x, sd, ed)
  {
    if segs == [] then []
    else
      var init := KeepWithin(segs[..|segs| - 1], sd, ed);
      var last := segs[|segs| - 1];
      assert segs == segs[..|segs| - 1] + [last];
      if Within(last, sd, ed) then init + [last] else init
  }

  /** The loop over one scale's segments. */
  method KeepSegments(segs: seq<XSegment>, sd: C.Date, ed: C.Date) returns (r: seq<XSegment>)
    ensures r == KeepWithin(segs, sd, ed)
  {
    r := [];
    for i := 0 to |segs|
      invariant r == KeepWithin(segs[..i], sd, ed)
    {
      assert segs[..i + 1][..i] == segs[..i];
      if Within(segs[i], sd, ed) {
        r := r + [segs[i]];
      }
    }
    assert segs[..|segs|] == segs;
  }

  /** The segments of every scale present, restricted. */
  function KeepAll(values: map<Scale, seq<XSegment>>, sd: C.Date, ed: C.Date): map<Scale, seq<XSegment>>
  {
    map s | s in values :: KeepWithin(values[s], sd, ed)
  }

  /** `filter_by_date`: every scale's segments restricted, and the index rebuilt. */
  method FilterByDate(sxs: ScaleXSegments, sd: C.Date, ed: C.Date) returns (r: ScaleXSegments)
    requires Day in sxs.values && Week in sxs.values && Month in sxs.values && Year in sxs.values
    ensures r.values == KeepAll(sxs.values, sd, ed)
    ensures r.index == BuildIndex(r.values)
  {
    var values := KeepScales(sxs.values, sd, ed);
    r := ScaleXSegments(values, BuildIndex(values));
  }

  /** The loop of `filter_by_date` over the scales, in their order. */
  method KeepScales(values: map<Scale, seq<XSegment>>, sd: C.Date, ed: C.Date) returns (kept: map<Scale, seq<XSegment>>)
    ensures kept == KeepAll(values, sd, ed)
  {
    kept := map[];
    var scales := Iterator();
    for i := 0 to |scales|
      invariant forall s :: s in kept <==> s in values && Rank(s) < i
      invariant forall s :: s in kept ==> kept[s] == KeepWithin(values[s], sd, ed)
    {
      var s := scales[i];
      if s in values {
        var segs := KeepSegments(values[s], sd, ed);
        kept := kept[s := segs];
      }
    }
    assert forall s :: Rank(s) < 5;
  }

  /** Keeping the segments of a concatenation keeps those of each part, in order. */
  lemma {:induction false} KeepWithinAppend(p: seq<XSegment>, q: seq<XSegment>, sd: C.Date, ed: C.Date)
    ensures KeepWithin(p + q, sd, ed) == KeepWithin(p, sd, ed) + KeepWithin(q, sd, ed)
    decreases |q|
  {
    if q == [] {
      assert p + q == p;
    } else {
      var q' := q[..|q| - 1];
      assert (p + q)[..|p + q| - 1] == p + q';
      KeepWithinAppend(p, q', sd, ed);
    }
  }

  /** Restricting twice to the same dates is restricting once. */
  lemma {:induction false} KeepWithinIdempotent(segs: seq<XSegment>, sd: C.Date, ed: C.Date)
    ensures KeepWithin(KeepWithin(segs, sd, ed), sd, ed) == KeepWithin(segs, sd, ed)
    decreases |segs|
  {
    if segs != [] {
      var init := segs[..|segs| - 1];
      var last := segs[|segs| - 1];
      KeepWithinIdempotent(init, sd, ed);
      if Within(last, sd, ed) {
        KeepWithinAppend(KeepWithin(init, sd, ed), [last], sd, ed);
      }
    }
  }

  /**
   * On the day segments of start .. end, the days kept are those from sd on
   * whose next day is still before ed: the day before ed is dropped too.
   */
  lemma FilterDays(start: C.Date, end: C.Date, sd: C.Date, ed: C.Date, d: C.Date)
    ensures SegmentOf(Day, d) in KeepWithin(Segs(Segment(Day), start, end + 1), sd, ed)
        <==> start <= d <= end && sd <= d && d + 1 < ed
  {
    C.MidnightDate(d);
    C.MidnightDate(d + 1);
    NewCovers(start, end, Day, d, SegmentOf(Day, d));
    if SegmentOf(Day, d) in Segs(Segment(Day), start, end + 1) {
      var z :| start <= z <= end && SegmentOf(Day, d) == SegmentOf(Day, z);
      C.MidnightMonotone(z, d);
    }
  }

  // ---------------------------------------------------------------------------
  // `new` across the turn of a year
  // ---------------------------------------------------------------------------

  /** 2022-12-31, a Saturday and the last day of 2022. */
  const Dec31: C.Date := 19357

  /** A run over three days pushes the three segments in turn. */
  lemma ThreeDays(seg: C.Date -> XSegment, start: C.Date)
    ensures Segs(seg, start, start + 3) == Push(Push([seg(start)], seg(start + 1)), seg(start + 2))
  {
    EmptyRun(seg, start, start);
    SegsNext(seg, start, start);
    SegsNext(seg, start, start + 1);
    SegsNext(seg, start, start + 2);
  }

  /** 2022-12-31 is in December 2022; the two days after it are in January 2023. */
  lemma AcrossYearEndMonths(d: C.Date)
    requires Dec31 <= d <= Dec31 + 2
    ensures d == Dec31 ==> C.Year(d) == 2022 && C.Month(d) == 12
    ensures d != Dec31 ==> C.Year(d) == 2023 && C.Month(d) == 1
  {
    C.MonthCharacterization(d, 2022, 12);
    C.MonthCharacterization(d, 2023, 1);
    assert C.DaysFromCivil(2022, 12, 1) == 19327;
    assert C.DaysFromCivil(2023, 1, 1) == 19358;
    assert C.DaysFromCivil(2023, 2, 1) == 19389;
  }

  /** The dates the example names, as day numbers. */
  lemma AcrossYearEndDates()
    ensures C.DaysFromCivil(2022, 12, 26) == Dec31 - 5 && C.DaysFromCivil(2022, 12, 31) == Dec31
    ensures C.DaysFromCivil(2023, 1, 2) == Dec31 + 2 && C.DaysFromCivil(2023, 1, 9) == Dec31 + 9
    ensures C.Jan1(2022) == 18993 && C.Jan1(2023) == Dec31 + 1 && C.Jan1(2024) == 19723
    ensures C.DaysFromCivil(2022, 12, 1) == 19327 && C.DaysFromCivil(2023, 2, 1) == 19389
  {
  }

  /** The week run: the Saturday and Sunday share the week of Monday 2022-12-26. */
  lemma AcrossYearEndWeeks(start: C.Date)
    requires start == Dec31
    ensures Segs(Segment(Week), start, start + 3) ==
              [XSegment(Week, C.Midnight(start - 5), C.Midnight(start + 2)),
               XSegment(Week, C.Midnight(start + 2), C.Midnight(start + 9))]
  {
    ThreeDays(Segment(Week), start);
    assert C.Monday(start) == start - 5 && C.Monday(start + 1) == start - 5 && C.Monday(start + 2) == start + 2;
  }

  /** The month run: December 2022, then January 2023. */
  lemma AcrossYearEndMonthRun(start: C.Date)
    requires start == Dec31
    ensures Segs(Segment(Month), start, start + 3) ==
              [XSegment(Month, C.Midnight(19327), C.Midnight(start + 1)),
               XSegment(Month, C.Midnight(start + 1), C.Midnight(19389))]
  {
    AcrossYearEndDates();
    AcrossYearEndMonths(start);
    AcrossYearEndMonths(start + 1);
    AcrossYearEndMonths(start + 2);
    ThreeDays(Segment(Month), start);
    MonthSegment(start, 2022, 12);
    MonthSegment(start + 1, 2023, 1);
    MonthSegment(start + 2, 2023, 1);
  }

  /** The year run: 2022, then 2023. */
  lemma AcrossYearEndYearRun(start: C.Date)
    requires start == Dec31
    ensures Segs(Segment(Year), start, start + 3) ==
              [XSegment(Year, C.Midnight(18993), C.Midnight(start + 1)),
               XSegment(Year, C.Midnight(start + 1), C.Midnight(19723))]
  {
    AcrossYearEndDates();
    AcrossYearEndMonths(start);
    AcrossYearEndMonths(start + 1);
    AcrossYearEndMonths(start + 2);
    ThreeDays(Segment(Year), start);
    YearSegment(start, 2022);
    YearSegment(start + 1, 2023);
    YearSegment(start + 2, 2023);
  }

  /** The day run: one segment per day. */
  lemma AcrossYearEndDays(start: C.Date)
    ensures Segs(Segment(Day), start, start + 3) ==
              [XSegment(Day, C.Midnight(start), C.Midnight(start + 1)),
               XSegment(Day, C.Midnight(start + 1), C.Midnight(start + 2)),
               XSegment(Day, C.Midnight(start + 2), C.Midnight(start + 3))]
  {
    ThreeDays(Segment(Day), start);
    C.MidnightMonotone(start, start + 1);
    C.MidnightMonotone(start + 1, start + 2);
  }

  /**
   * For 2022-12-31 .. 2023-01-02, `new` lists three days; the week of Monday
   * 2022-12-26 and the week of Monday 2023-01-02; December 2022 and January
   * 2023; the years 2022 and 2023; and one All segment over the three days.
   */
  lemma {:induction false} NewAcrossYearEnd(start: C.Date, end: C.Date)
    requires start == Dec31 && end == Dec31 + 2
    ensures start == C.DaysFromCivil(2022, 12, 31) && end == C.DaysFromCivil(2023, 1, 2)
    ensures forall s :: s in NewValues(start, end)
    ensures NewValues(start, end)[Day] ==
              [XSegment(Day, C.Midnight(start), C.Midnight(start + 1)),
               XSegment(Day, C.Midnight(start + 1), C.Midnight(start + 2)),
               XSegment(Day, C.Midnight(start + 2), C.Midnight(start + 3))]
    ensures NewValues(start, end)[Week] ==
              [XSegment(Week, C.Midnight(C.DaysFromCivil(2022, 12, 26)), C.Midnight(C.DaysFromCivil(2023, 1, 2))),
               XSegment(Week, C.Midnight(C.DaysFromCivil(2023, 1, 2)), C.Midnight(C.DaysFromCivil(2023, 1, 9)))]
    ensures NewValues(start, end)[Month] ==
              [XSegment(Month, C.Midnight(C.DaysFromCivil(2022, 12, 1)), C.Midnight(C.DaysFromCivil(2023, 1, 1))),
               XSegment(Month, C.Midnight(C.DaysFromCivil(2023, 1, 1)), C.Midnight(C.DaysFromCivil(2023, 2, 1)))]
    ensures NewValues(start, end)[Year] ==
              [XSegment(Year, C.Midnight(C.Jan1(2022)), C.Midnight(C.Jan1(2023))),
               XSegment(Year, C.Midnight(C.Jan1(2023)), C.Midnight(C.Jan1(2024)))]
    ensures NewValues(start, end)[All] == [XSegment(All, C.Midnight(start), C.Midnight(end + 1))]
  {
    AcrossYearEndDates();
    NewValuesMeaning(start, end);
    AcrossYearEndDays(start);
    AcrossYearEndWeeks(start);
    AcrossYearEndMonthRun(start);
    AcrossYearEndYearRun(start);
  }
}
