/**
 * The x-axis labels of the interface (`displayedXLabels`): each segment's
 * serialized start date-time cut at its first `T`, so the label is the date
 * part of the ISO 8601 text.
 */
module Labels {
  import C = Calendar
  import opened Text
  import opened Scales
  import X = XSegments

  /** A segment as the interface receives it: serialized, date-times as text. */
  datatype SegmentText = SegmentText(scale: Scale, startDatetime: string, endDatetime: string)

  /**
   * `s.split('T')[0]`: the longest prefix of s without a `T`; it stops
   * just before the first `T`, or runs to the end when there is none.
   */
  function BeforeT(s: string): (r: string)
    ensures |r| <= |s| && r == s[..|r|]
    ensures 'T' !in r
    ensures |r| < |s| ==> s[|r|] == 'T'
  {
    FindCharFirst(s, 'T');
    s[..FindChar(s, 'T')]
  }

  /** Those three properties pin the label down: no other string has them. */
  lemma BeforeTUnique(s: string, r: string)
    requires |r| <= |s| && r == s[..|r|] && 'T' !in r
    requires |r| < |s| ==> s[|r|] == 'T'
    ensures r == BeforeT(s)
  {
  }

  /** Text with no `T` before a `T` is its own label. */
  lemma BeforeTJoin(p: string, q: string)
    requires 'T' !in p
    ensures BeforeT(p + "T" + q) == p
  {
    var s := p + "T" + q;
    assert s[..|p|] == p && s[|p|] == 'T';
    BeforeTUnique(s, p);
  }

  /** A serialized midnight gives its date; text without a `T` is kept whole. */
  lemma LabelExamples()
    ensures BeforeT("2022-07-22T00:00:00") == "2022-07-22"
    ensures BeforeT("2022-07") == "2022-07"
  {
    BeforeTJoin("2022-07-22", "00:00:00");
    assert "2022-07-22" + "T" + "00:00:00" == "2022-07-22T00:00:00";
    BeforeTUnique("2022-07", "2022-07");
  }

  /** `displayedXLabels`: one label per segment, in order, each the date part of its start. */
  function DisplayedXLabels(xs: seq<SegmentText>): (r: seq<string>)
    ensures |r| == |xs|
    ensures forall i :: 0 <= i < |xs| ==>
              && |r[i]| <= |xs[i].startDatetime| && r[i] == xs[i].startDatetime[..|r[i]|] && 'T' !in r[i]
              && (|r[i]| < |xs[i].startDatetime| ==> xs[i].startDatetime[|r[i]|] == 'T')
  {
    seq(|xs|, i requires 0 <= i < |xs| => BeforeT(xs[i].startDatetime))
  }

  /** Labels of a longer list extend the labels of a shorter one. */
  lemma {:induction false} LabelsPrefix(xs: seq<SegmentText>, ys: seq<SegmentText>)
    ensures DisplayedXLabels(xs + ys) == DisplayedXLabels(xs) + DisplayedXLabels(ys)
  {
    var l, a, b := DisplayedXLabels(xs + ys), DisplayedXLabels(xs), DisplayedXLabels(ys);
    forall i | 0 <= i < |l|
      ensures l[i] == (a + b)[i]
    {
      if i < |xs| {
        BeforeTUnique((xs + ys)[i].startDatetime, a[i]);
        BeforeTUnique((xs + ys)[i].startDatetime, l[i]);
      } else {
        BeforeTUnique((xs + ys)[i].startDatetime, b[i - |xs|]);
        BeforeTUnique((xs + ys)[i].startDatetime, l[i]);
      }
    }
  }

  // ---------------------------------------------------------------------------
  // The serialized date-time
  // ---------------------------------------------------------------------------

  /** `HH:MM:SS` of a minute of the day; seconds are always zero here. */
  function TimeText(m: int): string
    requires 0 <= m < C.MinutesPerDay
  {
    Pad2(m / 60) + ":" + Pad2(m % 60) + ":00"
  }

  /** A date-time as the Rust side serializes it: the date's text, `T`, then `HH:MM:SS`. */
  function DateTimeText(t: C.DateTime): string
  {
    DateText(C.DateOf(t)) + "T" + TimeText(t % C.MinutesPerDay)
  }

  /** A segment as it is sent to the interface. */
  function Serialized(x: X.XSegment): SegmentText
  {
    SegmentText(x.scale, DateTimeText(x.start), DateTimeText(x.end))
  }

  /** Digits, signs and dashes only. */
  predicate DateChars(s: string)
  {
    forall i :: 0 <= i < |s| ==> IsDigit(s[i]) || s[i] == '-' || s[i] == '+'
  }

  lemma PaddedChars(n: nat, w: nat)
    ensures DateChars(ZeroPad(NatToString(n), w))
  {
    PaddedValue(n, w);
  }

  lemma JoinChars(a: string, b: string)
    requires DateChars(a) && DateChars(b)
    ensures DateChars(a + b)
  {
  }

  lemma YearChars(y: int)
    ensures DateChars(YearText(y))
  {
    if 0 <= y <= 9999 {
      PaddedChars(y, 4);
    } else if y < 0 {
      PaddedChars(-y, 4);
      JoinChars("-", ZeroPad(NatToString(-y), 4));
    } else {
      PaddedChars(y, 0);
      assert ZeroPad(NatToString(y), 0) == NatToString(y);
      JoinChars("+", NatToString(y));
    }
  }

  /** The date text holds no `T`. */
  lemma DateTextNoT(d: C.Date)
    ensures 'T' !in DateText(d)
  {
    var y, m, p := YearText(C.Year(d)), Pad2(C.Month(d)), Pad2(C.Day(d));
    YearChars(C.Year(d));
    PaddedChars(C.Month(d), 2);
    PaddedChars(C.Day(d), 2);
    JoinChars(y, "-");
    JoinChars(y + "-", m);
    JoinChars(y + "-" + m, "-");
    JoinChars(y + "-" + m + "-", p);
    assert DateText(d) == y + "-" + m + "-" + p;
    NoT(DateText(d));
  }

  lemma NoT(s: string)
    requires DateChars(s)
    ensures 'T' !in s
  {
  }

  /** The label of a serialized date-time is the text of its date. */
  lemma StartLabel(t: C.DateTime)
    ensures BeforeT(DateTimeText(t)) == DateText(C.DateOf(t))
  {
    var d := C.DateOf(t);
    var time := TimeText(t % C.MinutesPerDay);
    DateTextNoT(d);
    BeforeTJoin(DateText(d), time);
  }

  /** The labels of serialized segments are the dates their segments start on. */
  lemma {:induction false} SegmentLabels(xs: seq<X.XSegment>)
    ensures var labels := DisplayedXLabels(seq(|xs|, i requires 0 <= i < |xs| => Serialized(xs[i])));
            |labels| == |xs| && forall i :: 0 <= i < |xs| ==> labels[i] == DateText(C.DateOf(xs[i].start))
  {
    var texts := seq(|xs|, i requires 0 <= i < |xs| => Serialized(xs[i]));
    var labels := DisplayedXLabels(texts);
    forall i | 0 <= i < |xs|
      ensures labels[i] == DateText(C.DateOf(xs[i].start))
    {
      StartLabel(xs[i].start);
      BeforeTUnique(texts[i].startDatetime, labels[i]);
    }
  }

  /** For a day segment in years 1000 to 9999, the label is the segment's own display text. */
  lemma DayLabel(x: X.XSegment)
    requires x.scale == Day && 1000 <= C.Year(C.DateOf(x.start)) <= 9999
    ensures BeforeT(Serialized(x).startDatetime) == X.Display(x)
  {
    StartLabel(x.start);
    NatToStringFourDigits(C.Year(C.DateOf(x.start)));
  }
}
