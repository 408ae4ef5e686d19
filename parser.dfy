/**
 * The log-line parser: `HHhMM-HHhMM: [tag]... description` read against a day
 * string such as `2022.02.05`. The combinator steps keep the streaming
 * behaviour of the parser-combinator library: running out of input where more
 * is expected is `Incomplete`, a wrong character is an `Error`.
 */
module Parser {
  import opened Options
  import opened Text
  import opened Calendar
  import opened Activities

  datatype ErrorKind = Char | MapRes

  datatype ParseError = Incomplete | Error(kind: ErrorKind)

  /** The outcome of one parsing step: the unread input and a value, or an error. */
  datatype Step<+T> = Done(rest: string, value: T) | Fail(err: ParseError)

  // ---------------------------------------------------------------------------
  // Reading `%Y.%m.%d %Hh%M` the way the date library does
  // ---------------------------------------------------------------------------

  /** The number of leading ASCII digits of s, at most max. */
  function DigitRun(s: string, max: nat): (n: nat)
    ensures n <= max && n <= |s|
    ensures AllDigits(s[..n])
    ensures n < max && n < |s| ==> !IsDigit(s[n])
  {
    if max == 0 || |s| == 0 || !IsDigit(s[0]) then 0
    else
      var n := 1 + DigitRun(s[1..], max - 1);
      assert s[..n] == [s[0]] + s[1..][..n - 1];
      n
  }

  /** One to max digits, read greedily; fewer than one digit is an error. */
  function ScanNumber(s: string, max: nat): (r: Option<(nat, string)>)
    ensures r.Some? ==> |r.value.1| < |s|
  {
    var n := DigitRun(s, max);
    if n == 0 then None else Some((DecimalValue(s[..n]), s[n..]))
  }

  /** A field of at most `width` digits, after any leading whitespace. */
  function ScanUnsigned(s: string, width: nat): (r: Option<(int, string)>)
    ensures r.Some? ==> r.value.0 >= 0
  {
    var t := TrimStart(s);
    var r :- ScanNumber(t, width);
    Some((r.0 as int, r.1))
  }

  /** `%Y`: up to four digits, or a sign followed by any number of digits. */
  function ScanYear(s: string): Option<(int, string)>
  {
    var t := TrimStart(s);
    if |t| > 0 && (t[0] == '-' || t[0] == '+') then
      var r :- ScanNumber(t[1..], |t| - 1);
      var v: int := r.0;
      Some((if t[0] == '-' then -v else v, r.1))
    else
      ScanUnsigned(t, 4)
  }

  /** A literal character of the format must appear as is. */
  function Literal(s: string, c: char): Option<string>
  {
    if |s| > 0 && s[0] == c then Some(s[1..]) else None
  }

  /**
   * `NaiveDateTime::parse_from_str(s, "%Y.%m.%d %Hh%M")`: the fields in order,
   * the space of the format matching any run of whitespace, nothing left over,
   * then a real calendar date, an hour up to 23 and a minute up to 59.
   */
  function ParseDateTime(s: string): (r: Option<DateTime>)
  {
    var year :- ScanYear(s);
    ParseMonthOn(year.0, year.1)
  }

  /** `.%m` and the rest, once the year is read. */
  function ParseMonthOn(y: int, s: string): Option<DateTime>
  {
    var s1 :- Literal(s, '.');
    var month :- ScanUnsigned(s1, 2);
    ParseDayOn(y, month.0, month.1)
  }

  /** `.%d` and the rest, once year and month are read. */
  function ParseDayOn(y: int, m: int, s: string): Option<DateTime>
  {
    var s2 :- Literal(s, '.');
    var day :- ScanUnsigned(s2, 2);
    ParseTimeOn(y, m, day.0, TrimStart(day.1))
  }

  /** `%H` and the rest, once year, month and day are read and the space skipped. */
  function ParseTimeOn(y: int, m: int, d: int, s: string): Option<DateTime>
  {
    var hour :- ScanUnsigned(s, 2);
    ParseMinuteOn(y, m, d, hour.0, hour.1)
  }

  /** `h%M`, the end of the text, then the range checks on the fields read. */
  function ParseMinuteOn(y: int, m: int, d: int, h: int, s: string): Option<DateTime>
  {
    var s3 :- Literal(s, 'h');
    var minute :- ScanUnsigned(s3, 2);
    if minute.1 != [] then None else Moment(y, m, d, h, minute.0)
  }

  /** The fields read, checked: a real date, an hour up to 23, a minute up to 59. */
  function Moment(y: int, m: int, d: int, h: int, mi: int): (r: Option<DateTime>)
    ensures r.Some? <==> ValidDate(y, m, d) && 0 <= h <= 23 && 0 <= mi <= 59
    ensures r.Some? ==> DateOf(r.value) == DaysFromCivil(y, m, d)
  {
    if !ValidDate(y, m, d) || h < 0 || h > 23 || mi < 0 || mi > 59 then None
    else
      DateOfMidnight(DaysFromCivil(y, m, d), 60 * h + mi);
      Some(Midnight(DaysFromCivil(y, m, d)) + 60 * h + mi)
  }

  // ---------------------------------------------------------------------------
  // The combinator steps
  // ---------------------------------------------------------------------------

  /**
   * A time: exactly five characters after any multispace, trimmed, put after
   * the day string and a space, and read as a datetime; then any multispace.
   */
  function TimeToken(date: string, s: string): (r: Step<DateTime>)
  {
    var s1 := SkipMultispace(s);
    if |s1| < 5 then Fail(Incomplete)
    else
      match ParseDateTime(date + " " + Trim(s1[..5]))
      case None => Fail(Error(MapRes))
      case Some(t) => Done(SkipMultispace(s1[5..]), t)
  }

  /** A separator character with any multispace around it. */
  function Separator(c: char, s: string): (r: Step<()>)
  {
    var s1 := SkipMultispace(s);
    if |s1| == 0 then Fail(Incomplete)
    else if s1[0] != c then Fail(Error(Char))
    else Done(SkipMultispace(s1[1..]), ())
  }

  /**
   * One tag: `[` with any multispace around it, the raw text up to the first `]`,
   * then `]` and any multispace.
   */
  function Tag(s: string): (r: Step<string>)
    ensures r.Done? ==> |r.rest| < |s|
  {
    var s1 := SkipMultispace(s);
    if |s1| == 0 then Fail(Incomplete)
    else if s1[0] != '[' then Fail(Error(Char))
    else
      var s2 := SkipMultispace(s1[1..]);
      var i := FindChar(s2, ']');
      if i == |s2| then Fail(Incomplete)
      else Done(SkipMultispace(s2[i + 1..]), s2[..i])
  }

  /**
   * Zero or more tags: stops before the first attempt that fails with an error
   * and returns the input as it was before that attempt; Incomplete is passed on.
   */
  function Tags(s: string): (r: Step<seq<string>>)
    decreases |s|
  {
    match Tag(s)
    case Fail(Incomplete) => Fail(Incomplete)
    case Fail(Error(_)) => Done(s, [])
    case Done(rest, t) =>
      match Tags(rest)
      case Fail(e) => Fail(e)
      case Done(rest', ts) => Done(rest', [t] + ts)
  }

  /** Start, `-`, end, `:` and the tags: everything the combinators read. */
  function ParseLine(date: string, input: string): Step<(DateTime, DateTime, seq<string>)>
  {
    match TimeToken(date, input)
    case Fail(e) => Fail(e)
    case Done(s1, start) => LineAfterStart(date, s1, start)
  }

  function LineAfterStart(date: string, s: string, start: DateTime): Step<(DateTime, DateTime, seq<string>)>
  {
    match Separator('-', s)
    case Fail(e) => Fail(e)
    case Done(s2, _) => LineAtEnd(date, s2, start)
  }

  function LineAtEnd(date: string, s: string, start: DateTime): Step<(DateTime, DateTime, seq<string>)>
  {
    match TimeToken(date, s)
    case Fail(e) => Fail(e)
    case Done(s3, end) => LineAfterEnd(s3, start, end)
  }

  function LineAfterEnd(s: string, start: DateTime, end: DateTime): Step<(DateTime, DateTime, seq<string>)>
  {
    match Separator(':', s)
    case Fail(e) => Fail(e)
    case Done(s4, _) => LineTags(s4, start, end)
  }

  function LineTags(s: string, start: DateTime, end: DateTime): Step<(DateTime, DateTime, seq<string>)>
  {
    match Tags(s)
    case Fail(e) => Fail(e)
    case Done(s5, tags) => Done(s5, (start, end, tags))
  }

  // ---------------------------------------------------------------------------
  // Tag classification and the whole line
  // ---------------------------------------------------------------------------

  /** The action a tag names, once trimmed, if it names one. */
  function TagAction(t: string): set<Action>
  {
    if ActionFromStr(Trim(t)).Ok? then {ActionFromStr(Trim(t)).value} else {}
  }

  /** The tag, trimmed, if it names no action. */
  function TagProject(t: string): set<string>
  {
    if ActionFromStr(Trim(t)).Err? then {Trim(t)} else {}
  }

  /** The actions named by the tags, tag by tag. */
  function TagActions(tags: seq<string>): set<Action>
  {
    if tags == [] then {} else TagActions(tags[..|tags| - 1]) + TagAction(tags[|tags| - 1])
  }

  /** The trimmed tags that name no action, tag by tag. */
  function TagProjects(tags: seq<string>): set<string>
  {
    if tags == [] then {} else TagProjects(tags[..|tags| - 1]) + TagProject(tags[|tags| - 1])
  }

  /** An action is collected exactly when some tag, trimmed, is its word. */
  lemma {:induction false} TagActionsMembers(tags: seq<string>, a: Action)
    ensures a in TagActions(tags) <==> exists i :: 0 <= i < |tags| && Trim(tags[i]) == ActionWord(a)
  {
    ActionWordRoundTrip(a);
    if tags != [] {
      var init := tags[..|tags| - 1];
      TagActionsMembers(init, a);
      forall i | 0 <= i < |init| ensures init[i] == tags[i] {}
      var t := tags[|tags| - 1];
      if Trim(t) == ActionWord(a) {
        assert ActionFromStr(Trim(t)) == Ok(a);
      } else if ActionFromStr(Trim(t)).Ok? {
        assert ActionWord(ActionFromStr(Trim(t)).value) == Trim(t);
      }
    }
  }

  /** A project is collected exactly when some tag, trimmed, is that text and names no action. */
  lemma {:induction false} TagProjectsMembers(tags: seq<string>, p: string)
    ensures p in TagProjects(tags) <==>
              p !in ActionWords && exists i :: 0 <= i < |tags| && Trim(tags[i]) == p
  {
    ActionFromStrAccepts(p);
    if tags != [] {
      var init := tags[..|tags| - 1];
      TagProjectsMembers(init, p);
      forall i | 0 <= i < |init| ensures init[i] == tags[i] {}
    }
  }

  /** What `parse_activity` returns: the unread remainder and the activity. */
  function ParseActivitySpec(date: string, input: string): Step<Activity>
  {
    match ParseLine(date, input)
    case Fail(e) => Fail(e)
    case Done(rest, line) =>
      Done(rest, Activity(line.0, line.1, Trim(rest), TagProjects(line.2), TagActions(line.2)))
  }

  /** The loop of `parse_activity`: each trimmed tag goes into the actions or into the projects. */
  method ClassifyTags(tags: seq<string>) returns (projects: set<string>, actions: set<Action>)
    ensures projects == TagProjects(tags) && actions == TagActions(tags)
  {
    projects, actions := {}, {};
    for i := 0 to |tags|
      invariant projects == TagProjects(tags[..i])
      invariant actions == TagActions(tags[..i])
    {
      var tag := Trim(tags[i]);
      assert tags[..i + 1][..i] == tags[..i];
      match ActionFromStr(tag)
      case Ok(a) =>
        actions := actions + {a};
      case Err(_) =>
        projects := projects + {tag};
    }
    assert tags[..|tags|] == tags;
  }

  /** `parse_activity`: the combinators, then the tag classification, then the trimmed description. */
  method ParseActivity(date: string, input: string) returns (r: Step<Activity>)
    ensures r == ParseActivitySpec(date, input)
  {
    var line := ParseLine(date, input);
    if line.Fail? {
      return Fail(line.err);
    }
    var projects, actions := ClassifyTags(line.value.2);
    r := Done(line.rest, Activity(line.value.0, line.value.1, Trim(line.rest), projects, actions));
  }

  // ---------------------------------------------------------------------------
  // Reading back well-formed day strings and times
  // ---------------------------------------------------------------------------

  /** `{:0>w}` of a number. */
  function Padded(n: nat, w: nat): string
  {
    ZeroPad(NatToString(n), w)
  }

  /** The day string of a log file: `YYYY.MM.DD`. */
  function DayText(y: nat, m: nat, d: nat): string
  {
    Padded(y, 4) + "." + Padded(m, 2) + "." + Padded(d, 2)
  }

  /** A time token: `HHhMM`. */
  function TimeText(h: nat, mi: nat): string
  {
    Padded(h, 2) + "h" + Padded(mi, 2)
  }

  lemma PaddedDigits(n: nat, w: nat)
    requires 1 <= w && n < Pow10(w)
    ensures |Padded(n, w)| == w && AllDigits(Padded(n, w)) && DecimalValue(Padded(n, w)) == n
  {
    NatToStringLength(n, w);
    PaddedValue(n, w);
  }

  lemma {:induction false} DigitRunOf(ds: string, rest: string, max: nat)
    requires AllDigits(ds) && |ds| <= max
    requires |ds| == max || rest == [] || !IsDigit(rest[0])
    ensures DigitRun(ds + rest, max) == |ds|
  {
    if ds != [] {
      assert (ds + rest)[0] == ds[0] && (ds + rest)[1..] == ds[1..] + rest;
      DigitRunOf(ds[1..], rest, max - 1);
    } else {
      assert ds + rest == rest;
    }
  }

  /** A run of digits that fills the field, or stops at a non-digit, is read whole. */
  lemma ScanDigits(ds: string, rest: string, max: nat)
    requires AllDigits(ds) && 1 <= |ds| <= max
    requires |ds| == max || rest == [] || !IsDigit(rest[0])
    ensures ScanNumber(ds + rest, max) == Some((DecimalValue(ds), rest))
  {
    DigitRunOf(ds, rest, max);
    assert (ds + rest)[..|ds|] == ds && (ds + rest)[|ds|..] == rest;
  }

  lemma PaddedStartsWithDigit(n: nat, w: nat, rest: string)
    requires 1 <= w && n < Pow10(w)
    ensures |Padded(n, w) + rest| > 0 && IsDigit((Padded(n, w) + rest)[0])
    ensures TrimStart(Padded(n, w) + rest) == Padded(n, w) + rest
  {
    var p := Padded(n, w);
    PaddedDigits(n, w);
    FirstOfConcat(p, rest);
    DigitFirstUntrimmed(p + rest);
  }

  lemma FirstOfConcat(p: string, q: string)
    requires p != []
    ensures |p + q| > 0 && (p + q)[0] == p[0]
  {
  }

  lemma DigitFirstUntrimmed(s: string)
    requires |s| > 0 && IsDigit(s[0])
    ensures TrimStart(s) == s
  {
    DigitIsNotSpace(s[0]);
  }

  lemma ScanPaddedNumber(n: nat, w: nat, rest: string)
    requires 1 <= w && n < Pow10(w)
    ensures ScanNumber(Padded(n, w) + rest, w) == Some((n, rest))
  {
    PaddedDigits(n, w);
    ScanDigits(Padded(n, w), rest, w);
  }

  lemma ScanPadded(n: nat, w: nat, rest: string)
    requires 1 <= w && n < Pow10(w)
    ensures ScanUnsigned(Padded(n, w) + rest, w) == Some((n as int, rest))
  {
    PaddedStartsWithDigit(n, w, rest);
    ScanPaddedNumber(n, w, rest);
  }

  lemma ScanYearPadded(y: nat, rest: string)
    requires y < 10000
    ensures ScanYear(Padded(y, 4) + rest) == Some((y as int, rest))
  {
    var s := Padded(y, 4) + rest;
    PaddedStartsWithDigit(y, 4, rest);
    assert s[0] != '-' && s[0] != '+';
    ScanPadded(y, 4, rest);
    assert ScanYear(s) == ScanUnsigned(s, 4);
  }

  lemma ReadYearField(y: nat, rest: string)
    requires y < 10000
    ensures ParseDateTime(Padded(y, 4) + rest) == ParseMonthOn(y, rest)
  {
    ScanYearPadded(y, rest);
  }

  lemma ReadMonthField(y: int, m: nat, rest: string)
    requires m < 100
    ensures ParseMonthOn(y, "." + Padded(m, 2) + rest) == ParseDayOn(y, m, rest)
  {
    var r := "." + Padded(m, 2) + rest;
    assert Literal(r, '.') == Some(Padded(m, 2) + rest) by {
      assert r[1..] == Padded(m, 2) + rest;
    }
    assert ScanUnsigned(Padded(m, 2) + rest, 2) == Some((m as int, rest)) by {
      ScanPadded(m, 2, rest);
    }
  }

  lemma ReadDayField(y: int, m: int, d: nat, x: string)
    requires d < 100
    ensures ParseDayOn(y, m, "." + Padded(d, 2) + " " + x) == ParseTimeOn(y, m, d, TrimStart(x))
  {
    var r := "." + Padded(d, 2) + " " + x;
    assert Literal(r, '.') == Some(Padded(d, 2) + (" " + x)) by {
      assert r[1..] == Padded(d, 2) + (" " + x);
    }
    assert ScanUnsigned(Padded(d, 2) + (" " + x), 2) == Some((d as int, " " + x)) by {
      ScanPadded(d, 2, " " + x);
    }
    assert ParseDayOn(y, m, r) == ParseTimeOn(y, m, d, TrimStart(" " + x));
    assert TrimStart(" " + x) == TrimStart(x) by {
      assert (" " + x)[0] == ' ' && (" " + x)[1..] == x;
    }
  }

  /** Reading a day string followed by a space and any text: the date part always comes out as written. */
  lemma ReadDayPrefix(y: nat, m: nat, d: nat, x: string)
    requires y < 10000 && m < 100 && d < 100
    ensures ParseDateTime(DayText(y, m, d) + " " + x) == ParseTimeOn(y, m, d, TrimStart(x))
  {
    var pm, pd := Padded(m, 2), Padded(d, 2);
    var r2 := "." + pd + " " + x;
    var r1 := "." + pm + r2;
    assert DayText(y, m, d) + " " + x == Padded(y, 4) + r1;
    ReadYearField(y, r1);
    ReadMonthField(y, m, r2);
    ReadDayField(y, m, d, x);
  }

  /** A well-formed day string and time token read back as that date and time. */
  lemma ReadDateTime(y: nat, m: nat, d: nat, h: nat, mi: nat)
    requires y < 10000 && ValidDate(y, m, d) && h <= 23 && mi <= 59
    ensures ParseDateTime(DayText(y, m, d) + " " + TimeText(h, mi)) == Moment(y, m, d, h, mi)
  {
    var rest := "h" + Padded(mi, 2);
    var t := TimeText(h, mi);
    assert t == Padded(h, 2) + rest;
    calc {
      ParseDateTime(DayText(y, m, d) + " " + t);
      { ReadDayPrefix(y, m, d, t); }
      ParseTimeOn(y, m, d, TrimStart(t));
      { PaddedStartsWithDigit(h, 2, rest); }
      ParseTimeOn(y, m, d, Padded(h, 2) + rest);
      { ReadHourField(y, m, d, h, rest); }
      ParseMinuteOn(y, m, d, h, rest);
      { ReadMinuteField(y, m, d, h, mi); }
      Moment(y, m, d, h, mi);
    }
  }

  /** The datetime of a valid date and time of day. */
  lemma MomentValue(y: int, m: int, d: int, h: int, mi: int)
    requires ValidDate(y, m, d) && 0 <= h <= 23 && 0 <= mi <= 59
    ensures Moment(y, m, d, h, mi) == Some(Midnight(DaysFromCivil(y, m, d)) + 60 * h + mi)
  {
  }

  lemma ReadHourField(y: int, m: int, d: int, h: nat, rest: string)
    requires h < 100
    ensures ParseTimeOn(y, m, d, Padded(h, 2) + rest) == ParseMinuteOn(y, m, d, h, rest)
  {
    ScanPadded(h, 2, rest);
  }

  lemma ReadMinuteField(y: int, m: int, d: int, h: nat, mi: nat)
    requires mi < 100
    ensures ParseMinuteOn(y, m, d, h, "h" + Padded(mi, 2)) == Moment(y, m, d, h, mi)
  {
    var r := "h" + Padded(mi, 2);
    assert Literal(r, 'h') == Some(Padded(mi, 2) + "") by {
      assert r[1..] == Padded(mi, 2) + "";
    }
    assert ScanUnsigned(Padded(mi, 2) + "", 2) == Some((mi as int, "")) by {
      ScanPadded(mi, 2, "");
    }
  }

  /** Whatever the time token, a datetime read against a day string falls on that day. */
  lemma ParsedOnDay(y: nat, m: nat, d: nat, x: string, t: DateTime)
    requires y < 10000 && m < 100 && d < 100
    requires ParseDateTime(DayText(y, m, d) + " " + x) == Some(t)
    ensures ValidDate(y, m, d) && DateOf(t) == DaysFromCivil(y, m, d)
  {
    ReadDayPrefix(y, m, d, x);
    var hour := ScanUnsigned(TrimStart(x), 2).value;
    var s3 := Literal(hour.1, 'h').value;
    var minute := ScanUnsigned(s3, 2).value;
    assert Some(t) == Moment(y, m, d, hour.0, minute.0);
  }

  // ---------------------------------------------------------------------------
  // The combinator steps on well-formed pieces of a line
  // ---------------------------------------------------------------------------

  lemma TimeTextShape(h: nat, mi: nat)
    requires h < 100 && mi < 100
    ensures |TimeText(h, mi)| == 5 && Trim(TimeText(h, mi)) == TimeText(h, mi)
    ensures !IsMultispace(TimeText(h, mi)[0])
  {
    var t := TimeText(h, mi);
    TimeTextEnds(h, mi);
    DigitIsNotSpace(t[0]);
    DigitIsNotSpace(t[4]);
    TrimKeeps(t);
  }

  lemma TimeTextEnds(h: nat, mi: nat)
    requires h < 100 && mi < 100
    ensures |TimeText(h, mi)| == 5 && IsDigit(TimeText(h, mi)[0]) && IsDigit(TimeText(h, mi)[4])
  {
    var ph, pm := Padded(h, 2), Padded(mi, 2);
    PaddedDigits(h, 2);
    PaddedDigits(mi, 2);
    var t := TimeText(h, mi);
    assert t == ph + "h" + pm;
    assert |t| == 5 && t[0] == ph[0] && t[4] == pm[1];
  }

  /** A five-character token, without surrounding whitespace, that reads as t on the given day string. */
  predicate ReadsAs(date: string, token: string, t: DateTime)
  {
    |token| == 5 && !IsMultispace(token[0]) && Trim(token) == token && ParseDateTime(date + " " + token) == Some(t)
  }

  /** Every valid `HHhMM` reads as that time of a valid day. */
  lemma TimeTextReadsAs(y: nat, m: nat, d: nat, h: nat, mi: nat)
    requires y < 10000 && ValidDate(y, m, d) && h <= 23 && mi <= 59
    ensures ReadsAs(DayText(y, m, d), TimeText(h, mi), Midnight(DaysFromCivil(y, m, d)) + 60 * h + mi)
  {
    TimeTextShape(h, mi);
    ReadDateTime(y, m, d, h, mi);
    MomentValue(y, m, d, h, mi);
  }

  /** A time token is the five characters after any multispace; the multispace after it is consumed too. */
  lemma ReadTimeToken(date: string, token: string, t: DateTime, w: string, rest: string)
    requires ReadsAs(date, token, t) && AllMultispace(w)
    ensures TimeToken(date, w + token + rest) == Done(SkipMultispace(rest), t)
  {
    SkipMultispaceAbsorbs(w, token + rest);
    assert w + token + rest == w + (token + rest);
    assert SkipMultispace(token + rest) == token + rest by {
      assert (token + rest)[0] == token[0];
    }
    assert (token + rest)[..5] == token && (token + rest)[5..] == rest;
  }

  /** A separator with any multispace before and after it. */
  lemma ReadSeparator(c: char, w: string, rest: string)
    requires AllMultispace(w) && !IsMultispace(c)
    ensures Separator(c, w + [c] + rest) == Done(SkipMultispace(rest), ())
  {
    SkipMultispaceAbsorbs(w, [c] + rest);
    assert w + [c] + rest == w + ([c] + rest);
    assert ([c] + rest)[0] == c && ([c] + rest)[1..] == rest;
  }

  lemma {:induction false} SkipMultispaceAppend(p: string, q: string)
    requires q != [] && !IsMultispace(q[0])
    ensures SkipMultispace(p + q) == SkipMultispace(p) + q
  {
    if p == [] {
      assert p + q == q;
      assert SkipMultispace(q) == q;
    } else {
      assert (p + q)[0] == p[0] && (p + q)[1..] == p[1..] + q;
      SkipMultispaceAppend(p[1..], q);
    }
  }

  /** A complete tag: its text is what follows `[` and its multispace, up to `]`. */
  lemma ReadTag(w: string, body: string, rest: string)
    requires AllMultispace(w) && ']' !in body
    ensures Tag(w + "[" + body + "]" + rest) == Done(SkipMultispace(rest), SkipMultispace(body))
  {
    var tail := "[" + body + "]" + rest;
    var b := SkipMultispace(body);
    var s2 := b + ("]" + rest);
    TagOpen(w, tail);
    TagBody(body, rest);
    TagClose(body, rest);
    Bracketed(w, body, rest);
    TagFromFacts(w, body, rest, tail, b, s2);
  }

  lemma Bracketed(w: string, body: string, rest: string)
    ensures w + "[" + body + "]" + rest == w + ("[" + body + "]" + rest)
  {
  }

  lemma TagFromFacts(w: string, body: string, rest: string, tail: string, b: string, s2: string)
    requires tail == "[" + body + "]" + rest && b == SkipMultispace(body) && s2 == b + ("]" + rest)
    requires SkipMultispace(w + tail) == tail
    requires tail[1..] == body + ("]" + rest)
    requires SkipMultispace(body + ("]" + rest)) == b + ("]" + rest)
    requires FindChar(s2, ']') == |b|
    requires s2[..|b|] == b && s2[|b| + 1..] == rest
    requires w + "[" + body + "]" + rest == w + tail
    ensures Tag(w + "[" + body + "]" + rest) == Done(SkipMultispace(rest), SkipMultispace(body))
  {
    TagDone(w + tail, tail, s2, |b|);
  }

  lemma TagOpen(w: string, tail: string)
    requires AllMultispace(w) && |tail| > 0 && tail[0] == '['
    ensures SkipMultispace(w + tail) == tail
  {
    SkipMultispaceAbsorbs(w, tail);
  }

  lemma TagBody(body: string, rest: string)
    ensures ("[" + body + "]" + rest)[1..] == body + ("]" + rest)
    ensures SkipMultispace(body + ("]" + rest)) == SkipMultispace(body) + ("]" + rest)
  {
    SkipMultispaceAppend(body, "]" + rest);
  }

  lemma TagClose(body: string, rest: string)
    requires ']' !in body
    ensures var b := SkipMultispace(body);
            && FindChar(b + ("]" + rest), ']') == |b|
            && (b + ("]" + rest))[..|b|] == b && (b + ("]" + rest))[|b| + 1..] == rest
  {
    var b := SkipMultispace(body);
    SkipMultispaceSplit(body);
    assert b == body[|body| - |b|..];
    FindCharAbsent(b, ']');
    FindCharAppend(b, "]" + rest, ']');
  }

  lemma TagDone(s: string, s1: string, s2: string, i: nat)
    requires s1 == SkipMultispace(s) && |s1| > 0 && s1[0] == '['
    requires s2 == SkipMultispace(s1[1..]) && i == FindChar(s2, ']') && i < |s2|
    ensures Tag(s) == Done(SkipMultispace(s2[i + 1..]), s2[..i])
  {
  }

  /** Multispace in front of the text a tag list starts at is skipped by the first tag. */
  lemma TagAbsorbs(w: string, s: string)
    requires AllMultispace(w)
    ensures Tag(w + s) == Tag(s)
  {
    SkipMultispaceAbsorbs(w, s);
  }

  /** A text that does not start with `[` ends the tag list: nothing consumed. */
  lemma TagsStop(s: string)
    requires s != [] && !IsMultispace(s[0]) && s[0] != '['
    ensures Tags(s) == Done(s, [])
  {
    assert SkipMultispace(s) == s;
  }

  /** One tag, then the tag list that follows it. */
  lemma TagsCons(s: string, rest: string, t: string)
    requires Tag(s) == Done(rest, t)
    ensures Tags(s) == match Tags(rest)
                       case Fail(e) => Fail(e)
                       case Done(rest', ts) => Done(rest', [t] + ts)
  {
  }

  // ---------------------------------------------------------------------------
  // Whole lines
  // ---------------------------------------------------------------------------

  /** Each combinator starts with `multispace0`, so multispace already skipped changes nothing. */
  lemma TimeTokenSkips(date: string, s: string)
    ensures TimeToken(date, SkipMultispace(s)) == TimeToken(date, s)
  {
    SkipMultispaceIdempotent(s);
  }

  lemma SeparatorSkips(c: char, s: string)
    ensures Separator(c, SkipMultispace(s)) == Separator(c, s)
  {
    SkipMultispaceIdempotent(s);
  }

  /** A tag list whose first tag is read is unaffected by skipping the multispace in front of it. */
  lemma TagsSkip(s: string)
    requires Tag(s).Done?
    ensures Tags(SkipMultispace(s)) == Tags(s)
  {
    SkipMultispaceIdempotent(s);
    assert Tag(SkipMultispace(s)) == Tag(s);
  }

  lemma LineShape(w0: string, a: string, w1: string, w2: string, b: string, w3: string, tags: string)
    ensures w0 + a + w1 + "-" + w2 + b + w3 + ":" + tags == w0 + a + (w1 + ['-'] + (w2 + b + (w3 + [':'] + tags)))
  {
  }

  lemma ReadLineStart(date: string, token: string, t: DateTime, w: string, rest: string)
    requires ReadsAs(date, token, t) && AllMultispace(w)
    ensures ParseLine(date, w + token + rest) == LineAfterStart(date, SkipMultispace(rest), t)
  {
    ReadTimeToken(date, token, t, w, rest);
  }

  lemma ReadLineDash(date: string, w: string, rest: string, start: DateTime)
    requires AllMultispace(w)
    ensures LineAfterStart(date, SkipMultispace(w + ['-'] + rest), start) == LineAtEnd(date, SkipMultispace(rest), start)
  {
    ReadSeparator('-', w, rest);
    SeparatorSkips('-', w + ['-'] + rest);
  }

  lemma ReadLineEnd(date: string, token: string, t: DateTime, w: string, rest: string, start: DateTime)
    requires ReadsAs(date, token, t) && AllMultispace(w)
    ensures LineAtEnd(date, SkipMultispace(w + token + rest), start) == LineAfterEnd(SkipMultispace(rest), start, t)
  {
    ReadTimeToken(date, token, t, w, rest);
    TimeTokenSkips(date, w + token + rest);
  }

  lemma ReadLineColon(w: string, rest: string, start: DateTime, end: DateTime)
    requires AllMultispace(w)
    ensures LineAfterEnd(SkipMultispace(w + [':'] + rest), start, end) == LineTags(SkipMultispace(rest), start, end)
  {
    ReadSeparator(':', w, rest);
    SeparatorSkips(':', w + [':'] + rest);
  }

  /**
   * The head of a line: two time tokens separated by `-` and followed by `:`, with any multispace
   * around each of them; the tag list starts after the multispace behind `:`.
   */
  lemma ReadLine(date: string, a: string, start: DateTime, b: string, end: DateTime,
                 w0: string, w1: string, w2: string, w3: string, tags: string)
    requires ReadsAs(date, a, start) && ReadsAs(date, b, end)
    requires AllMultispace(w0) && AllMultispace(w1) && AllMultispace(w2) && AllMultispace(w3)
    ensures ParseLine(date, w0 + a + w1 + "-" + w2 + b + w3 + ":" + tags)
            == match Tags(SkipMultispace(tags))
               case Fail(e) => Fail(e)
               case Done(rest, ts) => Done(rest, (start, end, ts))
  {
    var r3 := w3 + [':'] + tags;
    var r2 := w2 + b + r3;
    var r1 := w1 + ['-'] + r2;
    LineShape(w0, a, w1, w2, b, w3, tags);
    ReadLineStart(date, a, start, w0, r1);
    ReadLineDash(date, w1, r2, start);
    ReadLineEnd(date, b, end, w2, r3, start);
    ReadLineColon(w3, tags, start, end);
  }

  /** Tags written out: before the i-th `[`, the multispace gaps[i]. */
  function TagList(bodies: seq<string>, gaps: seq<string>): (r: string)
    requires |gaps| == |bodies|
    ensures |r| >= 2 * |bodies|
  {
    if bodies == [] then "" else gaps[0] + "[" + bodies[0] + "]" + TagList(bodies[1..], gaps[1..])
  }

  /** What the tag list yields for each written tag: its text after its leading multispace. */
  function TagTexts(bodies: seq<string>): (r: seq<string>)
    ensures |r| == |bodies|
  {
    if bodies == [] then [] else [SkipMultispace(bodies[0])] + TagTexts(bodies[1..])
  }

  /** Multispace-separated tags, then multispace, then a text that is not a tag. */
  predicate WellFormedTags(bodies: seq<string>, gaps: seq<string>, w: string, desc: string)
  {
    && |gaps| == |bodies|
    && (forall i :: 0 <= i < |gaps| ==> AllMultispace(gaps[i]))
    && (forall i :: 0 <= i < |bodies| ==> ']' !in bodies[i])
    && AllMultispace(w) && desc != [] && !IsMultispace(desc[0]) && desc[0] != '['
  }

  lemma TagListShape(bodies: seq<string>, gaps: seq<string>, w: string, desc: string)
    requires |gaps| == |bodies| && bodies != []
    ensures TagList(bodies, gaps) + w + desc
         == gaps[0] + "[" + bodies[0] + "]" + (TagList(bodies[1..], gaps[1..]) + w + desc)
  {
    var head := gaps[0] + "[" + bodies[0] + "]";
    var tail := TagList(bodies[1..], gaps[1..]);
    assert TagList(bodies, gaps) == head + tail;
    Regroup(head, tail, w, desc);
  }

  lemma Regroup(a: string, b: string, c: string, d: string)
    ensures a + b + c + d == a + (b + c + d)
  {
  }

  lemma TagsStopAfter(w: string, desc: string)
    requires AllMultispace(w) && desc != [] && !IsMultispace(desc[0]) && desc[0] != '['
    ensures Tags(w + desc) == Done(w + desc, [])
  {
    SkipMultispaceAbsorbs(w, desc);
    assert SkipMultispace(desc) == desc;
  }

  /**
   * `many0` over well-formed tags: every tag is read, in order, and reading stops in front of the
   * description (behind the multispace that follows the last tag, when there is a tag).
   */
  lemma {:induction false} ReadTags(bodies: seq<string>, gaps: seq<string>, w: string, desc: string)
    requires WellFormedTags(bodies, gaps, w, desc)
    ensures Tags(TagList(bodies, gaps) + w + desc)
         == Done(if bodies == [] then w + desc else desc, TagTexts(bodies))
  {
    if bodies == [] {
      assert TagList(bodies, gaps) + w + desc == w + desc;
      TagsStopAfter(w, desc);
    } else {
      var r := TagList(bodies[1..], gaps[1..]) + w + desc;
      assert WellFormedTags(bodies[1..], gaps[1..], w, desc) by {
        forall i | 0 <= i < |gaps| - 1 ensures AllMultispace(gaps[1..][i]) && ']' !in bodies[1..][i] {
          assert gaps[1..][i] == gaps[i + 1] && bodies[1..][i] == bodies[i + 1];
        }
      }
      ReadTags(bodies[1..], gaps[1..], w, desc);
      TagListShape(bodies, gaps, w, desc);
      ReadTag(gaps[0], bodies[0], r);
      TagsCons(TagList(bodies, gaps) + w + desc, SkipMultispace(r), SkipMultispace(bodies[0]));
      if bodies[1..] == [] {
        assert r == w + desc;
        SkipMultispaceAbsorbs(w, desc);
        assert SkipMultispace(desc) == desc;
        TagsStop(desc);
      } else {
        TagsSkip(r);
      }
    }
  }

  /** A well-formed line yields its two times, its tags classified, and the text after the tags. */
  lemma ReadActivity(date: string, a: string, start: DateTime, b: string, end: DateTime,
                     w0: string, w1: string, w2: string, w3: string,
                     bodies: seq<string>, gaps: seq<string>, w: string, desc: string)
    requires ReadsAs(date, a, start) && ReadsAs(date, b, end)
    requires AllMultispace(w0) && AllMultispace(w1) && AllMultispace(w2) && AllMultispace(w3)
    requires WellFormedTags(bodies, gaps, w, desc)
    ensures ParseActivitySpec(date, w0 + a + w1 + "-" + w2 + b + w3 + ":" + (TagList(bodies, gaps) + w + desc))
         == Done(desc, Activity(start, end, Trim(desc), TagProjects(TagTexts(bodies)), TagActions(TagTexts(bodies))))
  {
    var tags := TagList(bodies, gaps) + w + desc;
    ReadLine(date, a, start, b, end, w0, w1, w2, w3, tags);
    ReadTags(bodies, gaps, w, desc);
    if bodies == [] {
      assert tags == w + desc;
      SkipMultispaceAbsorbs(w, desc);
      assert SkipMultispace(desc) == desc;
      TagsStop(desc);
    } else {
      TagsSkip(tags);
    }
  }

  // ---------------------------------------------------------------------------
  // Worked examples
  // ---------------------------------------------------------------------------

  // The cases of `test_parse_activity`, for any start and end tokens that read on the day string.

  lemma LineText(a: string, b: string, w0: string, w1: string, w2: string, w3: string, after: string, tags: string)
    requires w0 == [] && w1 == [] && w2 == [] && after == w3 + ":" + tags
    ensures a + "-" + b + after == w0 + a + w1 + "-" + w2 + b + w3 + ":" + tags
  {
  }

  lemma TagList3(x: string, y: string, z: string, g1: string, g2: string, g3: string)
    ensures TagList([x, y, z], [g1, g2, g3]) == g1 + "[" + x + "]" + (g2 + "[" + y + "]" + (g3 + "[" + z + "]"))
  {
    assert [x, y, z][1..] == [y, z] && [g1, g2, g3][1..] == [g2, g3];
    assert [y, z][1..] == [z] && [g2, g3][1..] == [g3];
    assert [z][1..] == [] && [g3][1..] == [];
    assert TagList([z], [g3]) == g3 + "[" + z + "]" + "";
    assert TagList([y, z], [g2, g3]) == g2 + "[" + y + "]" + TagList([z], [g3]);
    assert g3 + "[" + z + "]" + "" == g3 + "[" + z + "]";
  }

  lemma TagTexts3(x: string, y: string, z: string)
    ensures TagTexts([x, y, z]) == [SkipMultispace(x), SkipMultispace(y), SkipMultispace(z)]
  {
    assert [x, y, z][1..] == [y, z] && [y, z][1..] == [z] && [z][1..] == [];
    assert TagTexts([z]) == [SkipMultispace(z)] + [];
    assert TagTexts([y, z]) == [SkipMultispace(y)] + TagTexts([z]);
  }

  lemma WellFormed3(x: string, y: string, z: string, g1: string, g2: string, g3: string, w: string, desc: string)
    requires ']' !in x && ']' !in y && ']' !in z
    requires AllMultispace(g1) && AllMultispace(g2) && AllMultispace(g3) && AllMultispace(w)
    requires desc != [] && !IsMultispace(desc[0]) && desc[0] != '['
    ensures WellFormedTags([x, y, z], [g1, g2, g3], w, desc)
  {
  }

  lemma Classify3(x: string, y: string, z: string)
    ensures TagProjects([x, y, z]) == TagProject(x) + TagProject(y) + TagProject(z)
    ensures TagActions([x, y, z]) == TagAction(x) + TagAction(y) + TagAction(z)
  {
    assert [x, y, z][..2] == [x, y] && [x, y][..1] == [x] && [x][..0] == [];
    assert TagProjects([]) == {} && TagActions([]) == {};
    assert TagProjects([x]) == TagProject(x) && TagActions([x]) == TagAction(x);
    assert TagProjects([x, y]) == TagProject(x) + TagProject(y);
    assert TagActions([x, y]) == TagAction(x) + TagAction(y);
  }

  /** A word with no whitespace at either end is left alone by `multispace0` and by trimming. */
  lemma Word(s: string)
    requires s != [] && !IsWhitespace(s[0]) && !IsWhitespace(s[|s| - 1])
    ensures SkipMultispace(s) == s && Trim(s) == s
  {
    TrimKeeps(s);
  }

  lemma ThreeTagText(a: string, b: string, x: string, y: string, z: string, desc: string)
    ensures a + "-" + b + (": [" + x + "][" + y + "][" + z + "] " + desc)
         == "" + a + "" + "-" + "" + b + "" + ":" + (TagList([x, y, z], [" ", "", ""]) + " " + desc)
  {
    TagList3(x, y, z, " ", "", "");
  }

  /** A line of the shape the tests use: `-`, `:`, three tags and a description, each tag read as written. */
  lemma ThreeTagLine(date: string, a: string, start: DateTime, b: string, end: DateTime,
                     x: string, y: string, z: string, desc: string)
    requires ReadsAs(date, a, start) && ReadsAs(date, b, end)
    requires ']' !in x && ']' !in y && ']' !in z
    requires desc != [] && !IsMultispace(desc[0]) && desc[0] != '['
    ensures ParseActivitySpec(date, a + "-" + b + (": [" + x + "][" + y + "][" + z + "] " + desc))
         == Done(desc, Activity(start, end, Trim(desc),
                                TagProjects([SkipMultispace(x), SkipMultispace(y), SkipMultispace(z)]),
                                TagActions([SkipMultispace(x), SkipMultispace(y), SkipMultispace(z)])))
  {
    ThreeTagText(a, b, x, y, z, desc);
    WellFormed3(x, y, z, " ", "", "", " ", desc);
    TagTexts3(x, y, z);
    ReadActivity(date, a, start, b, end, "", "", "", "", [x, y, z], [" ", "", ""], " ", desc);
  }

  lemma UsualPlain()
    ensures ']' !in "review" && ']' !in "tag2" && ']' !in "tag3" && ']' !in "re-tash-yo"
    ensures "description" != [] && !IsMultispace("description"[0]) && "description"[0] != '['
    ensures "description of my tests " != [] && !IsMultispace("description of my tests "[0])
    ensures "description of my tests "[0] != '['
  {
  }

  lemma UsualWords()
    ensures SkipMultispace("review") == "review" && Trim("review") == "review"
    ensures SkipMultispace("tag2") == "tag2" && Trim("tag2") == "tag2"
    ensures SkipMultispace("tag3") == "tag3" && Trim("tag3") == "tag3"
    ensures ActionFromStr("review") == Ok(Review) && ActionFromStr("tag2").Err? && ActionFromStr("tag3").Err?
  {
    Word("review");
    Word("tag2");
    Word("tag3");
  }

  lemma UsualSets()
    ensures TagProjects([SkipMultispace("review"), SkipMultispace("tag2"), SkipMultispace("tag3")]) == {"tag2", "tag3"}
    ensures TagActions([SkipMultispace("review"), SkipMultispace("tag2"), SkipMultispace("tag3")]) == {Review}
  {
    UsualWords();
    Classify3("review", "tag2", "tag3");
  }

  lemma DashSets()
    ensures TagProjects([SkipMultispace("re-tash-yo"), SkipMultispace("tag2"), SkipMultispace("tag3")])
         == {"re-tash-yo", "tag2", "tag3"}
    ensures TagActions([SkipMultispace("re-tash-yo"), SkipMultispace("tag2"), SkipMultispace("tag3")]) == {}
  {
    UsualWords();
    Word("re-tash-yo");
    assert ActionFromStr("re-tash-yo").Err?;
    Classify3("re-tash-yo", "tag2", "tag3");
  }

  /**
   * The line of the usual case: both times as read, whatever their order (nothing
   * compares them), the action and the two projects, and the description.
   */
  lemma UsualCase(date: string, a: string, start: DateTime, b: string, end: DateTime)
    requires ReadsAs(date, a, start) && ReadsAs(date, b, end)
    ensures ParseActivitySpec(date, a + "-" + b + ": [review][tag2][tag3] description")
         == Done("description", Activity(start, end, "description", {"tag2", "tag3"}, {Review}))
  {
    UsualText();
    UsualPlain();
    Word("description");
    UsualSets();
    ThreeTagLine(date, a, start, b, end, "review", "tag2", "tag3", "description");
  }

  lemma DashInTag(date: string, a: string, start: DateTime, b: string, end: DateTime)
    requires ReadsAs(date, a, start) && ReadsAs(date, b, end)
    ensures ParseActivitySpec(date, a + "-" + b + ": [re-tash-yo][tag2][tag3] description")
         == Done("description", Activity(start, end, "description", {"re-tash-yo", "tag2", "tag3"}, {}))
  {
    DashText();
    UsualPlain();
    Word("description");
    DashSets();
    ThreeTagLine(date, a, start, b, end, "re-tash-yo", "tag2", "tag3", "description");
  }

  /** The description is trimmed; the remainder handed back keeps its trailing space. */
  lemma SpacesInDescription(date: string, a: string, start: DateTime, b: string, end: DateTime)
    requires ReadsAs(date, a, start) && ReadsAs(date, b, end)
    ensures ParseActivitySpec(date, a + "-" + b + ": [review][tag2][tag3] description of my tests ")
         == Done("description of my tests ",
                 Activity(start, end, "description of my tests", {"tag2", "tag3"}, {Review}))
  {
    SpacesText();
    UsualPlain();
    Word("description of my tests");
    assert "description of my tests " == "description of my tests" + " ";
    TrimEndSpace("description of my tests");
    UsualSets();
    ThreeTagLine(date, a, start, b, end, "review", "tag2", "tag3", "description of my tests ");
  }

  lemma UsualText()
    ensures ": [review][tag2][tag3] description" == ": [" + "review" + "][" + "tag2" + "][" + "tag3" + "] " + "description"
  {
  }

  lemma DashText()
    ensures ": [re-tash-yo][tag2][tag3] description" == ": [" + "re-tash-yo" + "][" + "tag2" + "][" + "tag3" + "] " + "description"
  {
  }

  lemma SpacesText()
    ensures ": [review][tag2][tag3] description of my tests " == ": [" + "review" + "][" + "tag2" + "][" + "tag3" + "] " + "description of my tests "
  {
    var head, desc := ": [review][tag2][tag3] ", "description of my tests ";
    assert head == ": [" + "review" + "][" + "tag2" + "][" + "tag3" + "] ";
    assert ": [review][tag2][tag3] description of my tests " == head + desc;
  }

  lemma TrimEndSpace(s: string)
    requires s != [] && !IsWhitespace(s[0]) && !IsWhitespace(s[|s| - 1])
    ensures Trim(s + " ") == s
  {
    TrimKeeps(s);
    assert (s + " ")[0] == s[0];
    assert (s + " ")[..|s|] == s;
  }

  // ---------------------------------------------------------------------------
  // Lines that do not parse, and what is not checked
  // ---------------------------------------------------------------------------

  /** Fewer than five characters cannot hold a start time: more input is needed. */
  lemma ShortInput(date: string, s: string)
    requires |s| < 5
    ensures ParseActivitySpec(date, s) == Fail(Incomplete)
  {
  }

  /** A start token that does not read as a datetime on the day string is an error. */
  lemma BadTime(date: string, w: string, token: string, rest: string)
    requires AllMultispace(w) && |token| == 5 && !IsMultispace(token[0])
    requires ParseDateTime(date + " " + Trim(token)) == None
    ensures ParseActivitySpec(date, w + token + rest) == Fail(Error(MapRes))
  {
    SkipMultispaceAbsorbs(w, token + rest);
    assert w + token + rest == w + (token + rest);
    assert SkipMultispace(token + rest) == token + rest by {
      assert (token + rest)[0] == token[0];
    }
    assert (token + rest)[..5] == token;
  }

  /** A failure of the combinators is the failure of the whole parse. */
  lemma LineFails(date: string, input: string, e: ParseError)
    requires ParseLine(date, input) == Fail(e)
    ensures ParseActivitySpec(date, input) == Fail(e)
  {
  }

  /** Multispace, then a character c that is not multispace: skipping the multispace lands on c. */
  lemma SkipTo(w: string, c: char, rest: string)
    requires AllMultispace(w) && !IsMultispace(c)
    ensures SkipMultispace(w + [c] + rest) == [c] + rest
  {
    assert w + [c] + rest == w + ([c] + rest);
    SkipMultispaceAbsorbs(w, [c] + rest);
  }

  /** A separator that is not there. */
  lemma SeparatorMissing(sep: char, w: string, c: char, rest: string)
    requires AllMultispace(w) && !IsMultispace(c) && c != sep
    ensures Separator(sep, SkipMultispace(w + [c] + rest)) == Fail(Error(Char))
  {
    SkipTo(w, c, rest);
    assert ([c] + rest)[0] == c;
  }

  /** Any character other than `-` after the start time is an error. */
  lemma MissingDash(date: string, a: string, start: DateTime, w0: string, w1: string, c: char, rest: string)
    requires ReadsAs(date, a, start) && AllMultispace(w0) && AllMultispace(w1)
    requires !IsMultispace(c) && c != '-'
    ensures ParseActivitySpec(date, w0 + a + w1 + [c] + rest) == Fail(Error(Char))
  {
    var r1 := w1 + [c] + rest;
    assert w0 + a + w1 + [c] + rest == w0 + a + r1;
    ReadLineStart(date, a, start, w0, r1);
    SeparatorMissing('-', w1, c, rest);
    LineFails(date, w0 + a + r1, Error(Char));
  }

  /** Any character other than `:` after the end time is an error. */
  lemma MissingColon(date: string, a: string, start: DateTime, b: string, end: DateTime,
                     w0: string, w1: string, w2: string, w3: string, c: char, rest: string)
    requires ReadsAs(date, a, start) && ReadsAs(date, b, end)
    requires AllMultispace(w0) && AllMultispace(w1) && AllMultispace(w2) && AllMultispace(w3)
    requires !IsMultispace(c) && c != ':'
    ensures ParseActivitySpec(date, w0 + a + w1 + "-" + w2 + b + w3 + [c] + rest) == Fail(Error(Char))
  {
    var r3 := w3 + [c] + rest;
    var r2 := w2 + b + r3;
    var r1 := w1 + ['-'] + r2;
    ColonShape(w0, a, w1, w2, b, w3, c, rest);
    ReadLineStart(date, a, start, w0, r1);
    ReadLineDash(date, w1, r2, start);
    ReadLineEnd(date, b, end, w2, r3, start);
    SeparatorMissing(':', w3, c, rest);
    LineFails(date, w0 + a + r1, Error(Char));
  }

  lemma ColonShape(w0: string, a: string, w1: string, w2: string, b: string, w3: string, c: char, rest: string)
    ensures w0 + a + w1 + "-" + w2 + b + w3 + [c] + rest == w0 + a + (w1 + ['-'] + (w2 + b + (w3 + [c] + rest)))
  {
  }

  /** The tag list of a text that is only multispace asks for more input. */
  lemma TagsOfMultispace(w: string)
    requires AllMultispace(w)
    ensures Tags(SkipMultispace(w)) == Fail(Incomplete)
  {
    SkipMultispaceAbsorbs(w, []);
    assert w + [] == w;
  }

  lemma BareLine(a: string, b: string, tags: string)
    ensures "" + a + "" + "-" + "" + b + "" + ":" + tags == a + "-" + b + ":" + tags
  {
  }

  /** A tag list whose first `[` is never closed asks for more input. */
  lemma TagsUnclosed(w: string, body: string)
    requires AllMultispace(w) && ']' !in body
    ensures Tags(SkipMultispace(w + ("[" + body))) == Fail(Incomplete)
  {
    TagOpen(w, "[" + body);
    assert ("[" + body)[0] == '[' && ("[" + body)[1..] == body;
    var s2 := SkipMultispace(body);
    SkipMultispaceSplit(body);
    assert s2 == body[|body| - |s2|..];
    FindCharAbsent(s2, ']');
    assert Tag("[" + body) == Fail(Incomplete);
  }

  /**
   * Closed tags, then a text on which the tag list asks for more input: `many0` reads the
   * closed tags and passes the streaming Incomplete on, whatever number of tags came first.
   */
  lemma {:induction false} TagsIncompleteAfter(bodies: seq<string>, gaps: seq<string>, t: string)
    requires |gaps| == |bodies|
    requires forall i :: 0 <= i < |gaps| ==> AllMultispace(gaps[i]) && ']' !in bodies[i]
    requires Tags(SkipMultispace(t)) == Fail(Incomplete)
    ensures Tags(SkipMultispace(TagList(bodies, gaps) + t)) == Fail(Incomplete)
  {
    if bodies == [] {
      assert TagList(bodies, gaps) + t == t;
    } else {
      var r := TagList(bodies[1..], gaps[1..]) + t;
      var s := TagList(bodies, gaps) + t;
      assert s == gaps[0] + "[" + bodies[0] + "]" + r by {
        Regroup(gaps[0] + "[" + bodies[0] + "]", TagList(bodies[1..], gaps[1..]), t, "");
        assert t + "" == t;
      }
      assert forall i :: 0 <= i < |gaps| - 1 ==> gaps[1..][i] == gaps[i + 1] && bodies[1..][i] == bodies[i + 1];
      TagsIncompleteAfter(bodies[1..], gaps[1..], t);
      assert AllMultispace(gaps[0]) && ']' !in bodies[0];
      ReadTag(gaps[0], bodies[0], r);
      TagsCons(s, SkipMultispace(r), SkipMultispace(bodies[0]));
      TagsSkip(s);
    }
  }

  /** Closed tags with nothing but multispace after them ask for more input. */
  lemma TagsThenEnd(bodies: seq<string>, gaps: seq<string>, w: string)
    requires |gaps| == |bodies|
    requires forall i :: 0 <= i < |gaps| ==> AllMultispace(gaps[i]) && ']' !in bodies[i]
    requires AllMultispace(w)
    ensures Tags(SkipMultispace(TagList(bodies, gaps) + w)) == Fail(Incomplete)
  {
    TagsOfMultispace(w);
    TagsIncompleteAfter(bodies, gaps, w);
  }

  /** Closed tags, then a `[` whose `]` never comes: more input is asked for. */
  lemma UnclosedTag(date: string, a: string, start: DateTime, b: string, end: DateTime,
                    bodies: seq<string>, gaps: seq<string>, w: string, body: string)
    requires ReadsAs(date, a, start) && ReadsAs(date, b, end)
    requires |gaps| == |bodies|
    requires forall i :: 0 <= i < |gaps| ==> AllMultispace(gaps[i]) && ']' !in bodies[i]
    requires AllMultispace(w) && ']' !in body
    ensures ParseActivitySpec(date, a + "-" + b + ":" + (TagList(bodies, gaps) + (w + ("[" + body)))) == Fail(Incomplete)
  {
    var tags := TagList(bodies, gaps) + (w + ("[" + body));
    ReadLine(date, a, start, b, end, "", "", "", "", tags);
    BareLine(a, b, tags);
    TagsUnclosed(w, body);
    TagsIncompleteAfter(bodies, gaps, w + ("[" + body));
    LineFails(date, a + "-" + b + ":" + tags, Incomplete);
  }

  /**
   * A line that ends after its tags (none at all included), with no description: more input
   * is asked for.
   */
  lemma NoDescription(date: string, a: string, start: DateTime, b: string, end: DateTime,
                      bodies: seq<string>, gaps: seq<string>, w: string)
    requires ReadsAs(date, a, start) && ReadsAs(date, b, end)
    requires |gaps| == |bodies|
    requires forall i :: 0 <= i < |gaps| ==> AllMultispace(gaps[i]) && ']' !in bodies[i]
    requires AllMultispace(w)
    ensures ParseActivitySpec(date, a + "-" + b + ":" + (TagList(bodies, gaps) + w)) == Fail(Incomplete)
  {
    var tags := TagList(bodies, gaps) + w;
    ReadLine(date, a, start, b, end, "", "", "", "", tags);
    BareLine(a, b, tags);
    TagsThenEnd(bodies, gaps, w);
    LineFails(date, a + "-" + b + ":" + tags, Incomplete);
  }
}
