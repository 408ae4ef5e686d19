/**
 * Minute totals per day and over a whole period: the fold that groups
 * activities by the date they start on, and the merge that lays those daily
 * entries over an inclusive range of days, filling the gaps with zero days.
 * Durations are signed whole minutes; the maps only hold keys actually seen.
 */
module Aggregation {
  import opened Calendar
  import opened Activities

  datatype DailyAggregate = DailyAggregate(
    day: Date,
    totalMinutes: int,
    projectMinutes: map<string, int>,
    actionMinutes: map<Action, int>)

  datatype AllAggregate = AllAggregate(
    totalMinutes: int,
    projectMinutes: map<string, int>,
    actionMinutes: map<Action, int>)

  datatype Aggregates = Aggregates(daily: seq<DailyAggregate>, all: AllAggregate)

  function ZeroDay(d: Date): DailyAggregate
  {
    DailyAggregate(d, 0, map[], map[])
  }

  const ZeroAll: AllAggregate := AllAggregate(0, map[], map[])

  // ---------------------------------------------------------------------------
  // What the totals mean
  // ---------------------------------------------------------------------------

  function ProjectsOf(a: Activity): set<string> { a.projects }
  function ActionsOf(a: Activity): set<Action> { a.actions }

  /** Sum of the durations of all activities. */
  function TotalMinutes(acts: Activities): int
  {
    if acts == [] then 0 else TotalMinutes(acts[..|acts| - 1]) + Duration(acts[|acts| - 1])
  }

  /** Sum of the durations of the activities whose tags (projects or actions) hold k. */
  function MinutesWith<K>(acts: Activities, tags: Activity -> set<K>, k: K): int
  {
    if acts == [] then 0
    else MinutesWith(acts[..|acts| - 1], tags, k)
         + (if k in tags(acts[|acts| - 1]) then Duration(acts[|acts| - 1]) else 0)
  }

  /** Every tag carried by some activity. */
  function TagsSeen<K>(acts: Activities, tags: Activity -> set<K>): set<K>
  {
    if acts == [] then {} else TagsSeen(acts[..|acts| - 1], tags) + tags(acts[|acts| - 1])
  }

  /** Minutes per tag, with a key for exactly the tags seen. */
  function MinutesBy<K>(acts: Activities, tags: Activity -> set<K>): map<K, int>
  {
    map k | k in TagsSeen(acts, tags) :: MinutesWith(acts, tags, k)
  }

  /** The activities that start on day d, in their order. */
  function On(acts: Activities, d: Date): (r: Activities)
    ensures forall a :: a in r <==> a in acts && DateOf(a.start) == d
  {
    if acts == [] then []
    else On(acts[..|acts| - 1], d)
         + (if DateOf(acts[|acts| - 1].start) == d then [acts[|acts| - 1]] else [])
  }

  /** The dates activities start on. */
  function Days(acts: Activities): set<Date>
  {
    if acts == [] then {} else Days(acts[..|acts| - 1]) + {DateOf(acts[|acts| - 1].start)}
  }

  /** The aggregate of day d: the totals over the activities starting that day. */
  function DailyOf(acts: Activities, d: Date): DailyAggregate
  {
    var on := On(acts, d);
    DailyAggregate(d, TotalMinutes(on), MinutesBy(on, ProjectsOf), MinutesBy(on, ActionsOf))
  }

  /** The aggregate of the whole list. */
  function AllOf(acts: Activities): AllAggregate
  {
    AllAggregate(TotalMinutes(acts), MinutesBy(acts, ProjectsOf), MinutesBy(acts, ActionsOf))
  }

  /** The entry of the activity's start day, created empty when missing, takes its minutes. */
  function Bump(table: map<Date, DailyAggregate>, a: Activity): map<Date, DailyAggregate>
  {
    var d := DateOf(a.start);
    table[d := AddToDay(if d in table then table[d] else ZeroDay(d), a)]
  }

  /** The table of daily aggregates the fold builds, keyed by day. */
  function DayTable(acts: Activities): map<Date, DailyAggregate>
  {
    if acts == [] then map[] else Bump(DayTable(acts[..|acts| - 1]), acts[|acts| - 1])
  }

  predicate StrictlyByDay(daily: seq<DailyAggregate>)
  {
    forall i, j :: 0 <= i < j < |daily| ==> daily[i].day < daily[j].day
  }

  function DaysOf(daily: seq<DailyAggregate>): set<Date>
  {
    set e | e in daily :: e.day
  }

  // ---------------------------------------------------------------------------
  // One activity more
  // ---------------------------------------------------------------------------

  /** Each key of keys gets dur more minutes, starting from 0 when absent. */
  function Credit<K>(m: map<K, int>, keys: set<K>, dur: int): map<K, int>
  {
    map k | k in m.Keys + keys :: (if k in m then m[k] else 0) + (if k in keys then dur else 0)
  }

  function AddToDay(e: DailyAggregate, a: Activity): DailyAggregate
  {
    DailyAggregate(e.day, e.totalMinutes + Duration(a),
      Credit(e.projectMinutes, a.projects, Duration(a)),
      Credit(e.actionMinutes, a.actions, Duration(a)))
  }

  function AddToAll(e: AllAggregate, a: Activity): AllAggregate
  {
    AllAggregate(e.totalMinutes + Duration(a),
      Credit(e.projectMinutes, a.projects, Duration(a)),
      Credit(e.actionMinutes, a.actions, Duration(a)))
  }

  lemma Init(acts: Activities, a: Activity)
    ensures (acts + [a])[..|acts + [a]| - 1] == acts && (acts + [a])[|acts + [a]| - 1] == a
  {
  }

  /** Crediting an activity to the minutes-per-tag map of a list gives that of the longer list. */
  lemma MinutesBySnoc<K>(acts: Activities, tags: Activity -> set<K>, a: Activity)
    ensures MinutesBy(acts + [a], tags) == Credit(MinutesBy(acts, tags), tags(a), Duration(a))
  {
    Init(acts, a);
    var before := MinutesBy(acts, tags);
    assert TagsSeen(acts + [a], tags) == TagsSeen(acts, tags) + tags(a);
    forall k | k in TagsSeen(acts + [a], tags)
      ensures MinutesWith(acts + [a], tags, k)
           == (if k in before then before[k] else 0) + (if k in tags(a) then Duration(a) else 0)
    {
      if k !in TagsSeen(acts, tags) {
        MinutesWithUnseen(acts, tags, k);
      }
    }
  }

  /** A tag no activity carries has no minutes. */
  lemma {:induction false} MinutesWithUnseen<K>(acts: Activities, tags: Activity -> set<K>, k: K)
    requires k !in TagsSeen(acts, tags)
    ensures MinutesWith(acts, tags, k) == 0
  {
    if acts != [] {
      MinutesWithUnseen(acts[..|acts| - 1], tags, k);
    }
  }

  lemma AllOfSnoc(acts: Activities, a: Activity)
    ensures AllOf(acts + [a]) == AddToAll(AllOf(acts), a)
  {
    Init(acts, a);
    MinutesBySnoc(acts, ProjectsOf, a);
    MinutesBySnoc(acts, ActionsOf, a);
  }

  /** A day no activity starts on has the zero aggregate. */
  lemma DailyOfAbsent(acts: Activities, d: Date)
    requires d !in Days(acts)
    ensures DailyOf(acts, d) == ZeroDay(d)
  {
    OnAbsent(acts, d);
    assert MinutesBy([], ProjectsOf) == map[];
    assert MinutesBy([], ActionsOf) == map[];
  }

  lemma {:induction false} OnAbsent(acts: Activities, d: Date)
    requires d !in Days(acts)
    ensures On(acts, d) == []
  {
    if acts != [] {
      OnAbsent(acts[..|acts| - 1], d);
    }
  }

  lemma DailyOfSnoc(acts: Activities, a: Activity, d: Date)
    ensures DailyOf(acts + [a], d)
         == if DateOf(a.start) == d then AddToDay(DailyOf(acts, d), a) else DailyOf(acts, d)
  {
    Init(acts, a);
    if DateOf(a.start) == d {
      assert On(acts + [a], d) == On(acts, d) + [a];
      MinutesBySnoc(On(acts, d), ProjectsOf, a);
      MinutesBySnoc(On(acts, d), ActionsOf, a);
    } else {
      assert On(acts + [a], d) == On(acts, d);
    }
  }

  /** The fold's table has one entry per start date, holding that day's aggregate. */
  lemma {:induction false} DayTableMeaning(acts: Activities, d: Date)
    ensures d in DayTable(acts) <==> d in Days(acts)
    ensures d in DayTable(acts) ==> DayTable(acts)[d] == DailyOf(acts, d)
  {
    if acts != [] {
      var init, last := acts[..|acts| - 1], acts[|acts| - 1];
      assert acts == init + [last];
      DayTableMeaning(init, d);
      DailyOfSnoc(init, last, d);
      if d == DateOf(last.start) && d !in Days(init) {
        DailyOfAbsent(init, d);
      }
    }
  }

  // ---------------------------------------------------------------------------
  // aggregate
  // ---------------------------------------------------------------------------

  /**
   * The inner loops of the fold: dur more minutes for each key of keys, a key
   * seen for the first time starting from 0.
   */
  method AddMinutes<K>(m: map<K, int>, keys: set<K>, dur: int) returns (r: map<K, int>)
    ensures r == Credit(m, keys, dur)
  {
    r := m;
    var todo := keys;
    assert Credit(m, keys - todo, dur) == m;
    while todo != {}
      invariant todo <= keys
      invariant r == Credit(m, keys - todo, dur)
      decreases |todo|
    {
      NonEmpty(todo);
      var k :| k in todo;
      CreditStep(m, keys, todo, k, dur, r);
      r := r[k := (if k in r then r[k] else 0) + dur];
      todo := todo - {k};
    }
    assert keys - todo == keys;
  }

  lemma CreditStep<K>(m: map<K, int>, keys: set<K>, todo: set<K>, k: K, dur: int, r: map<K, int>)
    requires todo <= keys && k in todo && r == Credit(m, keys - todo, dur)
    ensures r[k := (if k in r then r[k] else 0) + dur] == Credit(m, keys - (todo - {k}), dur)
  {
    assert keys - (todo - {k}) == (keys - todo) + {k};
  }

  lemma NonEmpty<T>(s: set<T>)
    requires s != {}
    ensures exists x :: x in s
  {
    if forall x :: x !in s {
      assert false;
    }
  }

  /** The least element of a non-empty set of dates. */
  ghost function Least(s: set<Date>): (m: Date)
    requires s != {}
    ensures m in s && forall x :: x in s ==> m <= x
    decreases |s|
  {
    assert exists x :: x in s by {
      if forall x :: x !in s {
        assert false;
      }
    }
    var x :| x in s;
    var others := s - {x};
    assert forall z :: z in s ==> z == x || z in others;
    if others == {} then x
    else
      var y := Least(others);
      if x < y then x else y
  }

  /** What SortByDay keeps: daily lists, in order, the days of the table not in rest, all before those. */
  predicate SortedPart(table: map<Date, DailyAggregate>, daily: seq<DailyAggregate>, rest: set<Date>)
  {
    && rest <= table.Keys
    && DaysOf(daily) + rest == table.Keys
    && StrictlyByDay(daily)
    && (forall i :: 0 <= i < |daily| ==> daily[i].day in table && daily[i] == table[daily[i].day])
    && (forall i, d :: 0 <= i < |daily| && d in rest ==> daily[i].day < d)
  }

  lemma SortStep(table: map<Date, DailyAggregate>, daily: seq<DailyAggregate>, rest: set<Date>, d: Date)
    requires forall k :: k in table ==> table[k].day == k
    requires SortedPart(table, daily, rest)
    requires d in rest && forall e :: e in rest ==> d <= e
    ensures SortedPart(table, daily + [table[d]], rest - {d})
  {
    var daily' := daily + [table[d]];
    DaysOfSnoc(daily, table[d]);
    StrictSnoc(daily, table[d]);
    assert forall i :: 0 <= i < |daily'| ==> daily'[i].day in table && daily'[i] == table[daily'[i].day];
  }

  lemma DaysOfSnoc(daily: seq<DailyAggregate>, x: DailyAggregate)
    ensures DaysOf(daily + [x]) == DaysOf(daily) + {x.day}
  {
    assert forall e :: e in daily + [x] <==> e in daily || e == x;
  }

  lemma StrictSnoc(daily: seq<DailyAggregate>, x: DailyAggregate)
    requires StrictlyByDay(daily)
    requires forall i :: 0 <= i < |daily| ==> daily[i].day < x.day
    ensures StrictlyByDay(daily + [x])
  {
  }

  /** The entries of a table listed in ascending day order (the final sort by day). */
  method SortByDay(table: map<Date, DailyAggregate>) returns (daily: seq<DailyAggregate>)
    requires forall d :: d in table ==> table[d].day == d
    ensures StrictlyByDay(daily)
    ensures DaysOf(daily) == table.Keys
    ensures forall i :: 0 <= i < |daily| ==> daily[i] == table[daily[i].day]
  {
    daily := [];
    var rest := table.Keys;
    assert DaysOf(daily) == {};
    while rest != {}
      invariant SortedPart(table, daily, rest)
      decreases |rest|
    {
      ghost var least := Least(rest);
      var d :| d in rest && forall e :: e in rest ==> d <= e;
      SortStep(table, daily, rest, d);
      daily := daily + [table[d]];
      rest := rest - {d};
    }
  }

  /** The day table and the overall aggregate after one more activity of the list. */
  lemma AggregateStep(acts: Activities, i: nat)
    requires i < |acts|
    ensures DayTable(acts[..i + 1]) == Bump(DayTable(acts[..i]), acts[i])
    ensures AllOf(acts[..i + 1]) == AddToAll(AllOf(acts[..i]), acts[i])
  {
    assert acts[..i + 1] == acts[..i] + [acts[i]];
    Init(acts[..i], acts[i]);
    AllOfSnoc(acts[..i], acts[i]);
  }

  /**
   * `Aggregatable::aggregate`: one daily entry per distinct start date, in
   * strictly ascending day order, each holding the totals of the activities
   * starting that day, and the totals over all activities.
   */
  method Aggregate(acts: Activities) returns (r: Aggregates)
    ensures r.all == AllOf(acts)
    ensures StrictlyByDay(r.daily)
    ensures DaysOf(r.daily) == Days(acts)
    ensures forall i :: 0 <= i < |r.daily| ==> r.daily[i] == DailyOf(acts, r.daily[i].day)
  {
    var table: map<Date, DailyAggregate> := map[];
    var all := ZeroAll;
    var i := 0;
    while i < |acts|
      invariant 0 <= i <= |acts|
      invariant table == DayTable(acts[..i])
      invariant all == AllOf(acts[..i])
    {
      AggregateStep(acts, i);
      table, all := FoldStep(table, all, acts[i]);
      i := i + 1;
    }
    assert acts[..i] == acts;
    forall d | d in table ensures table[d].day == d && table[d] == DailyOf(acts, d) {
      DayTableMeaning(acts, d);
    }
    forall d ensures d in table <==> d in Days(acts) {
      DayTableMeaning(acts, d);
    }
    var daily := SortByDay(table);
    r := Aggregates(daily, all);
  }

  /**
   * The closure of the fold: the activity's minutes go to the entry of its
   * start day (created empty when missing) and to the overall aggregate.
   */
  method FoldStep(table: map<Date, DailyAggregate>, all: AllAggregate, a: Activity)
    returns (table': map<Date, DailyAggregate>, all': AllAggregate)
    ensures table' == Bump(table, a)
    ensures all' == AddToAll(all, a)
  {
    var day := DateOf(a.start);
    var entry := if day in table then table[day] else ZeroDay(day);
    var duration := a.end - a.start;

    var dayProjects := AddMinutes(entry.projectMinutes, a.projects, duration);
    var allProjects := AddMinutes(all.projectMinutes, a.projects, duration);
    var dayActions := AddMinutes(entry.actionMinutes, a.actions, duration);
    var allActions := AddMinutes(all.actionMinutes, a.actions, duration);

    table' := table[day := DailyAggregate(entry.day, entry.totalMinutes + duration, dayProjects, dayActions)];
    all' := AllAggregate(all.totalMinutes + duration, allProjects, allActions);
  }

  // ---------------------------------------------------------------------------
  // The daily totals add up to the overall total
  // ---------------------------------------------------------------------------

  function SumTotals(daily: seq<DailyAggregate>): int
  {
    if daily == [] then 0 else SumTotals(daily[..|daily| - 1]) + daily[|daily| - 1].totalMinutes
  }

  /** The activities starting on one of the days of S. */
  function InDays(acts: Activities, S: set<Date>): Activities
  {
    if acts == [] then []
    else InDays(acts[..|acts| - 1], S)
         + (if DateOf(acts[|acts| - 1].start) in S then [acts[|acts| - 1]] else [])
  }

  lemma TotalAppend(p: Activities, q: Activities)
    ensures TotalMinutes(p + q) == TotalMinutes(p) + TotalMinutes(q)
    decreases |q|
  {
    if q != [] {
      assert (p + q)[..|p + q| - 1] == p + q[..|q| - 1];
      assert (p + q)[|p + q| - 1] == q[|q| - 1];
      TotalAppend(p, q[..|q| - 1]);
    } else {
      assert p + q == p;
    }
  }

  lemma {:induction false} InDaysAdd(acts: Activities, S: set<Date>, d: Date)
    requires d !in S
    ensures TotalMinutes(InDays(acts, S + {d})) == TotalMinutes(InDays(acts, S)) + TotalMinutes(On(acts, d))
  {
    if acts != [] {
      var init, last := acts[..|acts| - 1], acts[|acts| - 1];
      InDaysAdd(init, S, d);
      TotalAppend(InDays(init, S + {d}), if DateOf(last.start) in S + {d} then [last] else []);
      TotalAppend(InDays(init, S), if DateOf(last.start) in S then [last] else []);
      TotalAppend(On(init, d), if DateOf(last.start) == d then [last] else []);
    }
  }

  lemma {:induction false} InDaysAll(acts: Activities, S: set<Date>)
    requires Days(acts) <= S
    ensures InDays(acts, S) == acts
  {
    if acts != [] {
      InDaysAll(acts[..|acts| - 1], S);
    }
  }

  lemma {:induction false} SumTotalsDays(acts: Activities, daily: seq<DailyAggregate>)
    requires StrictlyByDay(daily)
    requires forall i :: 0 <= i < |daily| ==> daily[i] == DailyOf(acts, daily[i].day)
    ensures SumTotals(daily) == TotalMinutes(InDays(acts, DaysOf(daily)))
  {
    if daily == [] {
      assert DaysOf(daily) == {};
      InDaysNone(acts);
    } else {
      var init, last := daily[..|daily| - 1], daily[|daily| - 1];
      SumTotalsDays(acts, init);
      assert DaysOf(daily) == DaysOf(init) + {last.day};
      InDaysAdd(acts, DaysOf(init), last.day);
    }
  }

  lemma {:induction false} InDaysNone(acts: Activities)
    ensures InDays(acts, {}) == []
  {
    if acts != [] {
      InDaysNone(acts[..|acts| - 1]);
    }
  }

  /** The daily totals of the aggregate of a list add up to its overall total. */
  lemma DailyTotalsAddUp(acts: Activities, r: Aggregates)
    requires r.all == AllOf(acts)
    requires StrictlyByDay(r.daily) && DaysOf(r.daily) == Days(acts)
    requires forall i :: 0 <= i < |r.daily| ==> r.daily[i] == DailyOf(acts, r.daily[i].day)
    ensures SumTotals(r.daily) == r.all.totalMinutes
  {
    SumTotalsDays(acts, r.daily);
    InDaysAll(acts, Days(acts));
  }

  // ---------------------------------------------------------------------------
  // over_specific_days
  // ---------------------------------------------------------------------------

  /**
   * The days d..end, taking daily[c] for day d when its day matches and then
   * moving the cursor c on by one, and a zero day otherwise.
   */
  function Fill(daily: seq<DailyAggregate>, c: nat, d: Date, end: Date): seq<DailyAggregate>
    requires c <= |daily|
    decreases end - d
  {
    if end < d then []
    else if c < |daily| && daily[c].day == d then [daily[c]] + Fill(daily, c + 1, d + 1, end)
    else [ZeroDay(d)] + Fill(daily, c, d + 1, end)
  }

  /** Fill lists each day of d..end once, in order. */
  lemma {:induction false} FillDays(daily: seq<DailyAggregate>, c: nat, d: Date, end: Date)
    requires c <= |daily|
    ensures |Fill(daily, c, d, end)| == if end < d then 0 else end - d + 1
    ensures forall i :: 0 <= i < |Fill(daily, c, d, end)| ==> Fill(daily, c, d, end)[i].day == d + i
    decreases end - d
  {
    if d <= end {
      if c < |daily| && daily[c].day == d {
        FillDays(daily, c + 1, d + 1, end);
      } else {
        FillDays(daily, c, d + 1, end);
      }
    }
  }

  /** `Aggregates::over_specific_days`. */
  method OverSpecificDays(self: Aggregates, start: Date, end: Date) returns (r: Aggregates)
    ensures end < start ==> r == Aggregates([], ZeroAll)
    ensures start <= end ==> r == Aggregates(Fill(self.daily, 0, start, end), self.all)
    ensures start <= end ==> |r.daily| == end - start + 1
    ensures forall i :: 0 <= i < |r.daily| ==> r.daily[i].day == start + i
  {
    if end < start {
      return Aggregates([], ZeroAll);
    }
    var dailyRes: seq<DailyAggregate> := [];
    var current := start;
    var cursor := 0;
    while current <= end
      invariant start <= current <= end + 1
      invariant 0 <= cursor <= |self.daily|
      invariant dailyRes + Fill(self.daily, cursor, current, end) == Fill(self.daily, 0, start, end)
      decreases end - current
    {
      ghost var rest := Fill(self.daily, cursor, current, end);
      if cursor < |self.daily| && self.daily[cursor].day == current {
        assert rest == [self.daily[cursor]] + Fill(self.daily, cursor + 1, current + 1, end);
        Regroup(dailyRes, [self.daily[cursor]], Fill(self.daily, cursor + 1, current + 1, end));
        dailyRes := dailyRes + [self.daily[cursor]];
        cursor := cursor + 1;
      } else {
        assert rest == [ZeroDay(current)] + Fill(self.daily, cursor, current + 1, end);
        Regroup(dailyRes, [ZeroDay(current)], Fill(self.daily, cursor, current + 1, end));
        dailyRes := dailyRes + [ZeroDay(current)];
      }
      current := current + 1;
    }
    assert dailyRes == Fill(self.daily, 0, start, end);
    FillDays(self.daily, 0, start, end);
    r := Aggregates(dailyRes, self.all);
  }

  lemma Regroup(p: seq<DailyAggregate>, q: seq<DailyAggregate>, t: seq<DailyAggregate>)
    ensures p + (q + t) == (p + q) + t
  {
  }

  /** The entry for day x from position c on, or the zero day when none is there. */
  function DayEntryFrom(daily: seq<DailyAggregate>, c: nat, x: Date): DailyAggregate
    requires c <= |daily|
    decreases |daily| - c
  {
    if c == |daily| then ZeroDay(x)
    else if daily[c].day == x then daily[c]
    else DayEntryFrom(daily, c + 1, x)
  }

  lemma {:induction false} DayEntryBefore(daily: seq<DailyAggregate>, c: nat, x: Date)
    requires c <= |daily|
    requires forall j :: c <= j < |daily| ==> x < daily[j].day
    ensures DayEntryFrom(daily, c, x) == ZeroDay(x)
    decreases |daily| - c
  {
    if c < |daily| {
      DayEntryBefore(daily, c + 1, x);
    }
  }

  /**
   * When the entries are in ascending day order and none comes before the
   * current day, the cursor never falls behind: each day gets its own entry
   * if there is one.
   */
  lemma {:induction false} FillFinds(daily: seq<DailyAggregate>, c: nat, d: Date, end: Date, i: nat)
    requires c <= |daily| && StrictlyByDay(daily)
    requires c < |daily| ==> d <= daily[c].day
    requires i < |Fill(daily, c, d, end)|
    ensures Fill(daily, c, d, end)[i] == DayEntryFrom(daily, c, d + i)
    decreases end - d
  {
    if c < |daily| && daily[c].day == d {
      if i > 0 {
        FillFinds(daily, c + 1, d + 1, end, i - 1);
      }
    } else if i == 0 {
      DayEntryBefore(daily, c, d);
    } else {
      FillFinds(daily, c, d + 1, end, i - 1);
    }
  }

  lemma {:induction false} DayEntryOfTable(acts: Activities, daily: seq<DailyAggregate>, c: nat, x: Date)
    requires c <= |daily|
    requires forall j :: c <= j < |daily| ==> daily[j] == DailyOf(acts, daily[j].day)
    requires x in Days(acts) ==> exists j :: c <= j < |daily| && daily[j].day == x
    ensures DayEntryFrom(daily, c, x) == DailyOf(acts, x)
    decreases |daily| - c
  {
    if c == |daily| {
      DailyOfAbsent(acts, x);
    } else if daily[c].day != x {
      DayEntryOfTable(acts, daily, c + 1, x);
    }
  }

  /**
   * Laid over a range starting no later than its first day, the aggregate of
   * a list gives for every day of the range exactly that day's aggregate.
   */
  lemma OverAggregate(acts: Activities, daily: seq<DailyAggregate>, start: Date, end: Date)
    requires StrictlyByDay(daily) && DaysOf(daily) == Days(acts)
    requires forall i :: 0 <= i < |daily| ==> daily[i] == DailyOf(acts, daily[i].day)
    requires daily != [] ==> start <= daily[0].day
    ensures forall i :: 0 <= i < |Fill(daily, 0, start, end)| ==> Fill(daily, 0, start, end)[i] == DailyOf(acts, start + i)
  {
    forall i | 0 <= i < |Fill(daily, 0, start, end)|
      ensures Fill(daily, 0, start, end)[i] == DailyOf(acts, start + i)
    {
      OverAggregateAt(acts, daily, start, end, i);
    }
  }

  lemma OverAggregateAt(acts: Activities, daily: seq<DailyAggregate>, start: Date, end: Date, i: nat)
    requires StrictlyByDay(daily) && DaysOf(daily) == Days(acts)
    requires forall i :: 0 <= i < |daily| ==> daily[i] == DailyOf(acts, daily[i].day)
    requires daily != [] ==> start <= daily[0].day
    requires i < |Fill(daily, 0, start, end)|
    ensures Fill(daily, 0, start, end)[i] == DailyOf(acts, start + i)
  {
    FillFromStart(daily, start, end, i);
    DayEntryOfDays(acts, daily, start + i);
  }

  lemma FillFromStart(daily: seq<DailyAggregate>, start: Date, end: Date, i: nat)
    requires StrictlyByDay(daily)
    requires daily != [] ==> start <= daily[0].day
    requires i < |Fill(daily, 0, start, end)|
    ensures Fill(daily, 0, start, end)[i] == DayEntryFrom(daily, 0, start + i)
  {
    FillFinds(daily, 0, start, end, i);
  }

  lemma DayEntryOfDays(acts: Activities, daily: seq<DailyAggregate>, x: Date)
    requires DaysOf(daily) == Days(acts)
    requires forall i :: 0 <= i < |daily| ==> daily[i] == DailyOf(acts, daily[i].day)
    ensures DayEntryFrom(daily, 0, x) == DailyOf(acts, x)
  {
    if x in Days(acts) {
      assert x in DaysOf(daily);
    }
    DayEntryOfTable(acts, daily, 0, x);
  }

  /**
   * The cursor only moves on an exact match: once the entry under it lies
   * before the current day, every later day is a zero day.
   */
  lemma {:induction false} FillStuck(daily: seq<DailyAggregate>, c: nat, d: Date, end: Date)
    requires c < |daily| && daily[c].day < d
    ensures forall i :: 0 <= i < |Fill(daily, c, d, end)| ==> Fill(daily, c, d, end)[i] == ZeroDay(d + i)
    decreases end - d
  {
    if d <= end {
      FillStuck(daily, c, d + 1, end);
    }
  }

  /** So when the first entry precedes the start of the range, the range is all zero days. */
  lemma EarlyFirstEntry(daily: seq<DailyAggregate>, start: Date, end: Date)
    requires daily != [] && daily[0].day < start
    ensures forall i :: 0 <= i < |Fill(daily, 0, start, end)| ==> Fill(daily, 0, start, end)[i] == ZeroDay(start + i)
  {
    FillStuck(daily, 0, start, end);
  }

  // ---------------------------------------------------------------------------
  // The worked example: an hour of code one day, an hour and a minute of
  // review three days later, both on projects tag2 and tag3
  // ---------------------------------------------------------------------------

  function CodeHour(s1: DateTime): Activity
  {
    Activity(s1, s1 + 60, "description", {"tag2", "tag3"}, {Code})
  }

  function ReviewHour(s2: DateTime): Activity
  {
    Activity(s2, s2 + 61, "description", {"tag2", "tag3"}, {Review})
  }

  lemma MinutesByEmpty<K>(tags: Activity -> set<K>)
    ensures MinutesBy([], tags) == map[]
  {
  }

  lemma ExampleTotals(s1: DateTime, s2: DateTime)
    ensures AllOf([CodeHour(s1), ReviewHour(s2)])
         == AllAggregate(121, map["tag2" := 121, "tag3" := 121], map[Code := 60, Review := 61])
  {
    var a1, a2 := CodeHour(s1), ReviewHour(s2);
    assert [a1, a2] == [a1] + [a2] && [a1] == [] + [a1];
    assert TotalMinutes([a1, a2]) == 121 by {
      TotalAppend([a1], [a2]);
      TotalAppend([], [a1]);
    }
    MinutesByEmpty(ProjectsOf);
    MinutesBySnoc([], ProjectsOf, a1);
    MinutesBySnoc([a1], ProjectsOf, a2);
    CreditTags(60);
    assert Credit(map["tag2" := 60, "tag3" := 60], {"tag2", "tag3"}, 61) == map["tag2" := 121, "tag3" := 121];
    MinutesByEmpty(ActionsOf);
    MinutesBySnoc([], ActionsOf, a1);
    MinutesBySnoc([a1], ActionsOf, a2);
    CreditAction(Code, 60);
    assert Credit(map[Code := 60], {Review}, 61) == map[Code := 60, Review := 61];
  }

  lemma ExampleDays(s1: DateTime, s2: DateTime)
    requires DateOf(s2) == DateOf(s1) + 3
    ensures Days([CodeHour(s1), ReviewHour(s2)]) == {DateOf(s1), DateOf(s2)}
    ensures DailyOf([CodeHour(s1), ReviewHour(s2)], DateOf(s1))
         == DailyAggregate(DateOf(s1), 60, map["tag2" := 60, "tag3" := 60], map[Code := 60])
    ensures DailyOf([CodeHour(s1), ReviewHour(s2)], DateOf(s2))
         == DailyAggregate(DateOf(s2), 61, map["tag2" := 61, "tag3" := 61], map[Review := 61])
  {
    var a1, a2 := CodeHour(s1), ReviewHour(s2);
    Pair(a1, a2, DateOf(s1));
    Pair(a1, a2, DateOf(s2));
    assert On([a1, a2], DateOf(s1)) == [a1];
    assert On([a1, a2], DateOf(s2)) == [a2];
    DayOfOne([a1, a2], DateOf(s1), a1);
    DayOfOne([a1, a2], DateOf(s2), a2);
    CreditTags(60);
    CreditTags(61);
    CreditAction(Code, 60);
    CreditAction(Review, 61);
  }

  /** A day with a single activity holds just that activity's minutes. */
  lemma DayOfOne(acts: Activities, d: Date, a: Activity)
    requires On(acts, d) == [a]
    ensures DailyOf(acts, d)
         == DailyAggregate(d, Duration(a), Credit(map[], a.projects, Duration(a)), Credit(map[], a.actions, Duration(a)))
  {
    assert [a][..0] == [];
    assert TotalMinutes([a]) == Duration(a);
    MinutesByOne(a, ProjectsOf);
    MinutesByOne(a, ActionsOf);
    assert MinutesBy([a], ProjectsOf) == Credit(map[], a.projects, Duration(a));
    assert MinutesBy([a], ActionsOf) == Credit(map[], a.actions, Duration(a));
  }

  lemma CreditTags(n: int)
    ensures Credit(map[], {"tag2", "tag3"}, n) == map["tag2" := n, "tag3" := n]
  {
  }

  lemma CreditAction(a: Action, n: int)
    ensures Credit(map[], {a}, n) == map[a := n]
  {
  }

  lemma Pair(a1: Activity, a2: Activity, d: Date)
    ensures On([a1, a2], d)
         == (if DateOf(a1.start) == d then [a1] else []) + (if DateOf(a2.start) == d then [a2] else [])
    ensures Days([a1, a2]) == {DateOf(a1.start), DateOf(a2.start)}
  {
    var acts := [a1, a2];
    assert acts[..|acts| - 1] == [a1] && acts[|acts| - 1] == a2;
    assert [a1][..0] == [];
    assert On([a1], d) == (if DateOf(a1.start) == d then [a1] else []);
    assert Days([a1]) == {DateOf(a1.start)};
  }

  lemma MinutesByOne<K>(a: Activity, tags: Activity -> set<K>)
    ensures MinutesBy([a], tags) == Credit(map[], tags(a), Duration(a))
  {
    assert [a] == [] + [a];
    MinutesByEmpty(tags);
    MinutesBySnoc([], tags, a);
  }

  /** Over the four days from the first entry's day, the two middle days are zero days. */
  lemma ExampleOverDays(e1: DailyAggregate, e2: DailyAggregate)
    requires e2.day == e1.day + 3
    ensures Fill([e1, e2], 0, e1.day, e2.day) == [e1, ZeroDay(e1.day + 1), ZeroDay(e1.day + 2), e2]
  {
    var daily := [e1, e2];
    var d := e1.day;
    assert Fill(daily, 2, d + 4, d + 3) == [];
    assert Fill(daily, 1, d + 3, d + 3) == [e2];
    assert Fill(daily, 1, d + 2, d + 3) == [ZeroDay(d + 2), e2];
    assert Fill(daily, 1, d + 1, d + 3) == [ZeroDay(d + 1), ZeroDay(d + 2), e2];
  }
}
