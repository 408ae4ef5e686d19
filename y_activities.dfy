/**
 * The minute series of the graph (`YActivities::new`): for every scale and
 * every segment of that scale, the minutes of the activities placed in the
 * segment, in total, per action and per project. Activities are placed by
 * one sweep over the list with a cursor per scale that only moves forward.
 */
module GraphSeries {
  import C = Calendar
  import A = Activities
  import opened Scales
  import X = XSegments

  /** An activity as the graph code reads it: a single action and a set of projects. */
  datatype Activity = Activity(
    start: C.DateTime,
    end: C.DateTime,
    description: string,
    action: A.Action,
    projects: set<string>)

  /** Signed whole minutes from start to end. */
  function Duration(a: Activity): int
  {
    a.end - a.start
  }

  /** The series of every scale: in total, per action and per project. */
  datatype YActivities = YActivities(
    total: map<Scale, seq<int>>,
    actions: map<Scale, map<A.Action, seq<int>>>,
    projects: map<Scale, map<string, seq<int>>>)

  /** The activities one series counts. */
  datatype Keep = Every | OfAction(action: A.Action) | OfProject(project: string)

  predicate Kept(k: Keep, a: Activity)
  {
    match k
    case Every => true
    case OfAction(x) => a.action == x
    case OfProject(p) => p in a.projects
  }

  // ---------------------------------------------------------------------------
  // Specification of the sweep
  // ---------------------------------------------------------------------------

  function ZeroSeries(n: nat): (r: seq<int>)
    ensures |r| == n && forall j :: 0 <= j < n ==> r[j] == 0
  {
    if n == 0 then [] else ZeroSeries(n - 1) + [0]
  }

  /** Adds dur at position c. */
  function Bump(series: seq<int>, c: nat, dur: int): seq<int>
    requires c < |series|
  {
    series[c := series[c] + dur]
  }

  /**
   * Every activity starts before the last segment ends: the condition under
   * which the cursor loop stops inside the segment list.
   */
  predicate Fits(segs: seq<X.XSegment>, acts: seq<Activity>)
  {
    forall i :: 0 <= i < |acts| ==> |segs| > 0 && acts[i].start < segs[|segs| - 1].end
  }

  /** The cursor loop: from c on, the first segment that ends after t. */
  function Advance(segs: seq<X.XSegment>, c: nat, t: C.DateTime): (r: nat)
    requires c < |segs| && t < segs[|segs| - 1].end
    ensures c <= r < |segs| && t < segs[r].end
    ensures forall j :: c <= j < r ==> segs[j].end <= t
    decreases |segs| - c
  {
    if t < segs[c].end then c else Advance(segs, c + 1, t)
  }

  /** The cursor once the activities of done are placed: where the last of them went. */
  function Cursor(segs: seq<X.XSegment>, done: seq<Activity>): (c: nat)
    requires Fits(segs, done)
    ensures done == [] ==> c == 0
    ensures done != [] ==> c < |segs| && done[|done| - 1].start < segs[c].end
  {
    if done == [] then 0
    else
      FitsPrefix(segs, done, |done| - 1);
      Advance(segs, Cursor(segs, done[..|done| - 1]), done[|done| - 1].start)
  }

  /** One series of a scale: the duration of each counted activity added at the position it is placed. */
  function Series(segs: seq<X.XSegment>, done: seq<Activity>, k: Keep): (r: seq<int>)
    requires Fits(segs, done)
    ensures |r| == |segs|
  {
    if done == [] then ZeroSeries(|segs|)
    else
      FitsPrefix(segs, done, |done| - 1);
      var prev := Series(segs, done[..|done| - 1], k);
      var a := done[|done| - 1];
      if Kept(k, a) then Bump(prev, Cursor(segs, done), Duration(a)) else prev
  }

  /** The series of one scale per action. */
  function ActionSpec(segs: seq<X.XSegment>, done: seq<Activity>, actions: set<A.Action>): (m: map<A.Action, seq<int>>)
    requires Fits(segs, done)
  {
    map x | x in actions :: Series(segs, done, OfAction(x))
  }

  /** The series of one scale per project. */
  function ProjectSpec(segs: seq<X.XSegment>, done: seq<Activity>, projects: set<string>): (m: map<string, seq<int>>)
    requires Fits(segs, done)
  {
    map p | p in projects :: Series(segs, done, OfProject(p))
  }

  predicate FitsAll(values: map<Scale, seq<X.XSegment>>, done: seq<Activity>)
  {
    forall s :: s in values ==> Fits(values[s], done)
  }

  /** The series of every scale of values once the activities of done are placed. */
  function Spec(values: map<Scale, seq<X.XSegment>>, done: seq<Activity>, actions: set<A.Action>, projects: set<string>): (r: YActivities)
    requires FitsAll(values, done)
  {
    YActivities(
      map s | s in values :: Series(values[s], done, Every),
      map s | s in values :: ActionSpec(values[s], done, actions),
      map s | s in values :: ProjectSpec(values[s], done, projects))
  }

  // ---------------------------------------------------------------------------
  // What the series mean
  // ---------------------------------------------------------------------------

  lemma {:induction false} Extend(acts: seq<Activity>, n: nat)
    requires n < |acts|
    ensures acts[..n + 1] == acts[..n] + [acts[n]]
  {
    var l, r := acts[..n + 1], acts[..n] + [acts[n]];
    forall i | 0 <= i < |l|
      ensures l[i] == r[i]
    {
    }
  }

  lemma {:induction false} FitsPrefix(segs: seq<X.XSegment>, acts: seq<Activity>, n: nat)
    requires Fits(segs, acts) && n <= |acts|
    ensures Fits(segs, acts[..n])
  {
    var pre := acts[..n];
    assert |pre| == n;
    forall i | 0 <= i < n
      ensures |segs| > 0 && pre[i].start < segs[|segs| - 1].end
    {
      assert pre[i] == acts[i];
    }
  }

  /** Placing one more activity: the cursor moves on from where it was, and the counting series grow at it. */
  lemma {:induction false} Snoc(segs: seq<X.XSegment>, done: seq<Activity>, a: Activity, k: Keep)
    requires Fits(segs, done + [a])
    ensures Fits(segs, done)
    ensures |segs| > 0 && a.start < segs[|segs| - 1].end && Cursor(segs, done) < |segs|
    ensures Cursor(segs, done + [a]) == Advance(segs, Cursor(segs, done), a.start)
    ensures Series(segs, done + [a], k)
         == if Kept(k, a) then Bump(Series(segs, done, k), Cursor(segs, done + [a]), Duration(a)) else Series(segs, done, k)
  {
    assert (done + [a])[..|done|] == done;
    assert (done + [a])[|done|] == a;
    FitsPrefix(segs, done + [a], |done|);
  }

  function Sum(s: seq<int>): int
  {
    if s == [] then 0 else Sum(s[..|s| - 1]) + s[|s| - 1]
  }

  lemma {:induction false} SumBump(s: seq<int>, c: nat, d: int)
    requires c < |s|
    ensures Sum(Bump(s, c, d)) == Sum(s) + d
    decreases |s|
  {
    var n := |s| - 1;
    var t := Bump(s, c, d);
    if c < n {
      assert t[..n] == Bump(s[..n], c, d);
      SumBump(s[..n], c, d);
    } else {
      assert t[..n] == s[..n];
    }
  }

  lemma {:induction false} SumZero(n: nat)
    ensures Sum(ZeroSeries(n)) == 0
  {
    if n > 0 {
      assert ZeroSeries(n)[..n - 1] == ZeroSeries(n - 1);
      SumZero(n - 1);
    }
  }

  /** Minutes of the activities a series counts. */
  function KeptMinutes(done: seq<Activity>, k: Keep): int
  {
    if done == [] then 0
    else KeptMinutes(done[..|done| - 1], k) + (if Kept(k, done[|done| - 1]) then Duration(done[|done| - 1]) else 0)
  }

  /** A series adds up to the minutes of the activities it counts, at every scale. */
  lemma {:induction false} SeriesSum(segs: seq<X.XSegment>, done: seq<Activity>, k: Keep)
    requires Fits(segs, done)
    ensures Sum(Series(segs, done, k)) == KeptMinutes(done, k)
    decreases |done|
  {
    if done == [] {
      SumZero(|segs|);
    } else {
      var init, a := done[..|done| - 1], done[|done| - 1];
      assert done == init + [a];
      Snoc(segs, init, a, k);
      SeriesSum(segs, init, k);
      if Kept(k, a) {
        SumBump(Series(segs, init, k), Cursor(segs, done), Duration(a));
      }
    }
  }

  /** With a single segment (the All scale) the series is that one sum. */
  lemma {:induction false} SingleSegment(segs: seq<X.XSegment>, done: seq<Activity>, k: Keep)
    requires |segs| == 1 && Fits(segs, done)
    ensures Series(segs, done, k) == [KeptMinutes(done, k)]
  {
    SeriesSum(segs, done, k);
    var r := Series(segs, done, k);
    assert r == r[..0] + [r[0]];
  }

  /** Every activity is counted at the same position by the total and by the series of its action. */
  lemma {:induction false} TotalByActions(segs: seq<X.XSegment>, done: seq<Activity>, j: nat)
    requires Fits(segs, done) && j < |segs|
    ensures Series(segs, done, Every)[j]
         == Series(segs, done, OfAction(A.Review))[j] + Series(segs, done, OfAction(A.Meeting))[j]
          + Series(segs, done, OfAction(A.Research))[j] + Series(segs, done, OfAction(A.Code))[j]
          + Series(segs, done, OfAction(A.Docs))[j]
    decreases |done|
  {
    if done != [] {
      var init, a := done[..|done| - 1], done[|done| - 1];
      assert done == init + [a];
      Snoc(segs, init, a, Every);
      Snoc(segs, init, a, OfAction(A.Review));
      Snoc(segs, init, a, OfAction(A.Meeting));
      Snoc(segs, init, a, OfAction(A.Research));
      Snoc(segs, init, a, OfAction(A.Code));
      Snoc(segs, init, a, OfAction(A.Docs));
      TotalByActions(segs, init, j);
    }
  }

  /** The cursor never moves back. */
  lemma {:induction false} CursorMonotone(segs: seq<X.XSegment>, acts: seq<Activity>, i: nat, j: nat)
    requires Fits(segs, acts) && i <= j <= |acts|
    ensures Fits(segs, acts[..i]) && Fits(segs, acts[..j])
    ensures Cursor(segs, acts[..i]) <= Cursor(segs, acts[..j])
    decreases j
  {
    FitsPrefix(segs, acts, i);
    FitsPrefix(segs, acts, j);
    if i < j {
      CursorMonotone(segs, acts, i, j - 1);
      assert acts[..j] == acts[..j - 1] + [acts[j - 1]];
      Snoc(segs, acts[..j - 1], acts[j - 1], Every);
    }
  }

  /** Starting the loop past segments that end by t changes nothing. */
  lemma {:induction false} AdvanceFrom(segs: seq<X.XSegment>, c: nat, t: C.DateTime)
    requires c < |segs| && t < segs[|segs| - 1].end
    requires forall j :: 0 <= j < c ==> segs[j].end <= t
    ensures Advance(segs, c, t) == Advance(segs, 0, t)
    decreases c
  {
    if c > 0 {
      AdvanceFrom(segs, c - 1, t);
    }
  }

  predicate StartsSorted(acts: seq<Activity>)
  {
    forall i, j :: 0 <= i <= j < |acts| ==> acts[i].start <= acts[j].start
  }

  /**
   * With the activities sorted by start, each is placed at the first segment
   * that ends after its start.
   */
  lemma {:induction false} PlacedFirst(segs: seq<X.XSegment>, acts: seq<Activity>, i: nat)
    requires Fits(segs, acts) && StartsSorted(acts) && i < |acts|
    ensures Fits(segs, acts[..i + 1])
    ensures Cursor(segs, acts[..i + 1]) == Advance(segs, 0, acts[i].start)
    decreases i
  {
    FitsPrefix(segs, acts, i + 1);
    assert acts[..i + 1] == acts[..i] + [acts[i]];
    Snoc(segs, acts[..i], acts[i], Every);
    if i > 0 {
      PlacedFirst(segs, acts, i - 1);
      assert acts[..i - 1 + 1] == acts[..i];
      AdvanceFrom(segs, Cursor(segs, acts[..i]), acts[i].start);
    }
  }

  /**
   * On chained segments, an activity sorted among the others and starting
   * no earlier than the first segment is placed in the segment holding its start.
   */
  lemma {:induction false} PlacedInside(segs: seq<X.XSegment>, acts: seq<Activity>, i: nat)
    requires Fits(segs, acts) && StartsSorted(acts) && i < |acts|
    requires X.Chained(segs) && |segs| > 0 && segs[0].start <= acts[i].start
    ensures Fits(segs, acts[..i + 1])
    ensures var c := Cursor(segs, acts[..i + 1]); segs[c].start <= acts[i].start < segs[c].end
  {
    PlacedFirst(segs, acts, i);
    var c := Cursor(segs, acts[..i + 1]);
    if c > 0 {
      assert segs[c - 1].end == segs[c].start;
    }
  }

  // ---------------------------------------------------------------------------
  // YActivities::new
  // ---------------------------------------------------------------------------

  /** The `while` loop moving a scale's cursor to the first segment that ends after t. */
  method AdvanceCursor(segs: seq<X.XSegment>, c: nat, t: C.DateTime) returns (r: nat)
    requires c < |segs| && t < segs[|segs| - 1].end
    ensures r == Advance(segs, c, t)
  {
    r := c;
    while t >= segs[r].end
      invariant c <= r < |segs| && Advance(segs, r, t) == Advance(segs, c, t)
      decreases |segs| - r
    {
      r := r + 1;
    }
  }

  /** The `for_each` over an activity's projects: each of their series grows at c. */
  method CreditProjects(m: map<string, seq<int>>, ps: set<string>, c: nat, dur: int) returns (r: map<string, seq<int>>)
    requires ps <= m.Keys && forall p :: p in ps ==> c < |m[p]|
    ensures r.Keys == m.Keys
    ensures forall p :: p in r ==> r[p] == if p in ps then Bump(m[p], c, dur) else m[p]
  {
    r := m;
    var todo := ps;
    while todo != {}
      invariant todo <= ps && r.Keys == m.Keys
      invariant forall p :: p in r ==> r[p] == if p in ps && p !in todo then Bump(m[p], c, dur) else m[p]
      decreases |todo|
    {
      var p :| p in todo;
      r := r[p := Bump(r[p], c, dur)];
      todo := todo - {p};
    }
  }

  /** Placing one activity at position c keeps a scale's per-action series those of the sweep. */
  lemma {:induction false} ActionStep(segs: seq<X.XSegment>, done: seq<Activity>, a: Activity, actions: set<A.Action>, c: nat)
    requires Fits(segs, done + [a]) && a.action in actions
    requires c == Cursor(segs, done + [a])
    ensures Fits(segs, done) && c < |segs|
    ensures var m := ActionSpec(segs, done, actions);
            m[a.action := Bump(m[a.action], c, Duration(a))] == ActionSpec(segs, done + [a], actions)
  {
    Snoc(segs, done, a, Every);
    var m := ActionSpec(segs, done, actions);
    var m' := m[a.action := Bump(m[a.action], c, Duration(a))];
    forall x | x in actions
      ensures m'[x] == ActionSpec(segs, done + [a], actions)[x]
    {
      Snoc(segs, done, a, OfAction(x));
    }
  }

  /** Placing one activity at position c keeps a scale's per-project series those of the sweep. */
  lemma {:induction false} ProjectStep(segs: seq<X.XSegment>, done: seq<Activity>, a: Activity, projects: set<string>,
                    c: nat, credited: map<string, seq<int>>)
    requires Fits(segs, done + [a]) && a.projects <= projects
    requires c == Cursor(segs, done + [a])
    requires Fits(segs, done) && credited.Keys == projects && c < |segs|
    requires forall p :: p in credited ==>
               credited[p] == var m := ProjectSpec(segs, done, projects); if p in a.projects then Bump(m[p], c, Duration(a)) else m[p]
    ensures credited == ProjectSpec(segs, done + [a], projects)
  {
    forall p | p in projects
      ensures credited[p] == ProjectSpec(segs, done + [a], projects)[p]
    {
      Snoc(segs, done, a, OfProject(p));
    }
  }

  /** One scale's series and cursor once the activities of done are placed. */
  predicate ColumnOf(segs: seq<X.XSegment>, done: seq<Activity>, actions: set<A.Action>, projects: set<string>,
                     total: seq<int>, byAction: map<A.Action, seq<int>>, byProject: map<string, seq<int>>, cursor: nat)
  {
    && Fits(segs, done) && cursor == Cursor(segs, done)
    && total == Series(segs, done, Every)
    && byAction == ActionSpec(segs, done, actions)
    && byProject == ProjectSpec(segs, done, projects)
  }

  /** The state of the sweep at scale s once the activities of done are placed. */
  predicate Column(values: map<Scale, seq<X.XSegment>>, done: seq<Activity>, actions: set<A.Action>, projects: set<string>,
                   total: map<Scale, seq<int>>, byAction: map<Scale, map<A.Action, seq<int>>>,
                   byProject: map<Scale, map<string, seq<int>>>, cursor: map<Scale, nat>, s: Scale)
  {
    && s in values && s in total && s in byAction && s in byProject && s in cursor
    && ColumnOf(values[s], done, actions, projects, total[s], byAction[s], byProject[s], cursor[s])
  }

  /**
   * One activity at one scale: move the scale's cursor, then add the duration
   * at the cursor to the total, to the series of the activity's action and to
   * the series of each of its projects.
   */
  method PlaceAt(segs: seq<X.XSegment>, done: seq<Activity>, a: Activity, actions: set<A.Action>, projects: set<string>,
                 total: seq<int>, byAction: map<A.Action, seq<int>>, byProject: map<string, seq<int>>, cursor: nat)
    returns (total': seq<int>, byAction': map<A.Action, seq<int>>, byProject': map<string, seq<int>>, cursor': nat)
    requires ColumnOf(segs, done, actions, projects, total, byAction, byProject, cursor)
    requires Fits(segs, done + [a]) && a.action in actions && a.projects <= projects
    ensures ColumnOf(segs, done + [a], actions, projects, total', byAction', byProject', cursor')
  {
    Snoc(segs, done, a, Every);
    cursor' := AdvanceCursor(segs, cursor, a.start);
    var dur := Duration(a);
    total' := Bump(total, cursor', dur);
    byAction' := byAction[a.action := Bump(byAction[a.action], cursor', dur)];
    byProject' := CreditProjects(byProject, a.projects, cursor', dur);
    ActionStep(segs, done, a, actions, cursor');
    ProjectStep(segs, done, a, projects, cursor', byProject');
  }

  /** Scales before position k in iteration order have the activity placed; the others not yet. */
  predicate Stage(values: map<Scale, seq<X.XSegment>>, done: seq<Activity>, a: Activity, k: nat,
                  actions: set<A.Action>, projects: set<string>,
                  total: map<Scale, seq<int>>, byAction: map<Scale, map<A.Action, seq<int>>>,
                  byProject: map<Scale, map<string, seq<int>>>, cursor: map<Scale, nat>)
  {
    && (forall s :: Rank(s) < k ==> Column(values, done + [a], actions, projects, total, byAction, byProject, cursor, s))
    && (forall s :: k <= Rank(s) ==> Column(values, done, actions, projects, total, byAction, byProject, cursor, s))
  }

  /** Storing the new column of the scale at position k moves the stage on by one. */
  lemma {:induction false} StageStep(values: map<Scale, seq<X.XSegment>>, done: seq<Activity>, a: Activity, k: nat, s: Scale,
                  actions: set<A.Action>, projects: set<string>,
                  total: map<Scale, seq<int>>, byAction: map<Scale, map<A.Action, seq<int>>>,
                  byProject: map<Scale, map<string, seq<int>>>, cursor: map<Scale, nat>,
                  t: seq<int>, x: map<A.Action, seq<int>>, p: map<string, seq<int>>, c: nat)
    requires Rank(s) == k && Stage(values, done, a, k, actions, projects, total, byAction, byProject, cursor)
    requires ColumnOf(values[s], done + [a], actions, projects, t, x, p, c)
    ensures Stage(values, done, a, k + 1, actions, projects, total[s := t], byAction[s := x], byProject[s := p], cursor[s := c])
  {
    forall u | Rank(u) < k + 1
      ensures Column(values, done + [a], actions, projects, total[s := t], byAction[s := x], byProject[s := p], cursor[s := c], u)
    {
      RankInjective(u, s);
      if u != s {
        ColumnFrame(values, done + [a], actions, projects, total, byAction, byProject, cursor, s, t, x, p, c, u);
      }
    }
    forall u | k + 1 <= Rank(u)
      ensures Column(values, done, actions, projects, total[s := t], byAction[s := x], byProject[s := p], cursor[s := c], u)
    {
      ColumnFrame(values, done, actions, projects, total, byAction, byProject, cursor, s, t, x, p, c, u);
    }
  }

  /** Storing a column at scale s leaves the column at any other scale as it was. */
  lemma {:induction false} ColumnFrame(values: map<Scale, seq<X.XSegment>>, done: seq<Activity>, actions: set<A.Action>, projects: set<string>,
                  total: map<Scale, seq<int>>, byAction: map<Scale, map<A.Action, seq<int>>>,
                  byProject: map<Scale, map<string, seq<int>>>, cursor: map<Scale, nat>,
                  s: Scale, t: seq<int>, x: map<A.Action, seq<int>>, p: map<string, seq<int>>, c: nat, u: Scale)
    requires u != s && Column(values, done, actions, projects, total, byAction, byProject, cursor, u)
    ensures Column(values, done, actions, projects, total[s := t], byAction[s := x], byProject[s := p], cursor[s := c], u)
  {
    assert total[s := t][u] == total[u] && byAction[s := x][u] == byAction[u];
    assert byProject[s := p][u] == byProject[u] && cursor[s := c][u] == cursor[u];
  }

  /** Every scale of values with the activities of done placed. */
  predicate Placed(values: map<Scale, seq<X.XSegment>>, done: seq<Activity>, actions: set<A.Action>, projects: set<string>,
                   total: map<Scale, seq<int>>, byAction: map<Scale, map<A.Action, seq<int>>>,
                   byProject: map<Scale, map<string, seq<int>>>, cursor: map<Scale, nat>)
  {
    forall s :: s in values ==> Column(values, done, actions, projects, total, byAction, byProject, cursor, s)
  }

  /** The `for_each` over the scales for the activity at position n. */
  method Place(values: map<Scale, seq<X.XSegment>>, acts: seq<Activity>, n: nat, actions: set<A.Action>, projects: set<string>,
               total: map<Scale, seq<int>>, byAction: map<Scale, map<A.Action, seq<int>>>,
               byProject: map<Scale, map<string, seq<int>>>, cursor: map<Scale, nat>)
    returns (total': map<Scale, seq<int>>, byAction': map<Scale, map<A.Action, seq<int>>>,
             byProject': map<Scale, map<string, seq<int>>>, cursor': map<Scale, nat>)
    requires n < |acts| && (forall s :: s in values) && FitsAll(values, acts)
    requires acts[n].action in actions && acts[n].projects <= projects
    requires Placed(values, acts[..n], actions, projects, total, byAction, byProject, cursor)
    ensures Placed(values, acts[..n + 1], actions, projects, total', byAction', byProject', cursor')
    ensures total'.Keys == total.Keys && byAction'.Keys == byAction.Keys && byProject'.Keys == byProject.Keys
  {
    var done, a := acts[..n], acts[n];
    Extend(acts, n);
    forall s | s in values
      ensures Fits(values[s], done + [a])
    {
      FitsPrefix(values[s], acts, n + 1);
    }
    total', byAction', byProject', cursor' := total, byAction, byProject, cursor;
    var scales := Iterator();
    for k := 0 to |scales|
      invariant total'.Keys == total.Keys && byAction'.Keys == byAction.Keys && byProject'.Keys == byProject.Keys
      invariant Stage(values, done, a, k, actions, projects, total', byAction', byProject', cursor')
    {
      var s := scales[k];
      assert Column(values, done, actions, projects, total', byAction', byProject', cursor', s);
      var t, x, p, c := PlaceAt(values[s], done, a, actions, projects, total'[s], byAction'[s], byProject'[s], cursor'[s]);
      StageStep(values, done, a, k, s, actions, projects, total', byAction', byProject', cursor', t, x, p, c);
      total', byAction', byProject', cursor' := total'[s := t], byAction'[s := x], byProject'[s := p], cursor'[s := c];
    }
    forall s | s in values
      ensures Column(values, done + [a], actions, projects, total', byAction', byProject', cursor', s)
    {
      assert scales[Rank(s)] == s;
    }
  }

  /** A map holding the zero series of length n at every key. */
  function Zeros<K>(keys: set<K>, n: nat): (m: map<K, seq<int>>)
  {
    map k | k in keys :: ZeroSeries(n)
  }

  /** Zero series and a cursor at the first segment are the state before any activity is placed. */
  lemma {:induction false} ZeroColumn(segs: seq<X.XSegment>, actions: set<A.Action>, projects: set<string>)
    ensures ColumnOf(segs, [], actions, projects, ZeroSeries(|segs|), Zeros(actions, |segs|), Zeros(projects, |segs|), 0)
  {
    assert Zeros(actions, |segs|) == ActionSpec(segs, [], actions);
    assert Zeros(projects, |segs|) == ProjectSpec(segs, [], projects);
  }

  /** The zero series of every scale and every key, and every cursor at the first segment. */
  method Init(values: map<Scale, seq<X.XSegment>>, actions: set<A.Action>, projects: set<string>)
    returns (total: map<Scale, seq<int>>, byAction: map<Scale, map<A.Action, seq<int>>>,
             byProject: map<Scale, map<string, seq<int>>>, cursor: map<Scale, nat>)
    ensures total.Keys == values.Keys && byAction.Keys == values.Keys && byProject.Keys == values.Keys
    ensures Placed(values, [], actions, projects, total, byAction, byProject, cursor)
  {
    total := map s | s in values :: ZeroSeries(|values[s]|);
    byAction := map s | s in values :: Zeros(actions, |values[s]|);
    byProject := map s | s in values :: Zeros(projects, |values[s]|);
    cursor := map s | s in Iterator() :: 0;
    forall s | s in values
      ensures Column(values, [], actions, projects, total, byAction, byProject, cursor, s)
    {
      assert Iterator()[Rank(s)] == s;
      ZeroColumn(values[s], actions, projects);
    }
  }

  /**
   * `YActivities::new`: zero series sized to each scale's segments, then every
   * activity placed at each scale. The result is the sweep's specification:
   * at every scale, the duration of every counted activity added at its position.
   */
  method New(acts: seq<Activity>, actions: set<A.Action>, projects: set<string>, sxs: X.ScaleXSegments)
    returns (r: YActivities)
    requires acts != [] ==> forall s :: s in sxs.values
    requires FitsAll(sxs.values, acts)
    requires forall i :: 0 <= i < |acts| ==> acts[i].action in actions && acts[i].projects <= projects
    ensures r == Spec(sxs.values, acts, actions, projects)
  {
    var values := sxs.values;
    var total, byAction, byProject, cursor := Init(values, actions, projects);
    assert acts[..0] == [];
    for n := 0 to |acts|
      invariant total.Keys == values.Keys && byAction.Keys == values.Keys && byProject.Keys == values.Keys
      invariant Placed(values, acts[..n], actions, projects, total, byAction, byProject, cursor)
    {
      total, byAction, byProject, cursor := Place(values, acts, n, actions, projects, total, byAction, byProject, cursor);
    }
    assert acts[..|acts|] == acts;
    r := YActivities(total, byAction, byProject);
    Finish(values, acts, actions, projects, r, cursor);
  }

  /** Once every activity is placed, the maps are the specification's. */
  lemma {:induction false} Finish(values: map<Scale, seq<X.XSegment>>, acts: seq<Activity>, actions: set<A.Action>, projects: set<string>,
               r: YActivities, cursor: map<Scale, nat>)
    requires r.total.Keys == values.Keys && r.actions.Keys == values.Keys && r.projects.Keys == values.Keys
    requires Placed(values, acts, actions, projects, r.total, r.actions, r.projects, cursor)
    ensures FitsAll(values, acts) && r == Spec(values, acts, actions, projects)
  {
    forall s | s in values
      ensures Column(values, acts, actions, projects, r.total, r.actions, r.projects, cursor, s)
    {
    }
    var e := Spec(values, acts, actions, projects);
    assert r.total == e.total;
    assert r.actions == e.actions;
    assert r.projects == e.projects;
  }

  // ---------------------------------------------------------------------------
  // The worked example: two one-hour activities on 2022-07-22 and 2022-07-25
  // ---------------------------------------------------------------------------

  /** Day numbers of 2022-07-22 (a Friday) and 2022-07-25 (a Monday). */
  const Jul22: C.Date := 19195
  const Jul25: C.Date := 19198

  /** Code on tag1 and tag2 at noon on the 22nd; review on tag2 and tag3 at noon on the 25th. */
  function Example(): seq<Activity>
  {
    [Activity(C.Midnight(Jul22) + 720, C.Midnight(Jul22) + 780, "activity 1", A.Code, {"tag1", "tag2"}),
     Activity(C.Midnight(Jul25) + 720, C.Midnight(Jul25) + 780, "activity 2", A.Review, {"tag2", "tag3"})]
  }

  /** Two activities placed at the positions i and j. */
  lemma {:induction false} TwoPlaced(segs: seq<X.XSegment>, acts: seq<Activity>, i: nat, j: nat, k: Keep)
    requires |acts| == 2 && Fits(segs, acts)
    requires i < |segs| && i == Advance(segs, 0, acts[0].start)
    requires j < |segs| && j == Advance(segs, i, acts[1].start)
    ensures var z := ZeroSeries(|segs|);
            var one := if Kept(k, acts[0]) then Bump(z, i, Duration(acts[0])) else z;
            Series(segs, acts, k) == if Kept(k, acts[1]) then Bump(one, j, Duration(acts[1])) else one
  {
    assert acts == [acts[0]] + [acts[1]];
    assert [acts[0]] == [] + [acts[0]];
    Snoc(segs, [acts[0]], acts[1], k);
    Snoc(segs, [], acts[0], k);
  }

  /** Four day segments from the 22nd: the first activity in the first, the second in the last. */
  lemma {:induction false} DayExample(segs: seq<X.XSegment>)
    requires |segs| == 4 && forall i :: 0 <= i < 4 ==> segs[i].end == C.Midnight(Jul22 + i + 1)
    ensures && Fits(segs, Example())
            && Series(segs, Example(), Every) == [60, 0, 0, 60]
            && Series(segs, Example(), OfAction(A.Code)) == [60, 0, 0, 0]
            && Series(segs, Example(), OfAction(A.Review)) == [0, 0, 0, 60]
            && Series(segs, Example(), OfProject("tag1")) == [60, 0, 0, 0]
            && Series(segs, Example(), OfProject("tag2")) == [60, 0, 0, 60]
            && Series(segs, Example(), OfProject("tag3")) == [0, 0, 0, 60]
  {
    var acts := Example();
    assert segs[0].end == C.Midnight(Jul22 + 1) && segs[1].end == C.Midnight(Jul22 + 2);
    assert segs[2].end == C.Midnight(Jul22 + 3) && segs[3].end == C.Midnight(Jul22 + 4);
    assert Advance(segs, 0, acts[0].start) == 0;
    assert Advance(segs, 3, acts[1].start) == 3;
    assert Advance(segs, 2, acts[1].start) == 3;
    assert Advance(segs, 1, acts[1].start) == 3;
    assert Advance(segs, 0, acts[1].start) == 3;
    assert ZeroSeries(4) == [0, 0, 0, 0];
    TwoPlaced(segs, acts, 0, 3, Every);
    TwoPlaced(segs, acts, 0, 3, OfAction(A.Code));
    TwoPlaced(segs, acts, 0, 3, OfAction(A.Review));
    TwoPlaced(segs, acts, 0, 3, OfProject("tag1"));
    TwoPlaced(segs, acts, 0, 3, OfProject("tag2"));
    TwoPlaced(segs, acts, 0, 3, OfProject("tag3"));
  }

  /** The week of Monday the 18th and the week of Monday the 25th: one activity in each. */
  lemma {:induction false} WeekExample(segs: seq<X.XSegment>)
    requires |segs| == 2 && segs[0].end == C.Midnight(Jul25) && segs[1].end == C.Midnight(Jul25 + 7)
    ensures Fits(segs, Example()) && Series(segs, Example(), Every) == [60, 60]
  {
    var acts := Example();
    assert Advance(segs, 0, acts[0].start) == 0;
    assert Advance(segs, 1, acts[1].start) == 1;
    assert Advance(segs, 0, acts[1].start) == 1;
    assert ZeroSeries(2) == [0, 0];
    TwoPlaced(segs, acts, 0, 1, Every);
  }

  /** A single segment reaching past the second activity holds both hours. */
  lemma {:induction false} SingleExample(segs: seq<X.XSegment>)
    requires |segs| == 1 && C.Midnight(Jul25 + 1) <= segs[0].end
    ensures Fits(segs, Example()) && Series(segs, Example(), Every) == [120]
  {
    var acts := Example();
    assert Fits(segs, acts);
    assert KeptMinutes(acts, Every) == 120 by {
      assert acts[..1][..0] == [];
      assert acts[..1] == [acts[0]];
    }
    SingleSegment(segs, acts, Every);
  }

  /** The segment function applied to a day. */
  lemma SegmentApply(s: Scale, d: C.Date)
    requires s != All
    ensures X.Segment(s)(d) == X.SegmentOf(s, d)
  {
  }

  /** The 22nd to the 24th are in the week of Monday the 18th; the 25th is a Monday. */
  lemma ExampleMondays(start: C.Date)
    requires start == Jul22
    ensures C.Monday(start) == start - 4 && C.Monday(start + 1) == start - 4
    ensures C.Monday(start + 2) == start - 4 && C.Monday(start + 3) == start + 3
  {
    assert start + 3 == 7 * 2742 + 4;
    assert start + 6 == 7 * 2743;
  }

  /** Three days in one segment, then a day in the next: two segments. */
  lemma {:induction false} TwoRuns(w: C.Date -> X.XSegment, start: C.Date, first: X.XSegment, second: X.XSegment)
    requires w(start) == first && w(start + 1) == first && w(start + 2) == first && w(start + 3) == second
    requires second != first
    ensures X.Segs(w, start, start + 4) == [first, second]
  {
    X.EmptyRun(w, start, start);
    X.SegsNext(w, start, start);
    var r1 := X.Segs(w, start, start + 1);
    assert r1 == [first];
    X.SegsNext(w, start, start + 1);
    var r2 := X.Segs(w, start, start + 2);
    assert r2 == [first];
    X.SegsNext(w, start, start + 2);
    var r3 := X.Segs(w, start, start + 3);
    assert r3 == [first];
    X.SegsNext(w, start, start + 3);
  }

  /** The weeks `new` lists for the 22nd to the 25th. */
  lemma {:induction false} ExampleWeeks(start: C.Date, end: C.Date)
    requires start == Jul22 && end == Jul25
    ensures var segs := X.NewValues(start, end)[Week];
            |segs| == 2 && segs[0].end == C.Midnight(Jul25) && segs[1].end == C.Midnight(Jul25 + 7)
  {
    var w := X.Segment(Week);
    var first := X.XSegment(Week, C.Midnight(start - 4), C.Midnight(start + 3));
    var second := X.XSegment(Week, C.Midnight(start + 3), C.Midnight(start + 10));
    ExampleMondays(start);
    SegmentApply(Week, start);
    SegmentApply(Week, start + 1);
    SegmentApply(Week, start + 2);
    SegmentApply(Week, start + 3);
    TwoRuns(w, start, first, second);
    X.NewValuesMeaning(start, end);
  }

  /** Every day from the 22nd to the 25th is in July 2022. */
  lemma July2022(d: C.Date)
    requires Jul22 <= d <= Jul25
    ensures C.Year(d) == 2022 && C.Month(d) == 7
  {
    C.MonthCharacterization(d, 2022, 7);
    assert C.DaysFromCivil(2022, 7, 1) == 19174;
    assert C.DaysFromCivil(2022, 8, 1) == 19205;
  }

  /** A run over days that all have the same segment is that one segment. */
  lemma {:induction false} ConstantRun(seg: C.Date -> X.XSegment, start: C.Date, stop: C.Date)
    requires start < stop && forall d :: start <= d < stop ==> seg(d) == seg(start)
    ensures X.Segs(seg, start, stop) == [seg(start)]
    decreases stop - start
  {
    if start + 1 == stop {
      X.EmptyRun(seg, start, start);
      X.SegsNext(seg, start, start);
    } else {
      ConstantRun(seg, start, stop - 1);
      X.SegsNext(seg, start, stop - 1);
    }
  }

  /** Month, Year and All: `new` lists a single segment for the 22nd to the 25th. */
  lemma {:induction false} ExampleSingles(start: C.Date, end: C.Date, s: Scale)
    requires start == Jul22 && end == Jul25 && (s == Month || s == Year || s == All)
    ensures var segs := X.NewValues(start, end)[s];
            |segs| == 1 && C.Midnight(Jul25 + 1) <= segs[0].end
  {
    X.NewValuesMeaning(start, end);
    if s != All {
      var seg := X.Segment(s);
      forall d | start <= d < end + 1
        ensures seg(d) == seg(start)
      {
        July2022(d);
        July2022(start);
        if s == Month {
          X.MonthSegment(d, 2022, 7);
          X.MonthSegment(start, 2022, 7);
        } else {
          X.YearSegment(d, 2022);
          X.YearSegment(start, 2022);
        }
      }
      ConstantRun(seg, start, end + 1);
      X.Holds(s, end);
    }
  }

  /** One scale of the specification: its total, its per-action and its per-project series. */
  lemma SpecEntries(values: map<Scale, seq<X.XSegment>>, done: seq<Activity>, actions: set<A.Action>, projects: set<string>, s: Scale)
    requires FitsAll(values, done) && s in values
    ensures var r := Spec(values, done, actions, projects);
            && s in r.total && r.total[s] == Series(values[s], done, Every)
            && s in r.actions && r.actions[s].Keys == actions
            && (forall x :: x in actions ==> r.actions[s][x] == Series(values[s], done, OfAction(x)))
            && s in r.projects && r.projects[s].Keys == projects
            && (forall p :: p in projects ==> r.projects[s][p] == Series(values[s], done, OfProject(p)))
  {
  }

  /** Segments shaped like the ones `new` lists for the 22nd to the 25th. */
  predicate ExampleShape(values: map<Scale, seq<X.XSegment>>)
  {
    && (forall s :: s in values)
    && |values[Day]| == 4 && (forall i :: 0 <= i < 4 ==> values[Day][i].end == C.Midnight(Jul22 + i + 1))
    && |values[Week]| == 2 && values[Week][0].end == C.Midnight(Jul25) && values[Week][1].end == C.Midnight(Jul25 + 7)
    && |values[Month]| == 1 && C.Midnight(Jul25 + 1) <= values[Month][0].end
    && |values[Year]| == 1 && C.Midnight(Jul25 + 1) <= values[Year][0].end
    && |values[All]| == 1 && C.Midnight(Jul25 + 1) <= values[All][0].end
  }

  /**
   * The series of the two activities over segments of that shape: Day
   * [60, 0, 0, 60], Week [60, 60], Month, Year and All [120]; by day, Code
   * [60, 0, 0, 0], Review [0, 0, 0, 60], tag1 [60, 0, 0, 0], tag2
   * [60, 0, 0, 60] and tag3 [0, 0, 0, 60].
   */
  lemma {:induction false} ExampleSeries(values: map<Scale, seq<X.XSegment>>)
    requires ExampleShape(values)
    ensures FitsAll(values, Example())
    ensures var r := Spec(values, Example(), {A.Code, A.Review}, {"tag1", "tag2", "tag3"});
            && r.total[Day] == [60, 0, 0, 60] && r.total[Week] == [60, 60]
            && r.total[Month] == [120] && r.total[Year] == [120] && r.total[All] == [120]
            && r.actions[Day] == map[A.Code := [60, 0, 0, 0], A.Review := [0, 0, 0, 60]]
            && r.projects[Day] == map["tag1" := [60, 0, 0, 0], "tag2" := [60, 0, 0, 60], "tag3" := [0, 0, 0, 60]]
  {
    DayExample(values[Day]);
    WeekExample(values[Week]);
    SingleExample(values[Month]);
    SingleExample(values[Year]);
    SingleExample(values[All]);
    forall s | s in values
      ensures Fits(values[s], Example())
    {
      assert s == Day || s == Week || s == Month || s == Year || s == All;
    }
    var actions := {A.Code, A.Review};
    var projects := {"tag1", "tag2", "tag3"};
    SpecEntries(values, Example(), actions, projects, Day);
    SpecEntries(values, Example(), actions, projects, Week);
    SpecEntries(values, Example(), actions, projects, Month);
    SpecEntries(values, Example(), actions, projects, Year);
    SpecEntries(values, Example(), actions, projects, All);
    var r := Spec(values, Example(), actions, projects);
    TwoKeys(r.actions[Day], A.Code, [60, 0, 0, 0], A.Review, [0, 0, 0, 60]);
    ThreeKeys(r.projects[Day], "tag1", [60, 0, 0, 0], "tag2", [60, 0, 0, 60], "tag3", [0, 0, 0, 60]);
  }

  /** A map is known by its keys and its entries. */
  lemma TwoKeys<K, V>(m: map<K, V>, k1: K, v1: V, k2: K, v2: V)
    requires m.Keys == {k1, k2} && m[k1] == v1 && m[k2] == v2
    ensures m == map[k1 := v1, k2 := v2]
  {
  }

  lemma ThreeKeys<K, V>(m: map<K, V>, k1: K, v1: V, k2: K, v2: V, k3: K, v3: V)
    requires m.Keys == {k1, k2, k3} && m[k1] == v1 && m[k2] == v2 && m[k3] == v3
    ensures m == map[k1 := v1, k2 := v2, k3 := v3]
  {
  }

  /** The segments `new` lists for the 22nd to the 25th have that shape. */
  lemma {:induction false} ExampleValues(start: C.Date, end: C.Date)
    requires start == Jul22 && end == Jul25
    ensures ExampleShape(X.NewValues(start, end))
  {
    X.NewValuesMeaning(start, end);
    X.DaySegs(start, end + 1);
    ExampleWeeks(start, end);
    ExampleSingles(start, end, Month);
    ExampleSingles(start, end, Year);
    ExampleSingles(start, end, All);
  }
}
