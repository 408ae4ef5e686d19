/**
 * The graph the interface draws (`Graph` in the graph module): the full
 * activity list, the aggregate and the filter in force, the x-axis segments
 * and the y-axis series. `apply_filter` recomputes every derived field from
 * the untouched full list and the filter alone.
 */
module GraphUi {
  import C = Calendar
  import A = Activities
  import opened Options
  import opened Scales
  import X = XSegments
  import S = GraphSeries

  /** The filter the interface applies. */
  datatype Filter = Filter(
    minDate: C.Date,
    maxDate: C.Date,
    actions: set<A.Action>,
    projects: set<string>,
    description: Option<string>)

  /** `ActivitiesAggregate`: first date, last date, every action and every project. */
  datatype Aggregate = Aggregate(minDate: C.Date, maxDate: C.Date, actions: set<A.Action>, projects: set<string>)

  /**
   * The two list operations the graph calls, `aggregate_all` and the
   * five-argument `filter`. Their code is not part of this model: they are
   * a parameter of every operation below.
   */
  datatype ListOps = ListOps(
    aggregateAll: seq<S.Activity> -> Aggregate,
    select: (seq<S.Activity>, Filter) -> seq<S.Activity>)

  /** Every activity starts on a day from lo to hi. */
  predicate Dated(lo: C.Date, hi: C.Date, acts: seq<S.Activity>)
  {
    forall i :: 0 <= i < |acts| ==> lo <= C.DateOf(acts[i].start) <= hi
  }

  /** Every activity's action and projects are among the given ones. */
  predicate Tagged(actions: set<A.Action>, projects: set<string>, acts: seq<S.Activity>)
  {
    forall i :: 0 <= i < |acts| ==> acts[i].action in actions && acts[i].projects <= projects
  }

  /** The aggregate of a list covers its dates, its actions and its projects. */
  predicate Covers(agg: Aggregate, acts: seq<S.Activity>)
  {
    Dated(agg.minDate, agg.maxDate, acts) && Tagged(agg.actions, agg.projects, acts)
  }

  /**
   * What the graph relies on from the two operations: the aggregate covers
   * the list it is taken of, and the filter keeps only activities dated
   * within its own range. Without these the series builder would index past
   * its segments or its maps.
   */
  ghost predicate Sound(ops: ListOps)
  {
    && (forall acts :: Covers(ops.aggregateAll(acts), acts))
    && (forall acts, f: Filter :: Dated(f.minDate, f.maxDate, ops.select(acts, f)))
  }

  /** Everything a graph holds. */
  datatype View = View(
    allActivities: seq<S.Activity>,
    aggregate: Aggregate,
    filter: Filter,
    segments: X.ScaleXSegments,
    series: S.YActivities)

  /** Activities starting by day hi fit segments that reach midnight after hi. */
  lemma {:induction false} EndsAfter(segs: seq<X.XSegment>, lo: C.Date, hi: C.Date, acts: seq<S.Activity>)
    requires Dated(lo, hi, acts) && |segs| > 0 && C.Midnight(hi + 1) <= segs[|segs| - 1].end
    ensures S.Fits(segs, acts)
  {
    forall i | 0 <= i < |acts|
      ensures acts[i].start < segs[|segs| - 1].end
    {
      C.MidnightMonotone(C.DateOf(acts[i].start) + 1, hi + 1);
    }
  }

  /** Activities dated within the range fit the segments `new` lists for it, at every scale. */
  lemma {:induction false} DatedFits(lo: C.Date, hi: C.Date, acts: seq<S.Activity>)
    requires Dated(lo, hi, acts)
    ensures S.FitsAll(X.NewValues(lo, hi), acts)
    ensures forall s :: s in X.NewValues(lo, hi)
  {
    var values := X.NewValues(lo, hi);
    X.NewValuesMeaning(lo, hi);
    if acts != [] {
      assert lo <= C.DateOf(acts[0].start) <= hi;
      forall s | s in values
        ensures S.Fits(values[s], acts)
      {
        X.NewReaches(lo, hi, s);
        EndsAfter(values[s], lo, hi, acts);
      }
    }
  }

  /** The graph of the activities `shown` out of `all`, over the filter's range. */
  function Showing(all: seq<S.Activity>, shown: seq<S.Activity>, agg: Aggregate, f: Filter): (v: View)
    requires Dated(f.minDate, f.maxDate, shown)
  {
    DatedFits(f.minDate, f.maxDate, shown);
    var values := X.NewValues(f.minDate, f.maxDate);
    View(all, agg, f, X.ScaleXSegments(values, X.BuildIndex(values)), S.Spec(values, shown, agg.actions, agg.projects))
  }

  /** `Graph::new`: the filter is the aggregate of the whole list, with no description. */
  function Initial(ops: ListOps, all: seq<S.Activity>): (v: View)
    requires Sound(ops)
  {
    var agg := ops.aggregateAll(all);
    Showing(all, all, agg, Filter(agg.minDate, agg.maxDate, agg.actions, agg.projects, None))
  }

  /** `apply_filter`: the filtered list, its own aggregate, and segments over the filter's own range. */
  function Filtered(ops: ListOps, all: seq<S.Activity>, f: Filter): (v: View)
    requires Sound(ops)
  {
    var shown := ops.select(all, f);
    Showing(all, shown, ops.aggregateAll(shown), f)
  }

  class Graph {
    var allActivities: seq<S.Activity>
    var activitiesAggregate: Aggregate
    var appliedFilter: Filter
    var segments: X.ScaleXSegments
    var series: S.YActivities

    function State(): View
      reads this
    {
      View(allActivities, activitiesAggregate, appliedFilter, segments, series)
    }

    /** `Graph::new`. */
    constructor (ops: ListOps, all: seq<S.Activity>)
      requires Sound(ops)
      ensures State() == Initial(ops, all)
    {
      var agg := ops.aggregateAll(all);
      var sxs := X.New(agg.minDate, agg.maxDate);
      DatedFits(agg.minDate, agg.maxDate, all);
      var ys := S.New(all, agg.actions, agg.projects, sxs);
      allActivities := all;
      activitiesAggregate := agg;
      appliedFilter := Filter(agg.minDate, agg.maxDate, agg.actions, agg.projects, None);
      segments := sxs;
      series := ys;
    }

    /** `Graph::apply_filter`: the new state depends on the full list and the filter only. */
    method ApplyFilter(ops: ListOps, f: Filter)
      requires Sound(ops)
      modifies this
      ensures State() == Filtered(ops, old(allActivities), f)
    {
      var shown := ops.select(allActivities, f);
      var agg := ops.aggregateAll(shown);
      var sxs := X.New(f.minDate, f.maxDate);
      DatedFits(f.minDate, f.maxDate, shown);
      var ys := S.New(shown, agg.actions, agg.projects, sxs);
      activitiesAggregate := agg;
      appliedFilter := f;
      segments := sxs;
      series := ys;
    }
  }

  // ---------------------------------------------------------------------------
  // Properties of a filtered graph
  // ---------------------------------------------------------------------------

  /**
   * Filtering keeps the full list and the filter as given; filtering again
   * with the same filter changes nothing, and an earlier filter leaves no
   * trace.
   */
  lemma FilterForgets(ops: ListOps, all: seq<S.Activity>, f: Filter, g: Filter)
    requires Sound(ops)
    ensures Filtered(ops, all, f).allActivities == all && Filtered(ops, all, f).filter == f
    ensures Filtered(ops, Filtered(ops, all, f).allActivities, f) == Filtered(ops, all, f)
    ensures Filtered(ops, Filtered(ops, all, g).allActivities, f) == Filtered(ops, all, f)
    ensures Filtered(ops, Initial(ops, all).allActivities, f) == Filtered(ops, all, f)
  {
  }

  /**
   * Each periodic scale of a filtered graph is a chain of segments from the
   * one holding the filter's first day to the one holding its last day, so
   * it spans the whole range; the All scale is that range exactly.
   */
  lemma {:induction false} FilteredSpan(ops: ListOps, all: seq<S.Activity>, f: Filter, s: Scale)
    requires Sound(ops) && f.minDate <= f.maxDate
    ensures var segs := Filtered(ops, all, f).segments.values[s];
            && |segs| > 0 && X.Chained(segs)
            && segs[0].start <= C.Midnight(f.minDate) && C.Midnight(f.maxDate + 1) <= segs[|segs| - 1].end
            && (s == All ==> segs == [X.XSegment(All, C.Midnight(f.minDate), C.Midnight(f.maxDate + 1))])
  {
    X.NewReaches(f.minDate, f.maxDate, s);
    assert Filtered(ops, all, f).segments.values == X.NewValues(f.minDate, f.maxDate);
  }

  /**
   * At every scale the series of a filtered graph add up to the minutes of
   * the activities the filter kept: in total, per action of the aggregate
   * and per project of the aggregate.
   */
  lemma {:induction false} FilteredMinutes(ops: ListOps, all: seq<S.Activity>, f: Filter, s: Scale)
    requires Sound(ops)
    ensures var v := Filtered(ops, all, f);
            var shown := ops.select(all, f);
            && s in v.series.total && S.Sum(v.series.total[s]) == S.KeptMinutes(shown, S.Every)
            && s in v.series.actions && v.series.actions[s].Keys == v.aggregate.actions
            && (forall x :: x in v.aggregate.actions ==> S.Sum(v.series.actions[s][x]) == S.KeptMinutes(shown, S.OfAction(x)))
            && s in v.series.projects && v.series.projects[s].Keys == v.aggregate.projects
            && (forall p :: p in v.aggregate.projects ==> S.Sum(v.series.projects[s][p]) == S.KeptMinutes(shown, S.OfProject(p)))
  {
    var shown := ops.select(all, f);
    var agg := ops.aggregateAll(shown);
    var values := X.NewValues(f.minDate, f.maxDate);
    DatedFits(f.minDate, f.maxDate, shown);
    S.SpecEntries(values, shown, agg.actions, agg.projects, s);
    S.SeriesSum(values[s], shown, S.Every);
    forall x | x in agg.actions
      ensures S.Sum(S.Series(values[s], shown, S.OfAction(x))) == S.KeptMinutes(shown, S.OfAction(x))
    {
      S.SeriesSum(values[s], shown, S.OfAction(x));
    }
    forall p | p in agg.projects
      ensures S.Sum(S.Series(values[s], shown, S.OfProject(p))) == S.KeptMinutes(shown, S.OfProject(p))
    {
      S.SeriesSum(values[s], shown, S.OfProject(p));
    }
  }

  /**
   * A new graph of the two activities of 2022-07-22 and 2022-07-25, given
   * the aggregate of that list: the filter is the aggregate with no
   * description, the segments are those of the 22nd to the 25th, and the
   * series are those of the worked example, whose values
   * `GraphSeries.ExampleSeries` gives.
   */
  lemma {:induction false} NewGraphExample(ops: ListOps, start: C.Date, end: C.Date)
    requires Sound(ops) && start == S.Jul22 && end == S.Jul25
    requires ops.aggregateAll(S.Example()) == Aggregate(start, end, {A.Code, A.Review}, {"tag1", "tag2", "tag3"})
    ensures var v := Initial(ops, S.Example());
            && v.allActivities == S.Example()
            && v.filter == Filter(start, end, {A.Code, A.Review}, {"tag1", "tag2", "tag3"}, None)
            && v.segments.values == X.NewValues(start, end)
            && S.ExampleShape(v.segments.values)
            && S.FitsAll(v.segments.values, S.Example())
            && v.series == S.Spec(v.segments.values, S.Example(), {A.Code, A.Review}, {"tag1", "tag2", "tag3"})
  {
    S.ExampleValues(start, end);
    S.ExampleSeries(X.NewValues(start, end));
  }
}
