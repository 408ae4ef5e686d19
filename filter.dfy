/**
 * The filter over the activity list: its default value built from a list
 * (the date span and every project and action seen), and the conjunctive
 * test that keeps, in order, the activities that pass it.
 */
module Filters {
  import opened Calendar
  import opened Text
  import opened Activities

  datatype Filter = Filter(
    minDate: Date,
    maxDate: Date,
    freeText: string,
    projects: set<string>,
    actions: set<Action>)

  /** The accumulator of `Filter::new`'s fold. */
  datatype Span = Span(min: DateTime, max: DateTime, projects: set<string>, actions: set<Action>)

  function Min(a: int, b: int): int { if a <= b then a else b }
  function Max(a: int, b: int): int { if a >= b then a else b }

  /** The fold of `Filter::new`: the earliest start, the latest end, and the unions of tags. */
  function FoldSpan(acc: Span, acts: Activities): Span
    decreases |acts|
  {
    if acts == [] then acc
    else
      var a := acts[0];
      FoldSpan(Span(Min(acc.min, a.start), Max(acc.max, a.end), acc.projects + a.projects, acc.actions + a.actions), acts[1..])
  }

  /**
   * What the fold computes, for any starting accumulator: the least of its
   * minimum and the starts, the greatest of its maximum and the ends, and the
   * unions of its sets with every activity's sets.
   */
  lemma {:induction false} FoldSpanMeaning(acc: Span, acts: Activities)
    ensures var r := FoldSpan(acc, acts);
            && r.min <= acc.min
            && (forall i :: 0 <= i < |acts| ==> r.min <= acts[i].start)
            && (r.min == acc.min || exists i :: 0 <= i < |acts| && r.min == acts[i].start)
            && acc.max <= r.max
            && (forall i :: 0 <= i < |acts| ==> acts[i].end <= r.max)
            && (r.max == acc.max || exists i :: 0 <= i < |acts| && r.max == acts[i].end)
            && (forall p :: p in r.projects <==> p in acc.projects || exists i :: 0 <= i < |acts| && p in acts[i].projects)
            && (forall x :: x in r.actions <==> x in acc.actions || exists i :: 0 <= i < |acts| && x in acts[i].actions)
    decreases |acts|
  {
    if acts != [] {
      var a := acts[0];
      var next := Span(Min(acc.min, a.start), Max(acc.max, a.end), acc.projects + a.projects, acc.actions + a.actions);
      FoldSpanMeaning(next, acts[1..]);
      var r := FoldSpan(acc, acts);
      assert r == FoldSpan(next, acts[1..]);
      assert forall i :: 1 <= i < |acts| ==> acts[i] == acts[1..][i - 1];
      if r.min != next.min {
        var j :| 0 <= j < |acts[1..]| && r.min == acts[1..][j].start;
        assert r.min == acts[j + 1].start;
      }
      if r.max != next.max {
        var j :| 0 <= j < |acts[1..]| && r.max == acts[1..][j].end;
        assert r.max == acts[j + 1].end;
      }
      forall p | p in r.projects
        ensures p in acc.projects || exists i :: 0 <= i < |acts| && p in acts[i].projects
      {
        if p !in next.projects {
          var j :| 0 <= j < |acts[1..]| && p in acts[1..][j].projects;
          assert p in acts[j + 1].projects;
        }
      }
      forall x | x in r.actions
        ensures x in acc.actions || exists i :: 0 <= i < |acts| && x in acts[i].actions
      {
        if x !in next.actions {
          var j :| 0 <= j < |acts[1..]| && x in acts[1..][j].actions;
          assert x in acts[j + 1].actions;
        }
      }
    }
  }

  /** `Filter::new`: indexes the first activity, so the list must not be empty. */
  function NewFilter(acts: Activities): Filter
    requires |acts| > 0
  {
    var span := FoldSpan(Span(acts[0].start, acts[0].start, {}, {}), acts);
    Filter(DateOf(span.min), DateOf(span.max), "", span.projects, span.actions)
  }

  /**
   * The default filter spans from the date of the earliest start to the date
   * of the latest end (or of the first start, when every end comes before
   * it), lets every text through, and holds every project and action seen.
   */
  lemma NewFilterMeaning(acts: Activities)
    requires |acts| > 0
    ensures var f := NewFilter(acts);
            && f.freeText == ""
            && (forall i :: 0 <= i < |acts| ==> f.minDate <= DateOf(acts[i].start))
            && (exists i :: 0 <= i < |acts| && f.minDate == DateOf(acts[i].start))
            && DateOf(acts[0].start) <= f.maxDate
            && (forall i :: 0 <= i < |acts| ==> DateOf(acts[i].end) <= f.maxDate)
            && (f.maxDate == DateOf(acts[0].start) || exists i :: 0 <= i < |acts| && f.maxDate == DateOf(acts[i].end))
            && (forall p :: p in f.projects <==> exists i :: 0 <= i < |acts| && p in acts[i].projects)
            && (forall x :: x in f.actions <==> exists i :: 0 <= i < |acts| && x in acts[i].actions)
  {
    var acc := Span(acts[0].start, acts[0].start, {}, {});
    FoldSpanMeaning(acc, acts);
    var span := FoldSpan(acc, acts);
    forall i | 0 <= i < |acts|
      ensures DateOf(span.min) <= DateOf(acts[i].start) && DateOf(acts[i].end) <= DateOf(span.max)
    {
      DateOfMonotone(span.min, acts[i].start);
      DateOfMonotone(acts[i].end, span.max);
    }
    DateOfMonotone(acts[0].start, span.max);
  }

  // ---------------------------------------------------------------------------
  // Filterable::filter
  // ---------------------------------------------------------------------------

  /**
   * The test an activity must pass: within the dates, its description
   * containing the free text, and all of its projects and actions allowed.
   */
  predicate Matches(f: Filter, a: Activity)
  {
    && DateOf(a.start) >= f.minDate
    && DateOf(a.end) <= f.maxDate
    && Contains(a.description, f.freeText)
    && a.projects <= f.projects
    && a.actions <= f.actions
  }

  /** The activities that pass, in their order. */
  function FilterActs(acts: Activities, f: Filter): (r: Activities)
    ensures |r| <= |acts|
    ensures forall a :: a in r <==> a in acts && Matches(f, a)
  {
    if acts == [] then []
    else (if Matches(f, acts[0]) then [acts[0]] else []) + FilterActs(acts[1..], f)
  }

  /** Filtering a concatenation filters each part: the kept activities stay in order. */
  lemma {:induction false} FilterAppend(p: Activities, q: Activities, f: Filter)
    ensures FilterActs(p + q, f) == FilterActs(p, f) + FilterActs(q, f)
  {
    if p != [] {
      assert (p + q)[0] == p[0] && (p + q)[1..] == p[1..] + q;
      FilterAppend(p[1..], q, f);
    } else {
      assert p + q == q;
    }
  }

  /** A list whose every activity passes is kept whole. */
  lemma {:induction false} FilterKeepsAll(acts: Activities, f: Filter)
    requires forall a :: a in acts ==> Matches(f, a)
    ensures FilterActs(acts, f) == acts
  {
    if acts != [] {
      assert forall a :: a in acts[1..] ==> a in acts;
      FilterKeepsAll(acts[1..], f);
    }
  }

  /** Filtering twice with the same filter is filtering once. */
  lemma FilterIdempotent(acts: Activities, f: Filter)
    ensures FilterActs(FilterActs(acts, f), f) == FilterActs(acts, f)
  {
    FilterKeepsAll(FilterActs(acts, f), f);
  }

  /**
   * The "all" tests pass vacuously: an activity without projects or actions
   * passes those tests, and an empty free text is found in every description.
   */
  lemma MatchesVacuous(f: Filter, a: Activity)
    requires a.projects == {} && a.actions == {} && f.freeText == ""
    ensures Matches(f, a) <==> DateOf(a.start) >= f.minDate && DateOf(a.end) <= f.maxDate
  {
    ContainsEmpty(a.description);
  }

  /** The default filter of a non-empty list keeps the whole list. */
  lemma NewFilterKeepsAll(acts: Activities)
    requires |acts| > 0
    ensures FilterActs(acts, NewFilter(acts)) == acts
  {
    var f := NewFilter(acts);
    NewFilterMeaning(acts);
    forall a | a in acts
      ensures Matches(f, a)
    {
      var i :| 0 <= i < |acts| && acts[i] == a;
      ContainsEmpty(a.description);
      assert forall p :: p in a.projects ==> p in f.projects;
      assert forall x :: x in a.actions ==> x in f.actions;
    }
    FilterKeepsAll(acts, f);
  }
}
