/** What enforcement and planning mean for the request, told from the names in it: exactly which
    requests are accepted, and which columns and outputs an accepted one refers to. */
module QueryMeaning {
  import opened Wrappers
  import opened Text
  import opened Listings
  import opened Schema
  import opened Query

  /** Column `c` bears the name, up to case. */
  ghost predicate Names(s: DatasetSchema, c: int, name: string) {
    0 <= c < |s.columns| && SameUpToCase(s.columns[c], name)
  }

  ghost predicate Known(s: DatasetSchema, name: string) {
    exists c: nat :: Names(s, c, name)
  }

  ghost predicate Seen(s: DatasetSchema, name: string) {
    exists c: nat :: Names(s, c, name) && Visible(s, c)
  }

  ghost predicate Testable(s: DatasetSchema, name: string) {
    exists c: nat :: Names(s, c, name) && Visible(s, c) && Admits(s.predicateFilter, s.columns[c])
  }

  lemma NamesAlike(s: DatasetSchema, c: nat, name: string)
    requires c < |s.columns|
    ensures Names(s, c, name) <==> Lower(s.columns[c]) == Lower(name)
  {
    FoldAlikeExactly(s.columns[c], name);
  }

  lemma FindMeaning(s: DatasetSchema, name: string)
    ensures Find(s, name).Success? <==> Known(s, name)
    ensures Find(s, name).Success? ==> Names(s, Find(s, name).value, name)
    ensures FindVisible(s, name).Success? <==> Seen(s, name)
    ensures FindForPredicate(s, name).Success? <==> Testable(s, name)
  {
    var r := Find(s, name);
    forall c: nat | c < |s.columns| ensures Names(s, c, name) <==> Lower(s.columns[c]) == Lower(name) {
      NamesAlike(s, c, name);
    }
    if r.Success? {
      forall c: nat | Names(s, c, name)
        ensures Visible(s, c) <==> Allows(s.projectionFilter, s.columns[r.value])
        ensures Admits(s.predicateFilter, s.columns[c]) <==> Allows(s.predicateFilter, s.columns[r.value])
      {
        AllowsExactly(s.projectionFilter, s.columns[c]);
        AllowsExactly(s.predicateFilter, s.columns[c]);
      }
      assert Names(s, r.value, name);
    }
  }

  // ------------------------------------------------------------------- enforcement

  lemma CheckAllMeaning(s: DatasetSchema, names: seq<string>)
    ensures CheckAll(s, names).Success? <==> forall k :: 0 <= k < |names| ==> Seen(s, names[k])
  {
    if CheckAll(s, names).Success? {
      forall k | 0 <= k < |names| ensures Seen(s, names[k]) {
        TraverseAt(VisibleLookup(s), names, k);
        FindMeaning(s, names[k]);
      }
    } else {
      var k := TraverseOffence(VisibleLookup(s), names);
      FindMeaning(s, names[k]);
    }
  }

  lemma CheckPredicatesMeaning(s: DatasetSchema, ps: seq<Predicate>)
    ensures CheckPredicates(s, ps).Success? <==> forall k :: 0 <= k < |ps| ==> Testable(s, ps[k].col)
  {
    if CheckPredicates(s, ps).Success? {
      forall k | 0 <= k < |ps| ensures Testable(s, ps[k].col) {
        TraverseAt(PredicateLookup(s), ps, k);
        FindMeaning(s, ps[k].col);
      }
    } else {
      var k := TraverseOffence(PredicateLookup(s), ps);
      FindMeaning(s, ps[k].col);
    }
  }

  ghost predicate AggSeen(s: DatasetSchema, a: Aggregation) {
    a.col.Some? ==> Seen(s, a.col.value)
  }

  lemma {:induction false} CheckAggsMeaning(s: DatasetSchema, aggs: seq<Aggregation>)
    ensures CheckAll(s, AggregatedNames(aggs)).Success? <==> forall k :: 0 <= k < |aggs| ==> AggSeen(s, aggs[k])
  {
    if aggs != [] {
      var n := |aggs| - 1;
      CheckAggsMeaning(s, aggs[..n]);
      assert forall k :: 0 <= k < n ==> aggs[..n][k] == aggs[k];
      if aggs[n].col.Some? {
        var names := AggregatedNames(aggs);
        assert names[..|names| - 1] == AggregatedNames(aggs[..n]);
        FindMeaning(s, aggs[n].col.value);
      }
    }
  }

  /** A request respects the filters: predicates name visible columns they may use; grouping,
      aggregation, ungrouped ordering and the projection name visible columns. */
  ghost predicate Respectful(r: Request, s: DatasetSchema) {
    && (forall k :: 0 <= k < |r.predicates| ==> Testable(s, r.predicates[k].col))
    && (forall k :: 0 <= k < |r.groupBy| ==> Seen(s, r.groupBy[k]))
    && (forall k :: 0 <= k < |r.aggregations| ==> AggSeen(s, r.aggregations[k]))
    && (r.groupBy == [] ==> forall k :: 0 <= k < |r.orderBy| ==> Seen(s, r.orderBy[k].col))
    && (forall k :: 0 <= k < |r.columns| ==> Seen(s, r.columns[k]))
  }

  ghost function Showing(s: DatasetSchema): nat -> bool {
    (c: nat) => Visible(s, c)
  }

  /** The names are those of the columns at the given positions, in order. */
  ghost predicate NamesAt(s: DatasetSchema, names: seq<string>, cols: seq<nat>) {
    |names| == |cols| && forall k :: 0 <= k < |cols| ==> cols[k] < |s.columns| && names[k] == s.columns[cols[k]]
  }

  /** The listing holds the columns that the filter's lists admit, each once, in schema order. */
  lemma {:induction false} VisibleNamesExactly(s: DatasetSchema, n: nat) returns (cols: seq<nat>)
    requires n <= |s.columns|
    ensures Chosen(cols, n, Showing(s)) && NamesAt(s, VisibleNames(s, n), cols)
  {
    cols := [];
    if n > 0 {
      var front := VisibleNamesExactly(s, n - 1);
      cols := OneMoreName(s, VisibleNames(s, n - 1), front, n - 1);
      AllowsExactly(s.projectionFilter, s.columns[n - 1]);
    }
  }

  lemma OneMoreName(s: DatasetSchema, names: seq<string>, front: seq<nat>, c: nat) returns (cols: seq<nat>)
    requires Chosen(front, c, Showing(s)) && NamesAt(s, names, front) && c < |s.columns|
    ensures Chosen(cols, c + 1, Showing(s))
    ensures NamesAt(s, if Visible(s, c) then names + [s.columns[c]] else names, cols)
  {
    ChosenNext(front, c, Showing(s));
    cols := if Showing(s)(c) then front + [c] else front;
  }

  lemma OrderCheckMeaning(s: DatasetSchema, os: seq<OrderBy>)
    ensures CheckAll(s, OrderedNames(os)).Success? <==> forall k :: 0 <= k < |os| ==> Seen(s, os[k].col)
  {
    CheckAllMeaning(s, OrderedNames(os));
    assert forall k :: 0 <= k < |os| ==> OrderedNames(os)[k] == os[k].col;
  }

  /** Neither filter lists anything. */
  ghost predicate Unfiltered(s: DatasetSchema) {
    s.predicateFilter == ColumnFilter([], []) && s.projectionFilter == ColumnFilter([], [])
  }

  /** The filters accept exactly the respectful requests, and change nothing but a default projection,
      which becomes the columns that the lists admit. */
  lemma EnforcedExactly(r: Request, s: DatasetSchema) returns (cols: seq<nat>)
    ensures Enforced(r, s).Success? <==> Unfiltered(s) || Respectful(r, s)
    ensures Enforced(r, s).Success? ==>
      var q := Enforced(r, s).value;
      if r.columns == [] && r.groupBy == [] && s.projectionFilter != ColumnFilter([], [])
      then q == r.(columns := q.columns) && Chosen(cols, |s.columns|, Showing(s)) && NamesAt(s, q.columns, cols)
      else q == r
  {
    CheckPredicatesMeaning(s, r.predicates);
    CheckAllMeaning(s, r.groupBy);
    CheckAggsMeaning(s, r.aggregations);
    OrderCheckMeaning(s, r.orderBy);
    CheckAllMeaning(s, r.columns);
    cols := VisibleNamesExactly(s, |s.columns|);
  }

  // ------------------------------------------------------------------------- refusals

  /** A name that a request uses: in a predicate, or in any other place that the filters check. */
  datatype Use = Use(name: string, tested: bool)

  function Uses(names: seq<string>, tested: bool): (uses: seq<Use>)
    ensures |uses| == |names| && forall k :: 0 <= k < |uses| ==> uses[k] == Use(names[k], tested)
  {
    seq(|names|, k requires 0 <= k < |names| => Use(names[k], tested))
  }

  /** All of them, in the order in which they are checked. */
  function AllUses(r: Request): seq<Use> {
    Uses(PredicateNames(r.predicates), true)
    + (Uses(r.groupBy, false)
       + (Uses(AggregatedNames(r.aggregations), false)
          + (Uses(UngroupedOrder(r), false) + Uses(r.columns, false))))
  }

  /** Grouped requests order by their own outputs. */
  function UngroupedOrder(r: Request): seq<string> {
    if r.groupBy == [] then OrderedNames(r.orderBy) else []
  }

  ghost predicate Offends(s: DatasetSchema, u: Use) {
    if u.tested then !Testable(s, u.name) else !Seen(s, u.name)
  }

  /** A name that is not seen is unknown; one that is seen but not to be tested is forbidden, under the name
      that the schema gives the column. */
  ghost predicate ErrorFor(s: DatasetSchema, u: Use, error: Error) {
    if !Seen(s, u.name) then error == UnknownColumn(u.name)
    else exists c: nat :: Names(s, c, u.name) && error == Forbidden(s.columns[c])
  }

  /** The first use that offends decides the error. */
  ghost predicate RefusedFor(s: DatasetSchema, uses: seq<Use>, error: Error) {
    exists k :: 0 <= k < |uses| && Offends(s, uses[k]) && ErrorFor(s, uses[k], error)
                && forall j :: 0 <= j < k ==> !Offends(s, uses[j])
  }

  ghost predicate NoOffence(s: DatasetSchema, uses: seq<Use>) {
    forall k :: 0 <= k < |uses| ==> !Offends(s, uses[k])
  }

  lemma {:induction false} TraverseFirst<A, B>(f: A -> Result<B, Error>, xs: seq<A>) returns (k: nat)
    requires Traverse(f, xs).Failure?
    ensures k < |xs| && f(xs[k]).Failure? && Traverse(f, xs) == Failure(f(xs[k]).error)
    ensures forall j :: 0 <= j < k ==> f(xs[j]).Success?
  {
    k := |xs| - 1;
    if Traverse(f, xs[..k]).Failure? {
      k := TraverseFirst(f, xs[..k]);
    } else {
      forall j: nat | j < k ensures f(xs[j]).Success? { TraverseAt(f, xs[..k], j); }
    }
  }

  lemma LookupError(s: DatasetSchema, name: string)
    ensures FindVisible(s, name).Failure? ==> ErrorFor(s, Use(name, false), FindVisible(s, name).error)
    ensures FindForPredicate(s, name).Failure? ==> ErrorFor(s, Use(name, true), FindForPredicate(s, name).error)
  {
    FindMeaning(s, name);
    HiddenLooksAbsent(s, name);
    if Find(s, name).Success? { assert Names(s, Find(s, name).value, name); }
  }

  lemma NamesRefused(s: DatasetSchema, names: seq<string>)
    ensures CheckAll(s, names).Success? ==> NoOffence(s, Uses(names, false))
    ensures CheckAll(s, names).Failure? ==> RefusedFor(s, Uses(names, false), CheckAll(s, names).error)
  {
    if CheckAll(s, names).Success? {
      CheckAllMeaning(s, names);
    } else {
      var k := TraverseFirst(VisibleLookup(s), names);
      forall j | 0 <= j <= k ensures Offends(s, Uses(names, false)[j]) <==> FindVisible(s, names[j]).Failure? {
        FindMeaning(s, names[j]);
        assert VisibleLookup(s)(names[j]) == FindVisible(s, names[j]);
      }
      LookupError(s, names[k]);
    }
  }

  lemma PredicatesRefused(s: DatasetSchema, ps: seq<Predicate>)
    ensures CheckPredicates(s, ps).Success? ==> NoOffence(s, Uses(PredicateNames(ps), true))
    ensures CheckPredicates(s, ps).Failure? ==>
      RefusedFor(s, Uses(PredicateNames(ps), true), CheckPredicates(s, ps).error)
  {
    if CheckPredicates(s, ps).Success? {
      CheckPredicatesMeaning(s, ps);
    } else {
      var k := TraverseFirst(PredicateLookup(s), ps);
      var uses := Uses(PredicateNames(ps), true);
      forall j | 0 <= j <= k ensures Offends(s, uses[j]) <==> FindForPredicate(s, ps[j].col).Failure? {
        FindMeaning(s, ps[j].col);
        assert PredicateLookup(s)(ps[j]) == FindForPredicate(s, ps[j].col);
      }
      LookupError(s, ps[k].col);
    }
  }

  lemma RefusedHere(s: DatasetSchema, uses: seq<Use>, rest: seq<Use>, error: Error)
    requires RefusedFor(s, uses, error)
    ensures RefusedFor(s, uses + rest, error)
  {
    var k :| 0 <= k < |uses| && Offends(s, uses[k]) && ErrorFor(s, uses[k], error)
             && forall j :: 0 <= j < k ==> !Offends(s, uses[j]);
    assert (uses + rest)[k] == uses[k];
  }

  lemma RefusedLater(s: DatasetSchema, done: seq<Use>, rest: seq<Use>, error: Error)
    requires NoOffence(s, done) && RefusedFor(s, rest, error)
    ensures RefusedFor(s, done + rest, error)
  {
    var k :| 0 <= k < |rest| && Offends(s, rest[k]) && ErrorFor(s, rest[k], error)
             && forall j :: 0 <= j < k ==> !Offends(s, rest[j]);
    var all := done + rest;
    assert all[|done| + k] == rest[k];
    forall j | 0 <= j < |done| + k ensures !Offends(s, all[j]) {
      if j >= |done| { assert all[j] == rest[j - |done|]; }
    }
  }

  /** One check and those after it. */
  lemma CheckDecides(s: DatasetSchema, check: Result<seq<nat>, Error>, uses: seq<Use>, rest: seq<Use>, error: Error)
    requires check.Success? ==> NoOffence(s, uses) && RefusedFor(s, rest, error)
    requires check.Failure? ==> RefusedFor(s, uses, error)
    ensures RefusedFor(s, uses + rest, error)
  {
    if check.Success? { RefusedLater(s, uses, rest, error); } else { RefusedHere(s, uses, rest, error); }
  }

  /** A refused request gets the error of the first of its names that offends: predicates first, then
      grouping, aggregations, ungrouped ordering, and the projection. */
  lemma EnforcedError(r: Request, s: DatasetSchema)
    ensures Enforced(r, s).Failure? ==> RefusedFor(s, AllUses(r), Enforced(r, s).error)
  {
    if Enforced(r, s).Failure? {
      var error := Enforced(r, s).error;
      var tests, groups := CheckPredicates(s, r.predicates), CheckAll(s, r.groupBy);
      var aggs, orders := CheckAll(s, AggregatedNames(r.aggregations)), CheckAll(s, UngroupedOrder(r));
      PredicatesRefused(s, r.predicates);
      NamesRefused(s, r.groupBy);
      NamesRefused(s, AggregatedNames(r.aggregations));
      NamesRefused(s, UngroupedOrder(r));
      NamesRefused(s, r.columns);
      var u5 := Uses(r.columns, false);
      var u4 := Uses(UngroupedOrder(r), false) + u5;
      var u3 := Uses(AggregatedNames(r.aggregations), false) + u4;
      var u2 := Uses(r.groupBy, false) + u3;
      if tests.Success? && groups.Success? && aggs.Success? {
        CheckDecides(s, orders, Uses(UngroupedOrder(r), false), u5, error);
      }
      if tests.Success? && groups.Success? {
        CheckDecides(s, aggs, Uses(AggregatedNames(r.aggregations), false), u4, error);
      }
      if tests.Success? { CheckDecides(s, groups, Uses(r.groupBy, false), u3, error); }
      CheckDecides(s, tests, Uses(PredicateNames(r.predicates), true), u2, error);
    }
  }

  // ---------------------------------------------------------------------- planning

  lemma ResolveAllMeaning(s: DatasetSchema, names: seq<string>)
    ensures ResolveAll(s, names).Success? <==> forall k :: 0 <= k < |names| ==> Known(s, names[k])
    ensures ResolveAll(s, names).Success? ==>
      && |ResolveAll(s, names).value| == |names|
      && forall k :: 0 <= k < |names| ==> Names(s, ResolveAll(s, names).value[k], names[k])
  {
    if ResolveAll(s, names).Success? {
      TraverseAt(Lookup(s), names, 0);
      forall k | 0 <= k < |names| ensures Known(s, names[k]) && Names(s, ResolveAll(s, names).value[k], names[k]) {
        TraverseAt(Lookup(s), names, k);
        FindMeaning(s, names[k]);
      }
    } else {
      var k := TraverseOffence(Lookup(s), names);
      FindMeaning(s, names[k]);
    }
  }

  /** A known operation, on a known column; only a count may go without one. */
  ghost predicate Sensible(s: DatasetSchema, a: Aggregation) {
    && (exists op: AggOp :: OpName(op) == Lower(a.op))
    && if a.col.None? then Lower(a.op) == "count" else Known(s, a.col.value)
  }

  /** The resolved aggregation is the one asked for, under the given or the default label. */
  ghost predicate Renders(s: DatasetSchema, a: Aggregation, spec: AggSpec) {
    && OpName(spec.op) == Lower(a.op)
    && spec.col.Some? == a.col.Some?
    && (spec.col.Some? ==> Names(s, spec.col.value, a.col.value))
    && (if a.outName.Some? then spec.outName == a.outName.value
        else spec.outName == if a.col.None? then "count" else Lower(a.op) + "_" + Lower(a.col.value))
  }

  lemma ParseOpMeaning(op: string)
    ensures ParseOp(op).Some? ==> OpName(ParseOp(op).value) == Lower(op)
    ensures ParseOp(op).None? ==> forall o: AggOp :: OpName(o) != Lower(op)
    ensures OpName(Count) == Lower(op) ==> ParseOp(op) == Some(Count)
  {
  }

  lemma PlanOneMeaning(s: DatasetSchema, a: Aggregation)
    ensures PlanOne(s, a).Success? <==> Sensible(s, a)
    ensures PlanOne(s, a).Success? ==> Renders(s, a, PlanOne(s, a).value)
  {
    ParseOpMeaning(a.op);
    if a.col.Some? { FindMeaning(s, a.col.value); }
  }

  lemma PlanAggsMeaning(s: DatasetSchema, aggs: seq<Aggregation>)
    ensures PlanAggs(s, aggs).Success? <==> forall k :: 0 <= k < |aggs| ==> Sensible(s, aggs[k])
    ensures PlanAggs(s, aggs).Success? ==>
      && |PlanAggs(s, aggs).value| == |aggs|
      && forall k :: 0 <= k < |aggs| ==> Renders(s, aggs[k], PlanAggs(s, aggs).value[k])
  {
    if PlanAggs(s, aggs).Success? {
      TraverseAt(AggPlanner(s), aggs, 0);
      forall k | 0 <= k < |aggs| ensures Sensible(s, aggs[k]) && Renders(s, aggs[k], PlanAggs(s, aggs).value[k]) {
        TraverseAt(AggPlanner(s), aggs, k);
        PlanOneMeaning(s, aggs[k]);
      }
    } else {
      var k := TraverseOffence(AggPlanner(s), aggs);
      PlanOneMeaning(s, aggs[k]);
    }
  }

  /** The plan groups by the named columns, in order, and renders every aggregation, in order; a bare
      grouping counts its rows. */
  ghost predicate Realizes(s: DatasetSchema, r: Request, plan: AggPlan) {
    && |plan.groupCols| == |r.groupBy|
    && (forall k :: 0 <= k < |r.groupBy| ==> Names(s, plan.groupCols[k], r.groupBy[k]))
    && if r.aggregations == [] then plan.aggs == [AggSpec(None, Count, "count")]
       else |plan.aggs| == |r.aggregations|
            && forall k :: 0 <= k < |plan.aggs| ==> Renders(s, r.aggregations[k], plan.aggs[k])
  }

  /** Which requests have a plan, and that the plan realizes the request. */
  lemma PlannedExactly(r: Request, s: DatasetSchema)
    ensures Planned(r, s).Success? <==>
      if r.groupBy == [] then r.aggregations == []
      else !r.distinct && (forall k :: 0 <= k < |r.groupBy| ==> Known(s, r.groupBy[k]))
           && (forall k :: 0 <= k < |r.aggregations| ==> Sensible(s, r.aggregations[k]))
    ensures Planned(r, s).Success? ==> (Planned(r, s).value.None? <==> r.groupBy == [])
    ensures Planned(r, s).Success? && r.groupBy != [] ==> Realizes(s, r, Planned(r, s).value.value)
  {
    ResolveAllMeaning(s, r.groupBy);
    PlanAggsMeaning(s, EffectiveAggs(r));
    if r.aggregations == [] { BareGroupingCounts(s); }
  }

  lemma BareGroupingCounts(s: DatasetSchema)
    ensures PlanAggs(s, [Aggregation(None, "count", None)]) == Success([AggSpec(None, Count, "count")])
  {
    var bare := Aggregation(None, "count", None);
    assert Lower("count") == "count" by {
      assert "count"[1..] == "ount" && "ount"[1..] == "unt" && "unt"[1..] == "nt" && "nt"[1..] == "t" && "t"[1..] == "";
    }
    assert AggPlanner(s)(bare) == PlanOne(s, bare) == Success(AggSpec(None, Count, "count"));
    if PlanAggs(s, [bare]).Failure? {
      var k := TraverseOffence(AggPlanner(s), [bare]);
    } else {
      TraverseAt(AggPlanner(s), [bare], 0);
      assert PlanAggs(s, [bare]).value == [AggSpec(None, Count, "count")];
    }
  }

  /** An aggregation that is not sensible is invalid, unless all that is wrong with it is its column. */
  ghost predicate AggError(s: DatasetSchema, a: Aggregation, error: Error) {
    if (exists op: AggOp :: OpName(op) == Lower(a.op)) && a.col.Some? then error == UnknownColumn(a.col.value)
    else error == InvalidValue
  }

  ghost predicate FirstUnknown(s: DatasetSchema, names: seq<string>, error: Error) {
    exists k :: 0 <= k < |names| && !Known(s, names[k]) && error == UnknownColumn(names[k])
                && forall j :: 0 <= j < k ==> Known(s, names[j])
  }

  ghost predicate FirstUnplanned(s: DatasetSchema, aggs: seq<Aggregation>, error: Error) {
    exists k :: 0 <= k < |aggs| && !Sensible(s, aggs[k]) && AggError(s, aggs[k], error)
                && forall j :: 0 <= j < k ==> Sensible(s, aggs[j])
  }

  /** Why a request has no plan: for its shape, or for the first name to group by or aggregation that cannot
      be resolved. */
  lemma PlannedError(r: Request, s: DatasetSchema)
    ensures Planned(r, s).Failure? ==>
      var error := Planned(r, s).error;
      if r.groupBy == [] || r.distinct then error == InvalidValue
      else FirstUnknown(s, r.groupBy, error)
           || ((forall k :: 0 <= k < |r.groupBy| ==> Known(s, r.groupBy[k]))
               && FirstUnplanned(s, r.aggregations, error))
  {
    if Planned(r, s).Failure? && r.groupBy != [] && !r.distinct {
      ResolveAllMeaning(s, r.groupBy);
      if ResolveAll(s, r.groupBy).Failure? {
        UnresolvedFirst(s, r.groupBy);
      } else {
        BareGroupingCounts(s);
        UnplannedFirst(s, r.aggregations);
      }
    }
  }

  lemma UnresolvedFirst(s: DatasetSchema, names: seq<string>)
    requires ResolveAll(s, names).Failure?
    ensures FirstUnknown(s, names, ResolveAll(s, names).error)
  {
    var k := TraverseFirst(Lookup(s), names);
    forall j | 0 <= j <= k ensures Known(s, names[j]) <==> Lookup(s)(names[j]).Success? { FindMeaning(s, names[j]); }
  }

  lemma UnplannedFirst(s: DatasetSchema, aggs: seq<Aggregation>)
    requires PlanAggs(s, aggs).Failure?
    ensures FirstUnplanned(s, aggs, PlanAggs(s, aggs).error)
  {
    var k := TraverseFirst(AggPlanner(s), aggs);
    forall j | 0 <= j <= k ensures Sensible(s, aggs[j]) <==> AggPlanner(s)(aggs[j]).Success? {
      PlanOneMeaning(s, aggs[j]);
    }
    ParseOpMeaning(aggs[k].op);
    if aggs[k].col.Some? { FindMeaning(s, aggs[k].col.value); }
  }

  /** Position of the first output that bears the name. */
  ghost predicate FirstNamed(names: seq<string>, at: int, name: string) {
    && 0 <= at < |names| && Lower(names[at]) == Lower(name)
    && forall k :: 0 <= k < at ==> Lower(names[k]) != Lower(name)
  }

  lemma {:induction false} OutputAtMeaning(names: seq<string>, name: string)
    ensures OutputAt(names, name).None? <==> forall k :: 0 <= k < |names| ==> Lower(names[k]) != Lower(name)
    ensures OutputAt(names, name).Some? ==> FirstNamed(names, OutputAt(names, name).value, name)
  {
    if names != [] && Lower(names[0]) != Lower(name) {
      OutputAtMeaning(names[1..], name);
      assert forall k :: 0 < k < |names| ==> names[k] == names[1..][k - 1];
    }
  }

  ghost predicate HasOutput(names: seq<string>, name: string) {
    exists k :: 0 <= k < |names| && Lower(names[k]) == Lower(name)
  }

  /** HAVING refers to outputs by position, in order; names that are no output are refused. */
  lemma OutputsForMeaning(names: seq<string>, cols: seq<string>)
    ensures OutputsFor(names, cols).Success? <==> forall k :: 0 <= k < |cols| ==> HasOutput(names, cols[k])
    ensures OutputsFor(names, cols).Success? ==>
      && |OutputsFor(names, cols).value| == |cols|
      && forall k :: 0 <= k < |cols| ==> FirstNamed(names, OutputsFor(names, cols).value[k], cols[k])
  {
    if OutputsFor(names, cols).Success? {
      TraverseAt(OutputLookup(names), cols, 0);
      forall k | 0 <= k < |cols|
        ensures HasOutput(names, cols[k]) && FirstNamed(names, OutputsFor(names, cols).value[k], cols[k])
      {
        TraverseAt(OutputLookup(names), cols, k);
        OutputAtMeaning(names, cols[k]);
      }
    } else {
      var k := TraverseOffence(OutputLookup(names), cols);
      OutputAtMeaning(names, cols[k]);
    }
  }

  ghost predicate DirectionOk(dir: Option<string>) {
    dir.None? || Lower(dir.value) == "asc" || Lower(dir.value) == "desc"
  }

  ghost predicate Orderable(s: DatasetSchema, plan: Option<AggPlan>, o: OrderBy) {
    DirectionOk(o.dir) && if plan.Some? then HasOutput(OutputNames(s, plan.value), o.col) else Known(s, o.col)
  }

  /** The key sorts by what the entry names, and descends only when told to. */
  ghost predicate SortsBy(s: DatasetSchema, plan: Option<AggPlan>, o: OrderBy, key: SortKey) {
    && (key.descending <==> o.dir.Some? && Lower(o.dir.value) == "desc")
    && if plan.Some? then FirstNamed(OutputNames(s, plan.value), key.at, o.col) else Names(s, key.at, o.col)
  }

  lemma OrderKeyMeaning(s: DatasetSchema, plan: Option<AggPlan>, o: OrderBy)
    ensures OrderKey(s, plan, o).Success? <==> Orderable(s, plan, o)
    ensures OrderKey(s, plan, o).Success? ==> SortsBy(s, plan, o, OrderKey(s, plan, o).value)
  {
    if plan.Some? { OutputAtMeaning(OutputNames(s, plan.value), o.col); }
    FindMeaning(s, o.col);
    assert "asc" != "desc";
    assert Lower("asc") == "asc" by { assert "asc"[1..] == "sc" && "sc"[1..] == "c" && "c"[1..] == ""; }
  }

  /** Ordering is accepted exactly when every entry is, and its keys sort by the entries in order. */
  lemma OrderPlanExactly(s: DatasetSchema, plan: Option<AggPlan>, os: seq<OrderBy>)
    ensures OrderPlan(s, plan, os).Success? <==> forall k :: 0 <= k < |os| ==> Orderable(s, plan, os[k])
    ensures OrderPlan(s, plan, os).Success? ==>
      && |OrderPlan(s, plan, os).value| == |os|
      && forall k :: 0 <= k < |os| ==> SortsBy(s, plan, os[k], OrderPlan(s, plan, os).value[k])
  {
    if OrderPlan(s, plan, os).Success? {
      TraverseAt(OrderKeys(s, plan), os, 0);
      forall k | 0 <= k < |os|
        ensures Orderable(s, plan, os[k]) && SortsBy(s, plan, os[k], OrderPlan(s, plan, os).value[k])
      {
        TraverseAt(OrderKeys(s, plan), os, k);
        OrderKeyMeaning(s, plan, os[k]);
      }
    } else {
      var k := TraverseOffence(OrderKeys(s, plan), os);
      OrderKeyMeaning(s, plan, os[k]);
    }
  }
}
