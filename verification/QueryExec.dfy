/** A relational reading of planned requests, and the proof that accepted requests see visible
    columns only. */
module QueryExec {
  import opened Wrappers
  import opened Text
  import opened Schema
  import opened Query
  import opened Pages

  type Table = seq<seq<Value>>

  /** The engine's own operations: testing a value, aggregating values, and ordering rows by their
      sort keys. Each sees only the values it is given. */
  datatype Engine = Engine(
    test: (Predicate, Value) -> bool,
    aggregate: (AggOp, seq<Value>) -> Value,
    arrange: (seq<seq<Value>>, seq<bool>) -> seq<nat>)

  function Cell(t: Table, i: int, c: int): Value {
    if 0 <= i < |t| && 0 <= c < |t[i]| then t[i][c] else Null
  }

  function Tuple(t: Table, i: nat, cols: seq<nat>): seq<Value> {
    seq(|cols|, k requires 0 <= k < |cols| => Cell(t, i, cols[k]))
  }

  function Tuples(t: Table, rows: seq<nat>, cols: seq<nat>): seq<seq<Value>> {
    seq(|rows|, k requires 0 <= k < |rows| => Tuple(t, rows[k], cols))
  }

  // ------------------------------------------------------------------------ stages

  /** A tuple passes when every predicate accepts its value. */
  predicate Passes(e: Engine, ps: seq<Predicate>, values: seq<Value>) {
    forall k :: 0 <= k < |ps| && k < |values| ==> e.test(ps[k], values[k])
  }

  /** WHERE: the row numbers below `n` that pass. */
  function Where(e: Engine, ps: seq<Predicate>, cols: seq<nat>, t: Table, n: nat): seq<nat> {
    if n == 0 then []
    else
      var front := Where(e, ps, cols, t, n - 1);
      if Passes(e, ps, Tuple(t, n - 1, cols)) then front + [n - 1] else front
  }

  function Pick<T>(xs: seq<T>, order: seq<nat>): seq<T> {
    if order == [] then []
    else
      var front := Pick(xs, order[..|order| - 1]);
      var k := order[|order| - 1];
      if k < |xs| then front + [xs[k]] else front
  }

  function Descending(keys: seq<SortKey>): seq<bool> {
    seq(|keys|, k requires 0 <= k < |keys| => keys[k].descending)
  }

  function Positions(keys: seq<SortKey>): (cols: seq<nat>)
    ensures |cols| == |keys| && forall k :: 0 <= k < |keys| ==> cols[k] == keys[k].at
  {
    seq(|keys|, k requires 0 <= k < |keys| => keys[k].at)
  }

  function Dedup<T(==)>(xs: seq<T>): seq<T> {
    if xs == [] then []
    else
      var front, x := Dedup(xs[..|xs| - 1]), xs[|xs| - 1];
      if x in front then front else front + [x]
  }

  /** Plain and DISTINCT requests: filter, order, project. */
  function RowResult(e: Engine, distinct: bool, keys: seq<SortKey>, projection: seq<nat>, t: Table,
          kept: seq<nat>): seq<seq<Value>>
  {
    var ordered :=
      if keys == [] then kept else Pick(kept, e.arrange(Tuples(t, kept, Positions(keys)), Descending(keys)));
    var out := Tuples(t, ordered, projection);
    if distinct then Dedup(out) else out
  }

  /** The kept rows whose group key is `g`. */
  function Members(kept: seq<nat>, groupKeys: seq<seq<Value>>, g: seq<Value>): seq<nat>
    requires |kept| == |groupKeys|
  {
    if kept == [] then []
    else
      var n := |kept| - 1;
      var front := Members(kept[..n], groupKeys[..n], g);
      if groupKeys[n] == g then front + [kept[n]] else front
  }

  /** What an aggregation is computed over: a column of the group, or one null per row. */
  function Operands(t: Table, members: seq<nat>, col: Option<nat>): seq<Value> {
    seq(|members|, k requires 0 <= k < |members| => if col.Some? then Cell(t, members[k], col.value) else Null)
  }

  function Aggregates(e: Engine, t: Table, members: seq<nat>, aggs: seq<AggSpec>): seq<Value> {
    seq(|aggs|, k requires 0 <= k < |aggs| => e.aggregate(aggs[k].op, Operands(t, members, aggs[k].col)))
  }

  function GroupOutputs(e: Engine, t: Table, kept: seq<nat>, groupKeys: seq<seq<Value>>, groups: seq<seq<Value>>,
          aggs: seq<AggSpec>): seq<seq<Value>>
    requires |kept| == |groupKeys|
  {
    seq(|groups|, k requires 0 <= k < |groups| =>
      groups[k] + Aggregates(e, t, Members(kept, groupKeys, groups[k]), aggs))
  }

  /** HAVING over output rows. */
  function Having(e: Engine, ps: seq<Predicate>, cols: seq<nat>, outs: seq<seq<Value>>): seq<seq<Value>> {
    if outs == [] then []
    else
      var n := |outs| - 1;
      var front := Having(e, ps, cols, outs[..n]);
      if Passes(e, ps, Tuple(outs, n, cols)) then front + [outs[n]] else front
  }

  function AllRows(n: nat): seq<nat> {
    seq(n, k requires 0 <= k < n => k)
  }

  /** Grouped requests: filter, group, aggregate, HAVING, order. */
  function GroupResult(e: Engine, plan: AggPlan, having: seq<Predicate>, havingCols: seq<nat>, keys: seq<SortKey>,
          t: Table, kept: seq<nat>): seq<seq<Value>>
  {
    var groupKeys := Tuples(t, kept, plan.groupCols);
    var outs := Having(e, having, havingCols, GroupOutputs(e, t, kept, groupKeys, Dedup(groupKeys), plan.aggs));
    if keys == [] then outs
    else Pick(outs, e.arrange(Tuples(outs, AllRows(|outs|), Positions(keys)), Descending(keys)))
  }

  function ProjectionOf(s: DatasetSchema, r: Request): Result<seq<nat>, Error> {
    if r.columns == [] then Success(AllRows(|s.columns|)) else ResolveAll(s, r.columns)
  }

  /** Everything the backend resolves before touching a row. */
  datatype Resolved = Resolved(
    grouping: Option<AggPlan>,
    whereCols: seq<nat>,
    havingCols: seq<nat>,
    keys: seq<SortKey>,
    projection: seq<nat>)

  function ResolveRequest(s: DatasetSchema, r: Request): Result<Resolved, Error> {
    var plan := Planned(r, s);
    if plan.Failure? then Failure(plan.error)
    else
      var where := ResolveAll(s, PredicateNames(r.predicates));
      if where.Failure? then Failure(where.error)
      else
        var having := HavingPlan(s, plan.value, r.having);
        if having.Failure? then Failure(having.error)
        else
          var keys := OrderPlan(s, plan.value, r.orderBy);
          if keys.Failure? then Failure(keys.error)
          else if plan.value.Some? then Success(Resolved(plan.value, where.value, having.value, keys.value, []))
          else
            var projection := ProjectionOf(s, r);
            if projection.Failure? then Failure(projection.error)
            else Success(Resolved(None, where.value, having.value, keys.value, projection.value))
  }

  /** The rows of a resolved request, before paging. */
  function Evaluate(e: Engine, r: Request, p: Resolved, t: Table): seq<seq<Value>> {
    var kept := Where(e, r.predicates, p.whereCols, t, |t|);
    if p.grouping.Some? then GroupResult(e, p.grouping.value, r.having, p.havingCols, p.keys, t, kept)
    else RowResult(e, r.distinct, p.keys, p.projection, t, kept)
  }

  /** A request as the backend executes it, after column filters were enforced. */
  function Exec(e: Engine, s: DatasetSchema, r: Request, cap: nat, t: Table): Result<seq<seq<Value>>, Error>
    requires cap >= 1
  {
    var p := ResolveRequest(s, r);
    if p.Failure? then Failure(p.error)
    else Success(Slice(Evaluate(e, r, p.value, t), PageWindow(r.page, r.pageSize, r.limit, cap)))
  }

  // -------------------------------------------------- agreement on visible columns

  /** Two tables of equal length that agree wherever the schema lets a caller look. */
  ghost predicate Agree(s: DatasetSchema, t: Table, u: Table) {
    && |t| == |u|
    && forall i: nat, c: nat :: i < |t| && Visible(s, c) ==> Cell(t, i, c) == Cell(u, i, c)
  }

  ghost predicate AllVisible(s: DatasetSchema, cols: seq<nat>) {
    forall k :: 0 <= k < |cols| ==> Visible(s, cols[k])
  }

  lemma TupleAgrees(s: DatasetSchema, t: Table, u: Table, i: nat, cols: seq<nat>)
    requires Agree(s, t, u) && AllVisible(s, cols)
    ensures Tuple(t, i, cols) == Tuple(u, i, cols)
  {
    forall k | 0 <= k < |cols| ensures Cell(t, i, cols[k]) == Cell(u, i, cols[k]) {
      if i < |t| { assert Visible(s, cols[k]); }
    }
  }

  lemma TuplesAgree(s: DatasetSchema, t: Table, u: Table, rows: seq<nat>, cols: seq<nat>)
    requires Agree(s, t, u) && AllVisible(s, cols)
    ensures Tuples(t, rows, cols) == Tuples(u, rows, cols)
  {
    forall k | 0 <= k < |rows| ensures Tuple(t, rows[k], cols) == Tuple(u, rows[k], cols) {
      TupleAgrees(s, t, u, rows[k], cols);
    }
  }

  lemma {:induction false} WhereAgrees(s: DatasetSchema, e: Engine, ps: seq<Predicate>, cols: seq<nat>, t: Table,
          u: Table, n: nat)
    requires Agree(s, t, u) && AllVisible(s, cols)
    ensures Where(e, ps, cols, t, n) == Where(e, ps, cols, u, n)
  {
    if n > 0 {
      WhereAgrees(s, e, ps, cols, t, u, n - 1);
      TupleAgrees(s, t, u, n - 1, cols);
    }
  }

  lemma RowResultAgrees(s: DatasetSchema, e: Engine, distinct: bool, keys: seq<SortKey>, projection: seq<nat>, t: Table,
          u: Table, kept: seq<nat>)
    requires Agree(s, t, u) && AllVisible(s, projection) && AllVisible(s, Positions(keys))
    ensures RowResult(e, distinct, keys, projection, t, kept) == RowResult(e, distinct, keys, projection, u, kept)
  {
    TuplesAgree(s, t, u, kept, Positions(keys));
    var ordered :=
      if keys == [] then kept else Pick(kept, e.arrange(Tuples(t, kept, Positions(keys)), Descending(keys)));
    TuplesAgree(s, t, u, ordered, projection);
  }

  ghost predicate AggsVisible(s: DatasetSchema, aggs: seq<AggSpec>) {
    forall k :: 0 <= k < |aggs| && aggs[k].col.Some? ==> Visible(s, aggs[k].col.value)
  }

  lemma AggregatesAgree(s: DatasetSchema, e: Engine, t: Table, u: Table, members: seq<nat>, aggs: seq<AggSpec>)
    requires Agree(s, t, u) && AggsVisible(s, aggs)
    ensures Aggregates(e, t, members, aggs) == Aggregates(e, u, members, aggs)
  {
    forall k | 0 <= k < |aggs| ensures Operands(t, members, aggs[k].col) == Operands(u, members, aggs[k].col) {
      if aggs[k].col.Some? {
        assert Visible(s, aggs[k].col.value);
        assert forall m :: 0 <= m < |members| ==>
          Cell(t, members[m], aggs[k].col.value) == Cell(u, members[m], aggs[k].col.value);
      }
    }
  }

  lemma GroupResultAgrees(s: DatasetSchema, e: Engine, plan: AggPlan, having: seq<Predicate>, havingCols: seq<nat>,
          keys: seq<SortKey>, t: Table, u: Table, kept: seq<nat>)
    requires Agree(s, t, u) && AllVisible(s, plan.groupCols) && AggsVisible(s, plan.aggs)
    ensures GroupResult(e, plan, having, havingCols, keys, t, kept)
         == GroupResult(e, plan, having, havingCols, keys, u, kept)
  {
    TuplesAgree(s, t, u, kept, plan.groupCols);
    var groupKeys := Tuples(t, kept, plan.groupCols);
    var groups := Dedup(groupKeys);
    forall k | 0 <= k < |groups|
      ensures Aggregates(e, t, Members(kept, groupKeys, groups[k]), plan.aggs)
           == Aggregates(e, u, Members(kept, groupKeys, groups[k]), plan.aggs)
    {
      AggregatesAgree(s, e, t, u, Members(kept, groupKeys, groups[k]), plan.aggs);
    }
    assert GroupOutputs(e, t, kept, groupKeys, groups, plan.aggs)
        == GroupOutputs(e, u, kept, groupKeys, groups, plan.aggs);
  }

  // --------------------------------------------- accepted requests resolve visibly

  lemma FoundVisible(s: DatasetSchema, name: string)
    requires HasColumnFilters(s) ==> FindVisible(s, name).Success?
    ensures Find(s, name).Success? ==> Visible(s, Find(s, name).value)
  {
    if Find(s, name).Success? { AllowsExactly(s.projectionFilter, s.columns[Find(s, name).value]); }
  }

  lemma ResolvedVisible(s: DatasetSchema, names: seq<string>)
    requires HasColumnFilters(s) ==> CheckAll(s, names).Success?
    ensures ResolveAll(s, names).Success? ==> AllVisible(s, ResolveAll(s, names).value)
  {
    if ResolveAll(s, names).Success? {
      var cols := ResolveAll(s, names).value;
      forall k | 0 <= k < |cols| ensures Visible(s, cols[k]) {
        TraverseAt(Lookup(s), names, k);
        if HasColumnFilters(s) { TraverseAt(VisibleLookup(s), names, k); }
        FoundVisible(s, names[k]);
      }
    }
  }

  lemma PredicatesVisible(s: DatasetSchema, ps: seq<Predicate>)
    requires HasColumnFilters(s) ==> CheckPredicates(s, ps).Success?
    ensures var cols := ResolveAll(s, PredicateNames(ps)); cols.Success? ==> AllVisible(s, cols.value)
  {
    var names := PredicateNames(ps);
    if ResolveAll(s, names).Success? {
      var cols := ResolveAll(s, names).value;
      forall k | 0 <= k < |cols| ensures Visible(s, cols[k]) {
        TraverseAt(Lookup(s), names, k);
        if HasColumnFilters(s) { TraverseAt(PredicateLookup(s), ps, k); }
        FoundVisible(s, names[k]);
      }
    }
  }

  lemma OrderVisible(s: DatasetSchema, os: seq<OrderBy>)
    requires HasColumnFilters(s) ==> CheckAll(s, OrderedNames(os)).Success?
    ensures var keys := OrderPlan(s, None, os); keys.Success? ==> AllVisible(s, Positions(keys.value))
  {
    if OrderPlan(s, None, os).Success? {
      var keys := OrderPlan(s, None, os).value;
      forall k | 0 <= k < |keys| ensures Visible(s, keys[k].at) {
        TraverseAt(OrderKeys(s, None), os, k);
        if HasColumnFilters(s) { TraverseAt(VisibleLookup(s), OrderedNames(os), k); }
        FoundVisible(s, os[k].col);
      }
    }
  }

  lemma {:induction false} AggregatedAt(aggs: seq<Aggregation>, k: nat) returns (at: nat)
    requires k < |aggs| && aggs[k].col.Some?
    ensures at < |AggregatedNames(aggs)| && AggregatedNames(aggs)[at] == aggs[k].col.value
  {
    var n := |aggs| - 1;
    if k < n { at := AggregatedAt(aggs[..n], k); } else { at := |AggregatedNames(aggs[..n])|; }
  }

  lemma PlannedAggsVisible(s: DatasetSchema, aggs: seq<Aggregation>)
    requires HasColumnFilters(s) ==> CheckAll(s, AggregatedNames(aggs)).Success?
    ensures PlanAggs(s, aggs).Success? ==> AggsVisible(s, PlanAggs(s, aggs).value)
  {
    if PlanAggs(s, aggs).Success? {
      var specs := PlanAggs(s, aggs).value;
      forall k | 0 <= k < |specs| && specs[k].col.Some? ensures Visible(s, specs[k].col.value) {
        TraverseAt(AggPlanner(s), aggs, k);
        var at := AggregatedAt(aggs, k);
        if HasColumnFilters(s) { TraverseAt(VisibleLookup(s), AggregatedNames(aggs), at); }
        FoundVisible(s, aggs[k].col.value);
      }
    }
  }

  lemma VisibleNamesResolveVisibly(s: DatasetSchema, names: seq<string>)
    requires forall k :: 0 <= k < |names| ==> Admits(s.projectionFilter, names[k])
    ensures ResolveAll(s, names).Success? ==> AllVisible(s, ResolveAll(s, names).value)
  {
    if ResolveAll(s, names).Success? {
      var cols := ResolveAll(s, names).value;
      forall k | 0 <= k < |cols| ensures Visible(s, cols[k]) {
        TraverseAt(Lookup(s), names, k);
        FoldedAlikeVisibleAlike(s, names[k], s.columns[cols[k]]);
      }
    }
  }

  ghost predicate SomeVisible(s: DatasetSchema) {
    exists c: nat :: Visible(s, c)
  }

  /** There are columns, and the projection filter hides every one. */
  ghost predicate AllHidden(s: DatasetSchema) {
    s.columns != [] && !SomeVisible(s)
  }

  /** What the filter check established about the request it let through. */
  lemma EnforcedChecks(s: DatasetSchema, r: Request, q: Request)
    requires Enforced(r, s) == Success(q)
    ensures q == r.(columns := q.columns)
    ensures HasColumnFilters(s) ==>
      && CheckPredicates(s, q.predicates).Success? && CheckAll(s, q.groupBy).Success?
      && CheckAll(s, AggregatedNames(q.aggregations)).Success?
      && (q.groupBy == [] ==> CheckAll(s, OrderedNames(q.orderBy)).Success?)
    ensures r.columns != [] && HasColumnFilters(s) ==> q.columns == r.columns && CheckAll(s, q.columns).Success?
    ensures r.columns == [] && q.groupBy == [] && IsActive(s.projectionFilter) ==>
      q.columns == VisibleNames(s, |s.columns|)
    ensures !IsActive(s.projectionFilter) ==> q.columns == r.columns
  {
  }

  lemma AllRowsVisible(s: DatasetSchema)
    requires !IsActive(s.projectionFilter)
    ensures AllVisible(s, AllRows(|s.columns|))
  {
  }

  lemma VisibleNamesListed(s: DatasetSchema)
    requires !AllHidden(s)
    ensures VisibleNames(s, |s.columns|) == [] ==> s.columns == []
  {
  }

  /** An enforced, ungrouped request projects visible columns, unless all are hidden. */
  lemma ProjectionVisible(s: DatasetSchema, r: Request, q: Request)
    requires Enforced(r, s) == Success(q) && q.groupBy == [] && !AllHidden(s)
    ensures ProjectionOf(s, q).Success? ==> AllVisible(s, ProjectionOf(s, q).value)
  {
    EnforcedChecks(s, r, q);
    if r.columns != [] {
      ResolvedVisible(s, q.columns);
    } else if IsActive(s.projectionFilter) {
      VisibleNamesResolveVisibly(s, q.columns);
      VisibleNamesListed(s);
    } else {
      AllRowsVisible(s);
    }
  }

  lemma GroupedVisible(s: DatasetSchema, q: Request, plan: AggPlan)
    requires HasColumnFilters(s) ==>
      CheckAll(s, q.groupBy).Success? && CheckAll(s, AggregatedNames(q.aggregations)).Success?
    requires Planned(q, s) == Success(Some(plan))
    ensures AllVisible(s, plan.groupCols) && AggsVisible(s, plan.aggs)
  {
    ResolvedVisible(s, q.groupBy);
    BareCountNamesNothing();
    PlannedAggsVisible(s, EffectiveAggs(q));
  }

  lemma BareCountNamesNothing()
    ensures AggregatedNames([Aggregation(None, "count", None)]) == []
  {
    assert [Aggregation(None, "count", None)][..0] == [];
  }

  /** All columns a resolved request reads are visible; outputs of a plan are read as outputs. */
  ghost predicate ReadsVisible(s: DatasetSchema, p: Resolved) {
    && AllVisible(s, p.whereCols)
    && (p.grouping.Some? ==> AllVisible(s, p.grouping.value.groupCols) && AggsVisible(s, p.grouping.value.aggs))
    && (p.grouping.None? ==> AllVisible(s, Positions(p.keys)) && AllVisible(s, p.projection))
  }

  lemma AcceptedReadsVisible(s: DatasetSchema, r: Request, q: Request)
    requires Enforced(r, s) == Success(q) && !AllHidden(s)
    ensures ResolveRequest(s, q).Success? ==> ReadsVisible(s, ResolveRequest(s, q).value)
  {
    if ResolveRequest(s, q).Success? {
      var p := ResolveRequest(s, q).value;
      EnforcedChecks(s, r, q);
      PredicatesVisible(s, q.predicates);
      if p.grouping.Some? {
        GroupedVisible(s, q, p.grouping.value);
      } else {
        OrderVisible(s, q.orderBy);
        ProjectionVisible(s, r, q);
      }
    }
  }

  lemma EvaluateAgrees(s: DatasetSchema, e: Engine, r: Request, p: Resolved, t: Table, u: Table)
    requires ReadsVisible(s, p) && Agree(s, t, u)
    ensures Evaluate(e, r, p, t) == Evaluate(e, r, p, u)
  {
    WhereAgrees(s, e, r.predicates, p.whereCols, t, u, |t|);
    var kept := Where(e, r.predicates, p.whereCols, t, |t|);
    if p.grouping.Some? {
      GroupResultAgrees(s, e, p.grouping.value, r.having, p.havingCols, p.keys, t, u, kept);
    } else {
      RowResultAgrees(s, e, r.distinct, p.keys, p.projection, t, u, kept);
    }
  }

  /** Results depend on visible columns only: for every request that the filter check accepts, on a
      schema whose columns are not all hidden, two tables that agree on visible columns give the same filtered,
      grouped, ordered, projected and paged result, or the same error, on every engine. */
  lemma VisibleColumnsDecide(e: Engine, s: DatasetSchema, r: Request, q: Request, cap: nat, t: Table, u: Table)
    requires cap >= 1 && Enforced(r, s) == Success(q) && !AllHidden(s) && Agree(s, t, u)
    ensures Exec(e, s, q, cap, t) == Exec(e, s, q, cap, u)
  {
    var p := ResolveRequest(s, q);
    if p.Success? {
      AcceptedReadsVisible(s, r, q);
      EvaluateAgrees(s, e, q, p.value, t, u);
    }
  }

  // -------------------------------------------------------- when nothing is visible

  /** Lookup of any name fails, and so does every check of a non-empty list of names. */
  lemma HiddenChecksFail(s: DatasetSchema, names: seq<string>)
    requires AllHidden(s) && HasColumnFilters(s)
    ensures CheckAll(s, names).Success? ==> names == []
  {
    if CheckAll(s, names).Success? && names != [] {
      TraverseAt(VisibleLookup(s), names, 0);
      HiddenLooksAbsent(s, names[0]);
    }
  }

  lemma HiddenPredicatesFail(s: DatasetSchema, ps: seq<Predicate>)
    requires AllHidden(s) && HasColumnFilters(s)
    ensures CheckPredicates(s, ps).Success? ==> ps == []
  {
    if CheckPredicates(s, ps).Success? && ps != [] {
      TraverseAt(PredicateLookup(s), ps, 0);
      HiddenLooksAbsent(s, ps[0].col);
    }
  }

  /** A request that passes the filter check while all columns are hidden names none of them, and
      its empty projection means every column. */
  lemma HiddenRequestIsBare(s: DatasetSchema, r: Request, q: Request)
    requires Enforced(r, s) == Success(q) && AllHidden(s)
    ensures q.predicates == []
    ensures ResolveRequest(s, q).Success? ==>
      ResolveRequest(s, q).value == Resolved(None, [], [], [], AllRows(|s.columns|))
  {
    EnforcedChecks(s, r, q);
    assert !Visible(s, 0);
    HiddenPredicatesFail(s, q.predicates);
    HiddenChecksFail(s, q.groupBy);
    HiddenChecksFail(s, OrderedNames(q.orderBy));
    HiddenChecksFail(s, r.columns);
    assert PredicateNames(q.predicates) == [];
    assert q.columns == [];
  }

  /** `n` different rows of equal cells, counting up from zero or down from minus one. */
  function Probe(width: nat, n: nat, up: bool): Table {
    seq(n, i requires 0 <= i < n => seq(width, _ => Number(if up then i else -1 - i)))
  }

  lemma {:induction false} NoPredicatesKeepAll(e: Engine, t: Table, n: nat)
    ensures Where(e, [], [], t, n) == AllRows(n)
  {
    if n > 0 {
      NoPredicatesKeepAll(e, t, n - 1);
      assert AllRows(n) == AllRows(n - 1) + [n - 1];
    }
  }

  lemma {:induction false} DedupDistinct<T>(xs: seq<T>)
    requires forall i, j :: 0 <= i < j < |xs| ==> xs[i] != xs[j]
    ensures Dedup(xs) == xs
  {
    if xs != [] {
      DedupDistinct(xs[..|xs| - 1]);
      assert xs == xs[..|xs| - 1] + [xs[|xs| - 1]];
    }
  }

  lemma ProbeIsReturned(e: Engine, q: Request, width: nat, n: nat, up: bool)
    requires width > 0 && q.predicates == []
    ensures Evaluate(e, q, Resolved(None, [], [], [], AllRows(width)), Probe(width, n, up)) == Probe(width, n, up)
  {
    var t := Probe(width, n, up);
    NoPredicatesKeepAll(e, t, n);
    forall i | 0 <= i < n ensures Tuple(t, i, AllRows(width)) == t[i] {
      assert forall c :: 0 <= c < width ==> Cell(t, i, c) == t[i][c];
    }
    assert Tuples(t, AllRows(n), AllRows(width)) == t;
    forall i, j | 0 <= i < j < n ensures t[i] != t[j] { assert t[i][0] != t[j][0]; }
    DedupDistinct(t);
  }

  lemma ProbesDiffer(width: nat, w: Window)
    requires width > 0 && w.limit > 0
    ensures Slice(Probe(width, w.offset + 1, true), w) != Slice(Probe(width, w.offset + 1, false), w)
  {
    var t, u := Probe(width, w.offset + 1, true), Probe(width, w.offset + 1, false);
    assert Slice(t, w)[0] == t[w.offset] && Slice(u, w)[0] == u[w.offset];
    assert t[w.offset][0] != u[w.offset][0];
  }

  ghost predicate Independent(e: Engine, s: DatasetSchema, q: Request, cap: nat)
    requires cap >= 1
  {
    forall t, u :: Agree(s, t, u) ==> Exec(e, s, q, cap, t) == Exec(e, s, q, cap, u)
  }

  lemma HiddenLeaks(e: Engine, s: DatasetSchema, r: Request, q: Request, cap: nat)
    requires cap >= 1 && Enforced(r, s) == Success(q) && ResolveRequest(s, q).Success?
    requires AllHidden(s) && PageWindow(q.page, q.pageSize, q.limit, cap).limit > 0
    ensures !Independent(e, s, q, cap)
  {
    var w, width := PageWindow(q.page, q.pageSize, q.limit, cap), |s.columns|;
    HiddenRequestIsBare(s, r, q);
    ProbeIsReturned(e, q, width, w.offset + 1, true);
    ProbeIsReturned(e, q, width, w.offset + 1, false);
    ProbesDiffer(width, w);
    assert Agree(s, Probe(width, w.offset + 1, true), Probe(width, w.offset + 1, false));
  }

  /** Exactly when an accepted request is independent of hidden columns, on any engine: unless it
      resolves, every column is hidden, and the page is not empty. */
  lemma IndependentExactly(e: Engine, s: DatasetSchema, r: Request, q: Request, cap: nat)
    requires cap >= 1 && Enforced(r, s) == Success(q)
    ensures Independent(e, s, q, cap)
      <==> ResolveRequest(s, q).Failure? || !AllHidden(s) || PageWindow(q.page, q.pageSize, q.limit, cap).limit == 0
  {
    if !AllHidden(s) {
      VisibleIsIndependent(e, s, r, q, cap);
    } else if PageWindow(q.page, q.pageSize, q.limit, cap).limit == 0 {
      EmptyPageIsIndependent(e, s, q, cap);
    } else if ResolveRequest(s, q).Success? {
      HiddenLeaks(e, s, r, q, cap);
    }
  }

  lemma VisibleIsIndependent(e: Engine, s: DatasetSchema, r: Request, q: Request, cap: nat)
    requires cap >= 1 && Enforced(r, s) == Success(q) && !AllHidden(s)
    ensures Independent(e, s, q, cap)
  {
    forall t, u | Agree(s, t, u) ensures Exec(e, s, q, cap, t) == Exec(e, s, q, cap, u) {
      VisibleColumnsDecide(e, s, r, q, cap, t, u);
    }
  }

  lemma EmptyPageIsIndependent(e: Engine, s: DatasetSchema, q: Request, cap: nat)
    requires cap >= 1 && PageWindow(q.page, q.pageSize, q.limit, cap).limit == 0
    ensures Independent(e, s, q, cap)
  {
    forall t, u | Agree(s, t, u) ensures Exec(e, s, q, cap, t) == Exec(e, s, q, cap, u) {
      EmptyPage(e, s, q, cap, t);
      EmptyPage(e, s, q, cap, u);
    }
  }

  lemma EmptyPage(e: Engine, s: DatasetSchema, q: Request, cap: nat, t: Table)
    requires cap >= 1 && PageWindow(q.page, q.pageSize, q.limit, cap).limit == 0
    ensures Exec(e, s, q, cap, t)
      == if ResolveRequest(s, q).Success? then Success([]) else Failure(ResolveRequest(s, q).error)
  {
    if ResolveRequest(s, q).Success? {
      EmptySlice(Evaluate(e, q, ResolveRequest(s, q).value, t), PageWindow(q.page, q.pageSize, q.limit, cap));
    }
  }

  lemma EmptySlice<T>(rows: seq<T>, w: Window)
    requires w.limit == 0
    ensures Slice(rows, w) == []
  {
  }

  /** With its only column hidden, a default request still returns that column. */
  lemma AllHiddenLeaks(e: Engine, name: string, t: Table, u: Table, r: Request, cap: nat)
    requires cap >= 1 && t == [[Number(1)]] && u == [[Number(2)]]
    requires r == Request([], [], [], [], [], false, [], None, 1, 1)
    ensures var s := DatasetSchema([name], ColumnFilter([], []), ColumnFilter([], [name]));
            && WithFilters([name], ColumnFilter([], []), ColumnFilter([], [name])) == Success(s)
            && Enforced(r, s) == Success(r) && Agree(s, t, u) && Exec(e, s, r, cap, t) != Exec(e, s, r, cap, u)
  {
    var s := DatasetSchema([name], ColumnFilter([], []), ColumnFilter([], [name]));
    ByNameIsLast(s.columns);
    assert Lower(s.columns[0]) in ByName([name]);
    assert HasFolded([name], Lower(name)) by { assert Lower([name][0]) == Lower(name); }
    assert !Visible(s, 0);
    assert VisibleNames(s, 1) == [];
    OneCell(e, s, r, t);
    OneCell(e, s, r, u);
  }

  lemma OneCell(e: Engine, s: DatasetSchema, r: Request, t: Table)
    requires |s.columns| == 1 && |t| == 1 && |t[0]| == 1
    requires r == Request([], [], [], [], [], false, [], None, 1, 1)
    ensures ResolveRequest(s, r).Success? && Evaluate(e, r, ResolveRequest(s, r).value, t) == t
  {
    assert PredicateNames(r.predicates) == [];
    var p := ResolveRequest(s, r).value;
    assert p.projection == [0];
    assert Where(e, [], [], t, 0) == [];
    assert Where(e, [], [], t, 1) == [0];
    assert Tuple(t, 0, [0]) == t[0];
  }
}
