/** Structured query requests: column filter enforcement and planning of grouping, HAVING and
    ORDER BY. */
module Query {
  import opened Wrappers
  import opened Text
  import opened Schema

  datatype Value = Null | Number(n: int) | Txt(s: string)

  /** Operator and operand are interpreted by the engine. */
  datatype Predicate = Predicate(col: string, op: string, operand: seq<Value>)

  datatype OrderBy = OrderBy(col: string, dir: Option<string>)

  datatype Aggregation = Aggregation(col: Option<string>, op: string, outName: Option<string>)

  datatype Request = Request(
    columns: seq<string>,
    predicates: seq<Predicate>,
    groupBy: seq<string>,
    aggregations: seq<Aggregation>,
    having: seq<Predicate>,
    distinct: bool,
    orderBy: seq<OrderBy>,
    limit: Option<nat>,
    page: nat,
    pageSize: nat)

  datatype AggOp = Count | Sum | Avg | Min | Max

  /** A resolved aggregation; only a count may lack a column. */
  datatype AggSpec = AggSpec(col: Option<nat>, op: AggOp, outName: string)

  datatype AggPlan = AggPlan(groupCols: seq<nat>, aggs: seq<AggSpec>)

  // ------------------------------------------------------------- looking up a list

  /** Apply `f` to every entry in order; the first failure is the outcome. */
  function Traverse<A, B>(f: A -> Result<B, Error>, xs: seq<A>): Result<seq<B>, Error> {
    if xs == [] then Success([])
    else
      var front := Traverse(f, xs[..|xs| - 1]);
      if front.Failure? then front
      else
        var last := f(xs[|xs| - 1]);
        if last.Failure? then Failure(last.error) else Success(front.value + [last.value])
  }

  /** On success every entry has its own answer in place. */
  lemma {:induction false} TraverseAt<A, B>(f: A -> Result<B, Error>, xs: seq<A>, k: nat)
    requires Traverse(f, xs).Success?
    ensures |Traverse(f, xs).value| == |xs|
    ensures k < |xs| ==> f(xs[k]) == Success(Traverse(f, xs).value[k])
  {
    if xs != [] { TraverseAt(f, xs[..|xs| - 1], k); }
  }

  /** A failure is that of some entry. */
  lemma {:induction false} TraverseOffence<A, B>(f: A -> Result<B, Error>, xs: seq<A>) returns (k: nat)
    requires Traverse(f, xs).Failure?
    ensures k < |xs| && f(xs[k]).Failure?
  {
    k := |xs| - 1;
    if Traverse(f, xs[..k]).Failure? { k := TraverseOffence(f, xs[..k]); }
  }

  /** The first entry that fails decides. */
  lemma {:induction false} TraverseStops<A, B>(f: A -> Result<B, Error>, xs: seq<A>, i: nat)
    requires i < |xs| && Traverse(f, xs[..i]).Success? && f(xs[i]).Failure?
    ensures Traverse(f, xs) == Failure(f(xs[i]).error)
    decreases |xs|
  {
    var front := xs[..|xs| - 1];
    if i < |front| {
      assert front[..i] == xs[..i];
      TraverseStops(f, front, i);
    }
  }

  // --------------------------------------------------------- column filter checks

  function VisibleLookup(s: DatasetSchema): string -> Result<nat, Error> {
    (name: string) => FindVisible(s, name)
  }

  function PredicateLookup(s: DatasetSchema): Predicate -> Result<nat, Error> {
    (p: Predicate) => FindForPredicate(s, p.col)
  }

  function CheckAll(s: DatasetSchema, names: seq<string>): Result<seq<nat>, Error> {
    Traverse(VisibleLookup(s), names)
  }

  function CheckPredicates(s: DatasetSchema, ps: seq<Predicate>): Result<seq<nat>, Error> {
    Traverse(PredicateLookup(s), ps)
  }

  function AggregatedNames(aggs: seq<Aggregation>): seq<string> {
    if aggs == [] then []
    else
      var front := AggregatedNames(aggs[..|aggs| - 1]);
      var a := aggs[|aggs| - 1];
      if a.col.Some? then front + [a.col.value] else front
  }

  function OrderedNames(os: seq<OrderBy>): (names: seq<string>)
    ensures |names| == |os| && forall k :: 0 <= k < |os| ==> names[k] == os[k].col
  {
    seq(|os|, k requires 0 <= k < |os| => os[k].col)
  }

  /** Reject any use of a hidden or predicate-restricted column, and narrow a default projection
      to the visible columns. Without active filters the request is left alone. */
  function Enforced(r: Request, s: DatasetSchema): Result<Request, Error> {
    if !HasColumnFilters(s) then Success(r)
    else
      var predicates := CheckPredicates(s, r.predicates);
      if predicates.Failure? then Failure(predicates.error)
      else
        var groups := CheckAll(s, r.groupBy);
        if groups.Failure? then Failure(groups.error)
        else
          var aggs := CheckAll(s, AggregatedNames(r.aggregations));
          if aggs.Failure? then Failure(aggs.error)
          else
            var orders := if r.groupBy == [] then CheckAll(s, OrderedNames(r.orderBy)) else Success([]);
            if orders.Failure? then Failure(orders.error) else Narrowed(r, s)
  }

  function Narrowed(r: Request, s: DatasetSchema): Result<Request, Error> {
    if r.columns == [] then
      if r.groupBy == [] && IsActive(s.projectionFilter) then Success(r.(columns := VisibleNames(s, |s.columns|)))
      else Success(r)
    else
      var columns := CheckAll(s, r.columns);
      if columns.Failure? then Failure(columns.error) else Success(r)
  }

  /** The enforcement loops over the request's lists, rewriting the projection in place. */
  method EnforceColumnFilters(r: Request, s: DatasetSchema) returns (result: Result<Request, Error>)
    ensures result == Enforced(r, s)
  {
    if !HasColumnFilters(s) { return Success(r); }
    for i := 0 to |r.predicates|
      invariant CheckPredicates(s, r.predicates[..i]).Success?
    {
      assert r.predicates[..i + 1][..i] == r.predicates[..i];
      var c := FindForPredicate(s, r.predicates[i].col);
      if c.Failure? {
        TraverseStops(PredicateLookup(s), r.predicates, i);
        return Failure(c.error);
      }
    }
    assert r.predicates[..|r.predicates|] == r.predicates;
    var groups := CheckNames(s, r.groupBy);
    if groups.Some? { return Failure(groups.value); }
    var aggs := CheckNames(s, AggregatedNames(r.aggregations));
    if aggs.Some? { return Failure(aggs.value); }
    if r.groupBy == [] {
      var orders := CheckNames(s, OrderedNames(r.orderBy));
      if orders.Some? { return Failure(orders.value); }
    }
    if r.columns == [] {
      if r.groupBy == [] && IsActive(s.projectionFilter) {
        return Success(r.(columns := VisibleNames(s, |s.columns|)));
      }
    } else {
      var columns := CheckNames(s, r.columns);
      if columns.Some? { return Failure(columns.value); }
    }
    return Success(r);
  }

  method CheckNames(s: DatasetSchema, names: seq<string>) returns (error: Option<Error>)
    ensures error.None? <==> CheckAll(s, names).Success?
    ensures error.Some? ==> CheckAll(s, names) == Failure(error.value)
  {
    for i := 0 to |names|
      invariant CheckAll(s, names[..i]).Success?
    {
      assert names[..i + 1][..i] == names[..i];
      var c := FindVisible(s, names[i]);
      if c.Failure? {
        TraverseStops(VisibleLookup(s), names, i);
        return Some(c.error);
      }
    }
    assert names[..|names|] == names;
    return None;
  }

  // --------------------------------------------------------------------- planning

  function Lookup(s: DatasetSchema): string -> Result<nat, Error> {
    (name: string) => Find(s, name)
  }

  /** Resolve names to columns; the first unknown one is the error. */
  function ResolveAll(s: DatasetSchema, names: seq<string>): Result<seq<nat>, Error> {
    Traverse(Lookup(s), names)
  }

  function ParseOp(op: string): Option<AggOp> {
    var lc := Lower(op);
    if lc == "count" then Some(Count)
    else if lc == "sum" then Some(Sum)
    else if lc == "avg" then Some(Avg)
    else if lc == "min" then Some(Min)
    else if lc == "max" then Some(Max)
    else None
  }

  function OpName(op: AggOp): string {
    match op
    case Count => "count"
    case Sum => "sum"
    case Avg => "avg"
    case Min => "min"
    case Max => "max"
  }

  function PlanOne(s: DatasetSchema, a: Aggregation): Result<AggSpec, Error> {
    var op := ParseOp(a.op);
    if op.None? || (a.col.None? && !op.value.Count?) then Failure(InvalidValue)
    else if a.col.None? then
      Success(AggSpec(None, Count, if a.outName.Some? then a.outName.value else "count"))
    else
      var c := Find(s, a.col.value);
      if c.Failure? then Failure(c.error)
      else
        var outName := OpName(op.value) + "_" + Lower(s.columns[c.value]);
        Success(AggSpec(Some(c.value), op.value, if a.outName.Some? then a.outName.value else outName))
  }

  function AggPlanner(s: DatasetSchema): Aggregation -> Result<AggSpec, Error> {
    (a: Aggregation) => PlanOne(s, a)
  }

  function PlanAggs(s: DatasetSchema, aggs: seq<Aggregation>): Result<seq<AggSpec>, Error> {
    Traverse(AggPlanner(s), aggs)
  }

  /** Aggregations of a grouped request; a bare grouping counts. */
  function EffectiveAggs(r: Request): seq<Aggregation> {
    if r.aggregations == [] then [Aggregation(None, "count", None)] else r.aggregations
  }

  function Planned(r: Request, s: DatasetSchema): Result<Option<AggPlan>, Error> {
    if r.distinct && (r.groupBy != [] || r.aggregations != []) then Failure(InvalidValue)
    else if r.groupBy == [] then if r.aggregations != [] then Failure(InvalidValue) else Success(None)
    else
      var groups := ResolveAll(s, r.groupBy);
      if groups.Failure? then Failure(groups.error)
      else
        var aggs := PlanAggs(s, EffectiveAggs(r));
        if aggs.Failure? then Failure(aggs.error) else Success(Some(AggPlan(groups.value, aggs.value)))
  }

  /** The planner fills the group columns and the aggregations in two loops. */
  method PlanGrouping(r: Request, s: DatasetSchema) returns (result: Result<Option<AggPlan>, Error>)
    ensures result == Planned(r, s)
  {
    if r.distinct && (r.groupBy != [] || r.aggregations != []) { return Failure(InvalidValue); }
    if r.groupBy == [] {
      if r.aggregations != [] { return Failure(InvalidValue); }
      return Success(None);
    }
    var groups := FillGroups(s, r.groupBy);
    if groups.Failure? { return Failure(groups.error); }
    var aggs := FillAggs(s, EffectiveAggs(r));
    if aggs.Failure? { return Failure(aggs.error); }
    return Success(Some(AggPlan(groups.value, aggs.value)));
  }

  method FillGroups(s: DatasetSchema, names: seq<string>) returns (result: Result<seq<nat>, Error>)
    ensures result == ResolveAll(s, names)
  {
    var groupCols := [];
    for i := 0 to |names|
      invariant ResolveAll(s, names[..i]) == Success(groupCols)
    {
      assert names[..i + 1][..i] == names[..i];
      var c := Find(s, names[i]);
      if c.Failure? {
        TraverseStops(Lookup(s), names, i);
        return Failure(c.error);
      }
      groupCols := groupCols + [c.value];
    }
    assert names[..|names|] == names;
    return Success(groupCols);
  }

  method FillAggs(s: DatasetSchema, raw: seq<Aggregation>) returns (result: Result<seq<AggSpec>, Error>)
    ensures result == PlanAggs(s, raw)
  {
    var aggs := [];
    for i := 0 to |raw|
      invariant PlanAggs(s, raw[..i]) == Success(aggs)
    {
      assert raw[..i + 1][..i] == raw[..i];
      var a := PlanOne(s, raw[i]);
      if a.Failure? {
        TraverseStops(AggPlanner(s), raw, i);
        return Failure(a.error);
      }
      aggs := aggs + [a.value];
    }
    assert raw[..|raw|] == raw;
    return Success(aggs);
  }

  /** Output names of a plan: group columns first, then aggregation labels. */
  function OutputNames(s: DatasetSchema, plan: AggPlan): seq<string> {
    seq(|plan.groupCols|, k requires 0 <= k < |plan.groupCols| =>
      if plan.groupCols[k] < |s.columns| then s.columns[plan.groupCols[k]] else "")
    + seq(|plan.aggs|, k requires 0 <= k < |plan.aggs| => plan.aggs[k].outName)
  }

  /** Position of the first name that folds like `name`. */
  function OutputAt(names: seq<string>, name: string): Option<nat> {
    if names == [] then None
    else if Lower(names[0]) == Lower(name) then Some(0)
    else
      var rest := OutputAt(names[1..], name);
      if rest.None? then None else Some(rest.value + 1)
  }

  function OutputLookup(names: seq<string>): string -> Result<nat, Error> {
    (name: string) =>
      var at := OutputAt(names, name);
      if at.None? then Failure(UnknownColumn(name)) else Success(at.value)
  }

  /** HAVING refers to outputs of the plan only. */
  function OutputsFor(names: seq<string>, cols: seq<string>): Result<seq<nat>, Error> {
    Traverse(OutputLookup(names), cols)
  }

  function PredicateNames(ps: seq<Predicate>): (names: seq<string>)
    ensures |names| == |ps| && forall k :: 0 <= k < |ps| ==> names[k] == ps[k].col
  {
    seq(|ps|, k requires 0 <= k < |ps| => ps[k].col)
  }

  function ParseDir(dir: Option<string>): Option<bool> {
    var lc := if dir.Some? then Lower(dir.value) else "asc";
    if lc == "asc" then Some(false) else if lc == "desc" then Some(true) else None
  }

  datatype SortKey = SortKey(at: nat, descending: bool)

  /** One ORDER BY entry: its direction is checked before its name. Ungrouped keys are columns of
      the dataset, grouped keys are outputs of the plan. */
  function OrderKey(s: DatasetSchema, plan: Option<AggPlan>, o: OrderBy): Result<SortKey, Error> {
    var dir := ParseDir(o.dir);
    if dir.None? then Failure(InvalidValue)
    else if plan.Some? then
      var at := OutputAt(OutputNames(s, plan.value), o.col);
      if at.None? then Failure(UnknownColumn(o.col)) else Success(SortKey(at.value, dir.value))
    else
      var c := Find(s, o.col);
      if c.Failure? then Failure(c.error) else Success(SortKey(c.value, dir.value))
  }

  function OrderKeys(s: DatasetSchema, plan: Option<AggPlan>): OrderBy -> Result<SortKey, Error> {
    (o: OrderBy) => OrderKey(s, plan, o)
  }

  function OrderPlan(s: DatasetSchema, plan: Option<AggPlan>, os: seq<OrderBy>): Result<seq<SortKey>, Error> {
    Traverse(OrderKeys(s, plan), os)
  }

  /** HAVING needs a plan, and refers to its outputs. */
  function HavingPlan(s: DatasetSchema, plan: Option<AggPlan>, having: seq<Predicate>): Result<seq<nat>, Error> {
    if having == [] then Success([])
    else if plan.None? then Failure(InvalidValue)
    else OutputsFor(OutputNames(s, plan.value), PredicateNames(having))
  }
}
