/** What a request returns: rows told by what they have to satisfy, and the proof that the staged
    evaluation returns exactly those. */
module QueryResults {
  import opened Wrappers
  import opened Listings
  import opened Schema
  import opened Query
  import opened QueryMeaning
  import opened Pages
  import opened QueryExec

  // ------------------------------------------------------------- rows and selections

  ghost predicate Rectangular(t: Table, width: nat) {
    forall i :: 0 <= i < |t| ==> |t[i]| == width
  }

  ghost predicate Within(cols: seq<nat>, width: nat) {
    forall k :: 0 <= k < |cols| ==> cols[k] < width
  }

  /** `result` holds the entries of `xs` at the given positions. */
  ghost predicate At<T>(xs: seq<T>, positions: seq<nat>, result: seq<T>) {
    |result| == |positions| && forall k :: 0 <= k < |positions| ==> positions[k] < |xs| && result[k] == xs[positions[k]]
  }

  /** `tuples` holds the cells of the given rows in the given columns. */
  ghost predicate Cells(t: Table, rows: seq<nat>, cols: seq<nat>, tuples: seq<seq<Value>>) {
    |tuples| == |rows| && forall k :: 0 <= k < |rows| ==> rows[k] < |t| && At(t[rows[k]], cols, tuples[k])
  }

  /** Every predicate accepts the cell in its own column. */
  ghost predicate AllAccept(e: Engine, ps: seq<Predicate>, cols: seq<nat>, row: seq<Value>) {
    |cols| == |ps| && forall k :: 0 <= k < |ps| ==> cols[k] < |row| && e.test(ps[k], row[cols[k]])
  }

  ghost function Accepted(e: Engine, ps: seq<Predicate>, cols: seq<nat>, t: Table): nat -> bool {
    (i: nat) => i < |t| && AllAccept(e, ps, cols, t[i])
  }

  /** Position `i` holds something that none before it holds. */
  ghost function First<T>(xs: seq<T>): nat -> bool {
    (i: nat) => i < |xs| && forall j :: 0 <= j < i ==> xs[j] != xs[i]
  }

  ghost function HasKey(keys: seq<seq<Value>>, g: seq<Value>): nat -> bool {
    (i: nat) => i < |keys| && keys[i] == g
  }

  lemma AtNext<T>(xs: seq<T>, positions: seq<nat>, result: seq<T>, i: nat)
    requires At(xs, positions, result) && i < |xs|
    ensures At(xs, positions + [i], result + [xs[i]])
  {
  }

  /** One more entry at the end leaves the earlier positions alone. */
  lemma AtLonger<T>(xs: seq<T>, positions: seq<nat>, result: seq<T>)
    requires xs != [] && At(xs[..|xs| - 1], positions, result)
    ensures At(xs, positions, result)
  {
  }

  // --------------------------------------------------------------------------- WHERE

  lemma PassesExactly(e: Engine, ps: seq<Predicate>, cols: seq<nat>, t: Table, i: nat)
    requires i < |t| && |cols| == |ps| && Within(cols, |t[i]|)
    ensures Passes(e, ps, Tuple(t, i, cols)) <==> AllAccept(e, ps, cols, t[i])
  {
    assert forall k :: 0 <= k < |cols| ==> Tuple(t, i, cols)[k] == t[i][cols[k]];
  }

  lemma WhereNext(e: Engine, ps: seq<Predicate>, cols: seq<nat>, t: Table, width: nat, i: nat)
    requires Rectangular(t, width) && Within(cols, width) && |cols| == |ps| && i < |t|
    ensures var front := Where(e, ps, cols, t, i);
            Where(e, ps, cols, t, i + 1) == if Accepted(e, ps, cols, t)(i) then front + [i] else front
  {
    PassesExactly(e, ps, cols, t, i);
  }

  lemma {:induction false} WhereFilters(e: Engine, ps: seq<Predicate>, cols: seq<nat>, t: Table, width: nat, n: nat)
    requires Rectangular(t, width) && Within(cols, width) && |cols| == |ps| && n <= |t|
    ensures Where(e, ps, cols, t, n) == Filtered(n, Accepted(e, ps, cols, t))
  {
    if n > 0 {
      WhereFilters(e, ps, cols, t, width, n - 1);
      WhereNext(e, ps, cols, t, width, n - 1);
    }
  }

  /** WHERE keeps exactly the rows that every predicate accepts, each once, in order. */
  lemma WhereExactly(e: Engine, ps: seq<Predicate>, cols: seq<nat>, t: Table, width: nat, n: nat)
    requires Rectangular(t, width) && Within(cols, width) && |cols| == |ps| && n <= |t|
    ensures Chosen(Where(e, ps, cols, t, n), n, Accepted(e, ps, cols, t))
  {
    WhereFilters(e, ps, cols, t, width, n);
    FilteredIsChosen(n, Accepted(e, ps, cols, t));
  }

  lemma TuplesExactly(t: Table, width: nat, rows: seq<nat>, cols: seq<nat>)
    requires Rectangular(t, width) && Within(cols, width) && Within(rows, |t|)
    ensures Cells(t, rows, cols, Tuples(t, rows, cols))
  {
    forall k | 0 <= k < |rows| ensures At(t[rows[k]], cols, Tuples(t, rows, cols)[k]) {
      assert forall m :: 0 <= m < |cols| ==> Tuple(t, rows[k], cols)[m] == t[rows[k]][cols[m]];
    }
  }

  // -------------------------------------------------------------- DISTINCT and grouping

  /** Dropping repeats keeps the first of each. */
  lemma {:induction false} DedupExactly<T>(xs: seq<T>) returns (positions: seq<nat>)
    ensures Chosen(positions, |xs|, First(xs)) && At(xs, positions, Dedup(xs))
    ensures forall x :: x in xs <==> x in Dedup(xs)
  {
    positions := [];
    if xs != [] {
      var n := |xs| - 1;
      var front := DedupExactly(xs[..n]);
      assert xs == xs[..n] + [xs[n]];
      ChosenSame(front, n, First(xs[..n]), First(xs));
      ChosenNext(front, n, First(xs));
      AtLonger(xs, front, Dedup(xs[..n]));
      LastIsFirst(xs);
      positions := if First(xs)(n) then front + [n] else front;
      if First(xs)(n) { AtNext(xs, front, Dedup(xs[..n]), n); }
    }
  }

  lemma LastIsFirst<T>(xs: seq<T>)
    requires xs != []
    ensures First(xs)(|xs| - 1) <==> xs[|xs| - 1] !in xs[..|xs| - 1]
  {
    var n := |xs| - 1;
    assert forall j :: 0 <= j < n ==> xs[..n][j] == xs[j];
  }

  /** The members of a group are exactly the kept rows with its key, in order. */
  lemma {:induction false} MembersExactly(kept: seq<nat>, keys: seq<seq<Value>>, g: seq<Value>)
    returns (positions: seq<nat>)
    requires |kept| == |keys|
    ensures Chosen(positions, |kept|, HasKey(keys, g)) && At(kept, positions, Members(kept, keys, g))
  {
    positions := [];
    if kept != [] {
      var n := |kept| - 1;
      var front := MembersExactly(kept[..n], keys[..n], g);
      ChosenSame(front, n, HasKey(keys[..n], g), HasKey(keys, g));
      ChosenNext(front, n, HasKey(keys, g));
      AtLonger(kept, front, Members(kept[..n], keys[..n], g));
      positions := if HasKey(keys, g)(n) then front + [n] else front;
      if HasKey(keys, g)(n) { AtNext(kept, front, Members(kept[..n], keys[..n], g), n); }
    }
  }

  /** The aggregation is computed over the column's cells of the members, or one null for each. */
  ghost predicate IsAggregate(e: Engine, t: Table, members: seq<nat>, spec: AggSpec, v: Value) {
    exists operands :: AreOperands(t, members, spec.col, operands) && v == e.aggregate(spec.op, operands)
  }

  ghost predicate AreOperands(t: Table, members: seq<nat>, col: Option<nat>, operands: seq<Value>) {
    && |operands| == |members|
    && forall k :: 0 <= k < |members| ==>
         if col.Some? then members[k] < |t| && col.value < |t[members[k]]| && operands[k] == t[members[k]][col.value]
         else operands[k] == Null
  }

  /** The group's key, then every aggregation over exactly the kept rows with that key. */
  ghost predicate IsGroupRow(e: Engine, t: Table, kept: seq<nat>, keys: seq<seq<Value>>, g: seq<Value>,
          aggs: seq<AggSpec>, out: seq<Value>)
  {
    && |out| == |g| + |aggs| && out[..|g|] == g
    && exists positions, members ::
         && Chosen(positions, |kept|, HasKey(keys, g)) && At(kept, positions, members)
         && forall m :: 0 <= m < |aggs| ==> IsAggregate(e, t, members, aggs[m], out[|g| + m])
  }

  ghost predicate AggsWithin(aggs: seq<AggSpec>, width: nat) {
    forall k :: 0 <= k < |aggs| && aggs[k].col.Some? ==> aggs[k].col.value < width
  }

  lemma AggregateExactly(e: Engine, t: Table, width: nat, members: seq<nat>, aggs: seq<AggSpec>, m: nat)
    requires Rectangular(t, width) && Within(members, |t|) && AggsWithin(aggs, width) && m < |aggs|
    ensures IsAggregate(e, t, members, aggs[m], Aggregates(e, t, members, aggs)[m])
  {
    assert AreOperands(t, members, aggs[m].col, Operands(t, members, aggs[m].col));
  }

  lemma GroupRowExactly(e: Engine, t: Table, width: nat, kept: seq<nat>, keys: seq<seq<Value>>, g: seq<Value>,
          aggs: seq<AggSpec>)
    requires Rectangular(t, width) && Within(kept, |t|) && AggsWithin(aggs, width) && |kept| == |keys|
    ensures IsGroupRow(e, t, kept, keys, g, aggs, g + Aggregates(e, t, Members(kept, keys, g), aggs))
  {
    var members := Members(kept, keys, g);
    var positions := MembersExactly(kept, keys, g);
    forall m | 0 <= m < |aggs| ensures IsAggregate(e, t, members, aggs[m], Aggregates(e, t, members, aggs)[m]) {
      AggregateExactly(e, t, width, members, aggs, m);
    }
  }

  /** HAVING keeps exactly the group rows that every predicate accepts, in order. */
  lemma {:induction false} HavingExactly(e: Engine, ps: seq<Predicate>, cols: seq<nat>, outs: seq<seq<Value>>,
          width: nat)
    returns (positions: seq<nat>)
    requires Rectangular(outs, width) && Within(cols, width) && |cols| == |ps|
    ensures Chosen(positions, |outs|, Accepted(e, ps, cols, outs)) && At(outs, positions, Having(e, ps, cols, outs))
  {
    positions := [];
    if outs != [] {
      var n := |outs| - 1;
      var front := HavingExactly(e, ps, cols, outs[..n], width);
      var keep := Accepted(e, ps, cols, outs);
      ChosenSame(front, n, Accepted(e, ps, cols, outs[..n]), keep);
      ChosenNext(front, n, keep);
      AtLonger(outs, front, Having(e, ps, cols, outs[..n]));
      PassesExactly(e, ps, cols, outs, n);
      positions := if keep(n) then front + [n] else front;
      if keep(n) { AtNext(outs, front, Having(e, ps, cols, outs[..n]), n); }
    }
  }

  // --------------------------------------------------------------------------- ordering

  /** Without sort keys the order stays; otherwise it is the engine's arrangement of the sort keys, given
      which of them descend. */
  ghost predicate Arranged<T>(e: Engine, keys: seq<SortKey>, sortKeys: seq<seq<Value>>, xs: seq<T>, result: seq<T>) {
    if keys == [] then result == xs
    else exists descends :: AreDirections(keys, descends)
           && (Within(e.arrange(sortKeys, descends), |xs|) ==> At(xs, e.arrange(sortKeys, descends), result))
  }

  ghost predicate AreDirections(keys: seq<SortKey>, descends: seq<bool>) {
    |descends| == |keys| && forall k :: 0 <= k < |keys| ==> descends[k] == keys[k].descending
  }

  lemma {:induction false} PickExactly<T>(xs: seq<T>, order: seq<nat>)
    requires Within(order, |xs|)
    ensures At(xs, order, Pick(xs, order))
  {
    if order != [] { PickExactly(xs, order[..|order| - 1]); }
  }

  lemma {:induction false} PickInside<T>(xs: seq<T>, order: seq<nat>)
    ensures forall x :: x in Pick(xs, order) ==> x in xs
  {
    if order != [] { PickInside(xs, order[..|order| - 1]); }
  }

  lemma ArrangedExactly<T>(e: Engine, keys: seq<SortKey>, sortKeys: seq<seq<Value>>, xs: seq<T>, result: seq<T>)
    requires result == if keys == [] then xs else Pick(xs, e.arrange(sortKeys, Descending(keys)))
    ensures Arranged(e, keys, sortKeys, xs, result)
  {
    if keys != [] {
      assert AreDirections(keys, Descending(keys));
      var order := e.arrange(sortKeys, Descending(keys));
      if Within(order, |xs|) { PickExactly(xs, order); }
    }
  }

  // ------------------------------------------------------------------- whole requests

  lemma ChosenWithin(positions: seq<nat>, n: nat, keep: nat -> bool)
    requires Chosen(positions, n, keep)
    ensures Within(positions, n)
  {
    assert forall k :: 0 <= k < |positions| ==> positions[k] in positions;
  }

  /** An ungrouped request: the rows that all predicates accept, ordered, projected, and with DISTINCT
      each tuple once, where it first appears. */
  lemma RowsExactly(e: Engine, r: Request, p: Resolved, t: Table, width: nat)
    returns (kept: seq<nat>, ordered: seq<nat>, out: seq<seq<Value>>)
    requires p.grouping.None? && Rectangular(t, width)
    requires |p.whereCols| == |r.predicates| && Within(p.whereCols, width) && Within(p.projection, width)
    requires Within(Positions(p.keys), width)
    ensures Chosen(kept, |t|, Accepted(e, r.predicates, p.whereCols, t))
    ensures exists sortKeys ::
      Cells(t, kept, Positions(p.keys), sortKeys) && Arranged(e, p.keys, sortKeys, kept, ordered)
    ensures Cells(t, ordered, p.projection, out)
    ensures var result := Evaluate(e, r, p, t);
            if r.distinct then exists firsts :: Chosen(firsts, |out|, First(out)) && At(out, firsts, result)
            else result == out
  {
    kept := Where(e, r.predicates, p.whereCols, t, |t|);
    WhereExactly(e, r.predicates, p.whereCols, t, width, |t|);
    ChosenWithin(kept, |t|, Accepted(e, r.predicates, p.whereCols, t));
    var sortKeys := Tuples(t, kept, Positions(p.keys));
    TuplesExactly(t, width, kept, Positions(p.keys));
    ordered := if p.keys == [] then kept else Pick(kept, e.arrange(sortKeys, Descending(p.keys)));
    ArrangedExactly(e, p.keys, sortKeys, kept, ordered);
    if p.keys != [] { PickInside(kept, e.arrange(sortKeys, Descending(p.keys))); }
    InsideWithin(ordered, kept, |t|);
    out := Tuples(t, ordered, p.projection);
    TuplesExactly(t, width, ordered, p.projection);
    var firsts := DedupExactly(out);
  }

  lemma InsideWithin(some: seq<nat>, all: seq<nat>, n: nat)
    requires Within(all, n) && forall x :: x in some ==> x in all
    ensures Within(some, n)
  {
    assert forall k :: 0 <= k < |some| ==> some[k] in some;
  }

  /** The group rows of a request: one for every distinct key among the kept rows, in order of appearance. */
  ghost predicate AreGroupRows(e: Engine, t: Table, plan: AggPlan, kept: seq<nat>, outs: seq<seq<Value>>) {
    exists keys, firsts, groups ::
      && Cells(t, kept, plan.groupCols, keys) && Chosen(firsts, |keys|, First(keys)) && At(keys, firsts, groups)
      && |outs| == |groups|
      && forall k :: 0 <= k < |groups| ==> IsGroupRow(e, t, kept, keys, groups[k], plan.aggs, outs[k])
  }

  lemma GroupRowsExactly(e: Engine, t: Table, width: nat, plan: AggPlan, kept: seq<nat>)
    requires Rectangular(t, width) && Within(kept, |t|) && Within(plan.groupCols, width) && AggsWithin(plan.aggs, width)
    ensures var keys := Tuples(t, kept, plan.groupCols);
            var outs := GroupOutputs(e, t, kept, keys, Dedup(keys), plan.aggs);
            AreGroupRows(e, t, plan, kept, outs) && Rectangular(outs, |plan.groupCols| + |plan.aggs|)
  {
    var keys := Tuples(t, kept, plan.groupCols);
    var groups := Dedup(keys);
    TuplesExactly(t, width, kept, plan.groupCols);
    var firsts := DedupExactly(keys);
    forall k | 0 <= k < |groups|
      ensures IsGroupRow(e, t, kept, keys, groups[k], plan.aggs,
                         GroupOutputs(e, t, kept, keys, groups, plan.aggs)[k])
      ensures |groups[k]| == |plan.groupCols|
    {
      GroupRowExactly(e, t, width, kept, keys, groups[k], plan.aggs);
      assert |keys[firsts[k]]| == |plan.groupCols|;
    }
  }

  /** A grouped request: the kept rows' groups, those of them that every HAVING predicate accepts, ordered
      by their own outputs. */
  lemma GroupsExactly(e: Engine, r: Request, p: Resolved, t: Table, width: nat)
    returns (kept: seq<nat>, outs: seq<seq<Value>>, shown: seq<seq<Value>>)
    requires p.grouping.Some? && Rectangular(t, width)
    requires |p.whereCols| == |r.predicates| && Within(p.whereCols, width)
    requires Within(p.grouping.value.groupCols, width) && AggsWithin(p.grouping.value.aggs, width)
    requires |p.havingCols| == |r.having|
    requires var outWidth := |p.grouping.value.groupCols| + |p.grouping.value.aggs|;
             Within(p.havingCols, outWidth) && Within(Positions(p.keys), outWidth)
    ensures Chosen(kept, |t|, Accepted(e, r.predicates, p.whereCols, t))
    ensures AreGroupRows(e, t, p.grouping.value, kept, outs)
    ensures exists positions ::
      Chosen(positions, |outs|, Accepted(e, r.having, p.havingCols, outs)) && At(outs, positions, shown)
    ensures exists sortKeys ::
      && Cells(shown, AllRows(|shown|), Positions(p.keys), sortKeys)
      && Arranged(e, p.keys, sortKeys, shown, Evaluate(e, r, p, t))
  {
    var plan := p.grouping.value;
    var outWidth := |plan.groupCols| + |plan.aggs|;
    kept := Where(e, r.predicates, p.whereCols, t, |t|);
    WhereExactly(e, r.predicates, p.whereCols, t, width, |t|);
    ChosenWithin(kept, |t|, Accepted(e, r.predicates, p.whereCols, t));
    var keys := Tuples(t, kept, plan.groupCols);
    outs := GroupOutputs(e, t, kept, keys, Dedup(keys), plan.aggs);
    GroupRowsExactly(e, t, width, plan, kept);
    var positions := HavingExactly(e, r.having, p.havingCols, outs, outWidth);
    shown := Having(e, r.having, p.havingCols, outs);
    assert Rectangular(shown, outWidth);
    TuplesExactly(shown, outWidth, AllRows(|shown|), Positions(p.keys));
    ArrangedExactly(e, p.keys, Tuples(shown, AllRows(|shown|), Positions(p.keys)), shown, Evaluate(e, r, p, t));
  }

  /** When the engine's arrangement lists every position once, ordering only rearranges. */
  lemma {:induction false} ArrangementKeepsAll<T>(xs: seq<T>, order: seq<nat>, result: seq<T>)
    requires At(xs, order, result) && NoDuplicates(order) && |order| == |xs|
    ensures |result| == |xs| && forall x :: x in xs <==> x in result
  {
    assert forall i :: i in order ==> i < |xs|;
    DistinctFit(order, |xs|);
    forall x | x in xs ensures x in result {
      var i: nat :| i < |xs| && xs[i] == x;
      assert i in order;
      var k :| 0 <= k < |order| && order[k] == i;
      assert result[k] == x;
    }
  }

  // -------------------------------------------------------------- what the names refer to

  /** Every resolved column, output and sort key is the one that the request names, in order. */
  ghost predicate Refers(s: DatasetSchema, r: Request, p: Resolved) {
    && |p.whereCols| == |r.predicates|
    && (forall k :: 0 <= k < |r.predicates| ==> Names(s, p.whereCols[k], r.predicates[k].col))
    && (p.grouping.Some? <==> r.groupBy != [])
    && (p.grouping.Some? ==> Realizes(s, r, p.grouping.value))
    && |p.havingCols| == |r.having| && (r.having != [] ==> p.grouping.Some?)
    && (forall k :: 0 <= k < |r.having| && p.grouping.Some? ==>
          FirstNamed(OutputNames(s, p.grouping.value), p.havingCols[k], r.having[k].col))
    && |p.keys| == |r.orderBy|
    && (forall k :: 0 <= k < |r.orderBy| ==> SortsBy(s, p.grouping, r.orderBy[k], p.keys[k]))
    && (p.grouping.None? ==> Projects(s, r, p.projection))
  }

  /** The projection is the columns named, or all columns when none is named. */
  ghost predicate Projects(s: DatasetSchema, r: Request, projection: seq<nat>) {
    if r.columns == [] then |projection| == |s.columns| && forall k :: 0 <= k < |projection| ==> projection[k] == k
    else |projection| == |r.columns| && forall k :: 0 <= k < |projection| ==> Names(s, projection[k], r.columns[k])
  }

  /** HAVING needs a grouping and names its outputs. */
  ghost predicate HavingFits(s: DatasetSchema, plan: Option<AggPlan>, having: seq<Predicate>) {
    having == []
    || (plan.Some? && forall k :: 0 <= k < |having| ==> HasOutput(OutputNames(s, plan.value), having[k].col))
  }

  lemma HavingExactlyRefers(s: DatasetSchema, plan: Option<AggPlan>, having: seq<Predicate>)
    ensures HavingPlan(s, plan, having).Success? <==> HavingFits(s, plan, having)
    ensures var cols := HavingPlan(s, plan, having);
            cols.Success? ==>
              && |cols.value| == |having| && (having != [] ==> plan.Some?)
              && forall k :: 0 <= k < |having| ==>
                   FirstNamed(OutputNames(s, plan.value), cols.value[k], having[k].col)
  {
    if having != [] && plan.Some? { OutputsForMeaning(OutputNames(s, plan.value), PredicateNames(having)); }
  }

  lemma ProjectionExactly(s: DatasetSchema, r: Request)
    ensures ProjectionOf(s, r).Success? <==> forall k :: 0 <= k < |r.columns| ==> Known(s, r.columns[k])
    ensures ProjectionOf(s, r).Success? ==> Projects(s, r, ProjectionOf(s, r).value)
  {
    ResolveAllMeaning(s, r.columns);
  }

  lemma WhereColumnsExactly(s: DatasetSchema, ps: seq<Predicate>)
    ensures var cols := ResolveAll(s, PredicateNames(ps));
            && (cols.Success? <==> forall k :: 0 <= k < |ps| ==> Known(s, ps[k].col))
            && (cols.Success? ==>
                  |cols.value| == |ps| && forall k :: 0 <= k < |ps| ==> Names(s, cols.value[k], ps[k].col))
  {
    ResolveAllMeaning(s, PredicateNames(ps));
    assert forall k :: 0 <= k < |ps| ==> PredicateNames(ps)[k] == ps[k].col;
  }

  /** The parts of a resolved request, each on its own. */
  lemma ResolvedParts(s: DatasetSchema, r: Request)
    ensures ResolveRequest(s, r).Success? <==>
      && Planned(r, s).Success? && ResolveAll(s, PredicateNames(r.predicates)).Success?
      && HavingPlan(s, Planned(r, s).value, r.having).Success?
      && OrderPlan(s, Planned(r, s).value, r.orderBy).Success?
      && (Planned(r, s).value.None? ==> ProjectionOf(s, r).Success?)
    ensures ResolveRequest(s, r).Success? ==>
      var p := ResolveRequest(s, r).value;
      && Planned(r, s) == Success(p.grouping) && ResolveAll(s, PredicateNames(r.predicates)) == Success(p.whereCols)
      && HavingPlan(s, p.grouping, r.having) == Success(p.havingCols)
      && OrderPlan(s, p.grouping, r.orderBy) == Success(p.keys)
      && (p.grouping.None? ==> ProjectionOf(s, r) == Success(p.projection))
  {
  }

  lemma ResolvedRefers(s: DatasetSchema, r: Request)
    ensures ResolveRequest(s, r).Success? ==> Refers(s, r, ResolveRequest(s, r).value)
  {
    ResolvedParts(s, r);
    if ResolveRequest(s, r).Success? {
      var p := ResolveRequest(s, r).value;
      PlannedExactly(r, s);
      WhereColumnsExactly(s, r.predicates);
      HavingExactlyRefers(s, p.grouping, r.having);
      OrderPlanExactly(s, p.grouping, r.orderBy);
      ProjectionExactly(s, r);
    }
  }

  /** Which requests resolve: those that have a plan and whose every name refers to something. */
  lemma ResolvesExactly(s: DatasetSchema, r: Request)
    ensures ResolveRequest(s, r).Success? <==>
      && Planned(r, s).Success?
      && (forall k :: 0 <= k < |r.predicates| ==> Known(s, r.predicates[k].col))
      && HavingFits(s, Planned(r, s).value, r.having)
      && (forall k :: 0 <= k < |r.orderBy| ==> Orderable(s, Planned(r, s).value, r.orderBy[k]))
      && (r.groupBy == [] ==> forall k :: 0 <= k < |r.columns| ==> Known(s, r.columns[k]))
  {
    ResolvedParts(s, r);
    PlannedExactly(r, s);
    WhereColumnsExactly(s, r.predicates);
    ProjectionExactly(s, r);
    if Planned(r, s).Success? {
      HavingExactlyRefers(s, Planned(r, s).value, r.having);
      OrderPlanExactly(s, Planned(r, s).value, r.orderBy);
    }
  }

  lemma RealizesWithin(s: DatasetSchema, r: Request, plan: AggPlan)
    requires Realizes(s, r, plan)
    ensures Within(plan.groupCols, |s.columns|) && AggsWithin(plan.aggs, |s.columns|)
  {
    if r.aggregations != [] {
      assert forall k :: 0 <= k < |plan.aggs| ==> Renders(s, r.aggregations[k], plan.aggs[k]);
    }
  }

  lemma RefersWithin(s: DatasetSchema, r: Request, p: Resolved)
    requires Refers(s, r, p)
    ensures Within(p.whereCols, |s.columns|)
    ensures p.grouping.None? ==> Within(p.projection, |s.columns|) && Within(Positions(p.keys), |s.columns|)
    ensures p.grouping.Some? ==>
      var plan := p.grouping.value;
      && Within(plan.groupCols, |s.columns|) && AggsWithin(plan.aggs, |s.columns|)
      && Within(p.havingCols, |plan.groupCols| + |plan.aggs|)
      && Within(Positions(p.keys), |plan.groupCols| + |plan.aggs|)
  {
    if p.grouping.Some? {
      var plan := p.grouping.value;
      assert |OutputNames(s, plan)| == |plan.groupCols| + |plan.aggs|;
      RealizesWithin(s, r, plan);
      assert forall k :: 0 <= k < |p.havingCols| ==>
        FirstNamed(OutputNames(s, plan), p.havingCols[k], r.having[k].col);
    }
    assert forall k :: 0 <= k < |p.keys| ==> SortsBy(s, p.grouping, r.orderBy[k], p.keys[k]);
  }

  /** A request that resolves, without grouping, over any table with the schema's columns. */
  lemma PlainRequestExactly(e: Engine, s: DatasetSchema, r: Request, t: Table)
    returns (p: Resolved, kept: seq<nat>, ordered: seq<nat>, out: seq<seq<Value>>)
    requires ResolveRequest(s, r).Success? && r.groupBy == [] && Rectangular(t, |s.columns|)
    ensures ResolveRequest(s, r) == Success(p) && Refers(s, r, p)
    ensures Chosen(kept, |t|, Accepted(e, r.predicates, p.whereCols, t))
    ensures exists sortKeys ::
      Cells(t, kept, Positions(p.keys), sortKeys) && Arranged(e, p.keys, sortKeys, kept, ordered)
    ensures Cells(t, ordered, p.projection, out)
    ensures if r.distinct
            then exists firsts :: Chosen(firsts, |out|, First(out)) && At(out, firsts, Evaluate(e, r, p, t))
            else Evaluate(e, r, p, t) == out
  {
    p := ResolveRequest(s, r).value;
    ResolvedRefers(s, r);
    RefersWithin(s, r, p);
    kept, ordered, out := RowsExactly(e, r, p, t, |s.columns|);
  }

  /** A request that resolves, with grouping. */
  lemma GroupedRequestExactly(e: Engine, s: DatasetSchema, r: Request, t: Table)
    returns (p: Resolved, kept: seq<nat>, outs: seq<seq<Value>>, shown: seq<seq<Value>>)
    requires ResolveRequest(s, r).Success? && r.groupBy != [] && Rectangular(t, |s.columns|)
    ensures ResolveRequest(s, r) == Success(p) && Refers(s, r, p) && p.grouping.Some?
    ensures Chosen(kept, |t|, Accepted(e, r.predicates, p.whereCols, t))
    ensures AreGroupRows(e, t, p.grouping.value, kept, outs)
    ensures exists positions ::
      Chosen(positions, |outs|, Accepted(e, r.having, p.havingCols, outs)) && At(outs, positions, shown)
    ensures exists sortKeys ::
      && Cells(shown, AllRows(|shown|), Positions(p.keys), sortKeys)
      && Arranged(e, p.keys, sortKeys, shown, Evaluate(e, r, p, t))
  {
    p := ResolveRequest(s, r).value;
    ResolvedRefers(s, r);
    RefersWithin(s, r, p);
    kept, outs, shown := GroupsExactly(e, r, p, t, |s.columns|);
  }

  // ------------------------------------------------------------------------------ pages

  type Fetch = nat -> Result<seq<seq<Value>>, Error>

  /** A request per page. */
  function Fetcher(e: Engine, s: DatasetSchema, r: Request, cap: nat, t: Table): Fetch
    requires cap >= 1
  {
    (n: nat) => Exec(e, s, r.(page := n), cap, t)
  }

  /** The rows of the first `n` pages, each fetched by its own request. */
  ghost function Fetched(fetch: Fetch, n: nat): seq<seq<Value>> {
    if n == 0 then [] else Fetched(fetch, n - 1) + if fetch(n).Success? then fetch(n).value else []
  }

  lemma ResolvesForEveryPage(s: DatasetSchema, r: Request, n: nat)
    ensures ResolveRequest(s, r.(page := n)) == ResolveRequest(s, r)
  {
    assert Planned(r.(page := n), s) == Planned(r, s);
  }

  lemma EvaluatesForEveryPage(e: Engine, r: Request, n: nat, p: Resolved, t: Table)
    ensures Evaluate(e, r.(page := n), p, t) == Evaluate(e, r, p, t)
  {
  }

  lemma PageOfAnswer(e: Engine, s: DatasetSchema, r: Request, p: Resolved, cap: nat, t: Table, n: nat)
    requires cap >= 1 && ResolveRequest(s, r) == Success(p)
    ensures Fetcher(e, s, r, cap, t)(n)
         == Success(Slice(Evaluate(e, r, p, t), PageWindow(n, r.pageSize, r.limit, cap)))
  {
    ResolvesForEveryPage(s, r, n);
    EvaluatesForEveryPage(e, r, n, p, t);
  }

  lemma {:induction false} FetchedAreFirstPages(fetch: Fetch, rows: seq<seq<Value>>, n: nat, pageSize: nat,
          limit: Option<nat>, cap: nat)
    requires cap >= 1 && forall k: nat :: fetch(k) == Success(Slice(rows, PageWindow(k, pageSize, limit, cap)))
    ensures Fetched(fetch, n) == FirstPages(rows, n, pageSize, limit, cap)
  {
    if n > 0 { FetchedAreFirstPages(fetch, rows, n - 1, pageSize, limit, cap); }
  }

  /** Fetched one after another, enough pages hold every row of the answer below the limit, once, in order. */
  lemma FetchedPagesAreTheAnswer(e: Engine, s: DatasetSchema, r: Request, p: Resolved, n: nat, cap: nat, t: Table)
    requires cap >= 1 && ResolveRequest(s, r) == Success(p) && (n >= 1 ==> OffsetFits(n, r.pageSize, cap))
    requires PageStart(n + 1, ClampSize(r.pageSize, cap)) >= |Capped(Evaluate(e, r, p, t), r.limit)|
    ensures Fetched(Fetcher(e, s, r, cap, t), n) == Capped(Evaluate(e, r, p, t), r.limit)
  {
    var fetch, rows := Fetcher(e, s, r, cap, t), Evaluate(e, r, p, t);
    forall k: nat ensures fetch(k) == Success(Slice(rows, PageWindow(k, r.pageSize, r.limit, cap))) {
      PageOfAnswer(e, s, r, p, cap, t, k);
    }
    FetchedAreFirstPages(fetch, rows, n, r.pageSize, r.limit, cap);
    AllPagesReadEverything(rows, n, r.pageSize, r.limit, cap);
  }
}
