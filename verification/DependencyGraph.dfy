/** The exact-name dependency graph of query datasets: Kahn's build order, the
    depth-first cycle finder, and the proof that the two agree. */
module DependencyGraph {
  import opened Wrappers
  import opened Config
  import opened Digraph
  import opened Listings

  // ---------------------------------------------------------------- the graph

  /** Name lookup built by inserting every dataset in order: the last one wins. */
  function NameToIdx(ds: seq<Dataset>): map<string, nat> {
    if ds == [] then map[]
    else
      var n := |ds| - 1;
      NameToIdx(ds[..n])[ds[n].name := n]
  }

  /** Every name resolves to the last dataset that bears it, and nothing else resolves. */
  lemma {:induction false} NameToIdxIsLast(ds: seq<Dataset>)
    ensures forall s :: s in NameToIdx(ds) ==> NameToIdx(ds)[s] < |ds| && ds[NameToIdx(ds)[s]].name == s
    ensures forall i :: 0 <= i < |ds| ==> ds[i].name in NameToIdx(ds) && i <= NameToIdx(ds)[ds[i].name]
  {
    if ds != [] { NameToIdxIsLast(ds[..|ds| - 1]); }
  }

  /** The listed names that resolve, in declaration order, repeats kept. */
  ghost function Resolve(idx: map<string, nat>, names: seq<string>): seq<nat> {
    if names == [] then []
    else
      var n := |names| - 1;
      var front := Resolve(idx, names[..n]);
      if names[n] in idx then front + [idx[names[n]]] else front
  }

  lemma {:induction false} ResolvedIsListed(idx: map<string, nat>, names: seq<string>, j: nat) returns (k: nat)
    requires j in Resolve(idx, names)
    ensures k < |names| && names[k] in idx && idx[names[k]] == j
  {
    var n := |names| - 1;
    if j in Resolve(idx, names[..n]) {
      k := ResolvedIsListed(idx, names[..n], j);
    } else {
      k := n;
    }
  }

  lemma {:induction false} ListedIsResolved(idx: map<string, nat>, names: seq<string>, k: nat)
    requires k < |names| && names[k] in idx
    ensures idx[names[k]] in Resolve(idx, names)
  {
    var n := |names| - 1;
    if k < n { ListedIsResolved(idx, names[..n], k); }
  }

  /** Node `i` has an edge to every dataset its query lists by exact name; other sources have none. */
  ghost function DependencyEdges(ds: seq<Dataset>): (g: Graph)
    ensures |g| == |ds|
    ensures forall i :: 0 <= i < |ds| ==> g[i] == DependenciesOf(NameToIdx(ds), ds[i])
  {
    var idx := NameToIdx(ds);
    seq(|ds|, i requires 0 <= i < |ds| => DependenciesOf(idx, ds[i]))
  }

  ghost function DependenciesOf(idx: map<string, nat>, d: Dataset): seq<nat> {
    if d.kind.Query? then Resolve(idx, d.dependsOn) else []
  }

  /** An edge means exactly this: a query lists the name that resolves to `j`. */
  lemma EdgeMeansListed(ds: seq<Dataset>, i: nat, j: nat)
    ensures Edge(DependencyEdges(ds), i, j)
      <==> && i < |ds| && j < |ds| && ds[i].kind.Query? && ds[j].name in ds[i].dependsOn
           && (ds[j].name, j) in NameToIdx(ds).Items
  {
    var idx := NameToIdx(ds);
    NameToIdxIsLast(ds);
    if i < |ds| && ds[i].kind.Query? {
      var names := ds[i].dependsOn;
      if j in Resolve(idx, names) {
        var k := ResolvedIsListed(idx, names, j);
        assert names[k] == ds[j].name;
      }
      if j < |ds| && ds[j].name in names && idx[ds[j].name] == j {
        var k :| 0 <= k < |names| && names[k] == ds[j].name;
        ListedIsResolved(idx, names, k);
      }
    }
  }

  lemma EdgesAreClosed(ds: seq<Dataset>)
    ensures Closed(DependencyEdges(ds))
  {
    var g := DependencyEdges(ds);
    forall i, j | 0 <= i < |g| && j in g[i] ensures 0 <= j < |g| {
      assert Edge(g, i, j);
      EdgeMeansListed(ds, i, j);
    }
  }

  /** A reported cycle: the names along a closed walk. */
  ghost predicate IsCycleReport(ds: seq<Dataset>, names: seq<string>) {
    exists p :: IsClosedWalk(DependencyEdges(ds), p) && IsNamesOf(ds, p, names)
  }

  ghost predicate IsNamesOf(ds: seq<Dataset>, p: seq<nat>, names: seq<string>) {
    && |names| == |p|
    && forall k :: 0 <= k < |p| ==> p[k] < |ds| && names[k] == ds[p[k]].name
  }

  /** Some query dataset bearing the name `a` declares the dependency `b`. */
  ghost predicate Declares(ds: seq<Dataset>, a: string, b: string) {
    exists i :: 0 <= i < |ds| && ds[i].kind.Query? && ds[i].name == a && b in ds[i].dependsOn
  }

  /** What a reader of the error message is told: the list is closed, and each name is a
      declared dependency of the one before it. */
  lemma CycleReportIsDeclared(ds: seq<Dataset>, names: seq<string>)
    requires IsCycleReport(ds, names)
    ensures |names| >= 2 && names[0] == names[|names| - 1]
    ensures forall k :: 0 <= k < |names| - 1 ==> Declares(ds, names[k], names[k + 1])
  {
    var p :| IsClosedWalk(DependencyEdges(ds), p) && IsNamesOf(ds, p, names);
    forall k | 0 <= k < |names| - 1 ensures Declares(ds, names[k], names[k + 1]) {
      assert Edge(DependencyEdges(ds), p[k], p[k + 1]);
      EdgeMeansListed(ds, p[k], p[k + 1]);
    }
  }

  // ---------------------------------------------------------- Kahn's algorithm

  /** The counters and the lists when the edges of the first `i` nodes have been recorded. */
  ghost predicate Recorded(g: Graph, i: nat, inDegree: seq<nat>, adj: seq<seq<nat>>)
    requires i <= |g|
  {
    && |inDegree| == |adj| == |g|
    && (forall x :: 0 <= x < |g| ==> inDegree[x] == if x < i then |g[x]| else 0)
    && (forall j :: 0 <= j < |g| ==> adj[j] == Predecessors(g, i, j))
  }

  /** In-degrees and the adjacency lists dependency -> dependents, repeats kept. */
  method BuildAdjacency(ds: seq<Dataset>, idx: map<string, nat>, ghost g: Graph)
    returns (inDegree: array<nat>, adj: array<seq<nat>>)
    requires idx == NameToIdx(ds) && g == DependencyEdges(ds)
    ensures fresh(inDegree) && fresh(adj) && inDegree.Length == adj.Length == |ds|
    ensures forall i :: 0 <= i < |ds| ==> inDegree[i] == |g[i]|
    ensures forall j :: 0 <= j < |ds| ==> adj[j] == Predecessors(g, |g|, j)
  {
    var n := |ds|;
    inDegree := new nat[n](_ => 0);
    adj := new seq<nat>[n](_ => []);
    NothingRecorded(g, inDegree[..], adj[..]);
    NameToIdxIsLast(ds);
    AddDatasets(ds, idx, g, inDegree, adj);
    assert forall i :: 0 <= i < n ==> inDegree[i] == inDegree[..][i] && adj[i] == adj[..][i];
  }

  lemma NothingRecorded(g: Graph, degrees: seq<nat>, lists: seq<seq<nat>>)
    requires |degrees| == |lists| == |g| && forall x :: 0 <= x < |g| ==> degrees[x] == 0 && lists[x] == []
    ensures Recorded(g, 0, degrees, lists)
  {
  }

  /** The loop over the datasets. */
  method AddDatasets(ds: seq<Dataset>, idx: map<string, nat>, ghost g: Graph, inDegree: array<nat>,
          adj: array<seq<nat>>)
    requires idx == NameToIdx(ds) && g == DependencyEdges(ds) && (forall s :: s in idx ==> idx[s] < |ds|)
    requires inDegree.Length == adj.Length == |ds| && inDegree as object != adj as object
    requires Recorded(g, 0, inDegree[..], adj[..])
    modifies inDegree, adj
    ensures Recorded(g, |g|, inDegree[..], adj[..])
  {
    for i := 0 to |ds|
      invariant Recorded(g, i, inDegree[..], adj[..])
    {
      AddDataset(ds, i, idx, g, inDegree, adj);
    }
  }

  /** Only a query contributes edges. */
  method AddDataset(ds: seq<Dataset>, i: nat, idx: map<string, nat>, ghost g: Graph, inDegree: array<nat>,
          adj: array<seq<nat>>)
    requires i < |ds| && idx == NameToIdx(ds) && g == DependencyEdges(ds)
    requires inDegree.Length == adj.Length == |ds| && inDegree as object != adj as object
    requires (forall s :: s in idx ==> idx[s] < |ds|) && Recorded(g, i, inDegree[..], adj[..])
    modifies inDegree, adj
    ensures Recorded(g, i + 1, inDegree[..], adj[..])
  {
    ghost var degrees: seq<nat>, lists := inDegree[..], adj[..];
    if ds[i].kind.Query? { AddEdges(i, ds[i].dependsOn, idx, inDegree, adj); }
    WithMentionsNone(lists, i);
    assert adj[..] == WithMentions(lists, i, g[i]) && inDegree[..] == degrees[i := |g[i]|];
    RecordedNext(g, i, degrees, lists);
  }

  /** Each list with one more `i` for every mention of its node. */
  ghost function WithMentions(lists: seq<seq<nat>>, i: nat, mentions: seq<nat>): seq<seq<nat>> {
    seq(|lists|, j requires 0 <= j < |lists| => lists[j] + Repeat(i, Count(mentions, j)))
  }

  lemma WithMentionsNone(lists: seq<seq<nat>>, i: nat)
    ensures WithMentions(lists, i, []) == lists
  {
    assert forall j :: 0 <= j < |lists| ==> WithMentions(lists, i, [])[j] == lists[j] + [] == lists[j];
  }

  lemma WithMentionsNext(lists: seq<seq<nat>>, i: nat, mentions: seq<nat>, dep: nat)
    requires dep < |lists|
    ensures var before := WithMentions(lists, i, mentions);
            WithMentions(lists, i, mentions + [dep]) == before[dep := before[dep] + [i]]
  {
    CountAppend(mentions, dep);
    var again := Repeat(i, Count(mentions, dep));
    assert lists[dep] + (again + [i]) == (lists[dep] + again) + [i];
  }

  lemma RecordedNext(g: Graph, i: nat, degrees: seq<nat>, lists: seq<seq<nat>>)
    requires i < |g| && Recorded(g, i, degrees, lists)
    ensures Recorded(g, i + 1, degrees[i := |g[i]|], WithMentions(lists, i, g[i]))
  {
    forall j: nat ensures Predecessors(g, i + 1, j) == Predecessors(g, i, j) + Repeat(i, Count(g[i], j)) {
    }
  }

  /** Record node `i` under every dependency that resolves, once per mention. */
  method AddEdges(i: nat, names: seq<string>, idx: map<string, nat>, inDegree: array<nat>, adj: array<seq<nat>>)
    requires inDegree.Length == adj.Length && i < adj.Length && inDegree as object != adj as object
    requires forall s :: s in idx ==> idx[s] < adj.Length
    requires inDegree[i] == 0
    modifies inDegree, adj
    ensures inDegree[..] == old(inDegree[..])[i := |Resolve(idx, names)|]
    ensures adj[..] == WithMentions(old(adj[..]), i, Resolve(idx, names))
  {
    WithMentionsNone(adj[..], i);
    for k := 0 to |names|
      invariant inDegree[..] == old(inDegree[..])[i := |Resolve(idx, names[..k])|]
      invariant adj[..] == WithMentions(old(adj[..]), i, Resolve(idx, names[..k]))
    {
      assert names[..k + 1][..k] == names[..k];
      if names[k] in idx {
        var dep := idx[names[k]];
        WithMentionsNext(old(adj[..]), i, Resolve(idx, names[..k]), dep);
        adj[dep] := adj[dep] + [i];
        inDegree[i] := inDegree[i] + 1;
      }
    }
    assert names[..|names|] == names;
  }

  /** What holds of the counters, the queue and the emitted prefix between two pops. */
  ghost predicate Draining(g: Graph, inDegree: seq<nat>, queue: seq<nat>, order: seq<nat>) {
    && |inDegree| == |g|
    && (forall i :: 0 <= i < |g| ==> inDegree[i] == Remaining(g[i], Elems(order)))
    && Ready(inDegree, order + queue)
    && SuccessorsFirst(g, order)
  }

  /** The queued and emitted indices are exactly those whose counter is zero, once each. */
  ghost predicate Ready(inDegree: seq<nat>, listed: seq<nat>) {
    && NoDuplicates(listed)
    && (forall i :: i in listed <==> 0 <= i < |inDegree| && inDegree[i] == 0)
  }

  /** Decrement the counter of every dependent of `node`, queueing those that reach zero.
      The counters are naturals, so no decrement underflows. */
  method Release(ghost g: Graph, inDegree: array<nat>, dependents: seq<nat>, queue: seq<nat>, ghost order: seq<nat>,
          ghost node: nat) returns (queue': seq<nat>)
    requires inDegree.Length == |g| && node < |g| && node !in order
    requires Draining(g, inDegree[..], [node] + queue, order)
    requires forall i: nat :: i < |g| ==> Count(dependents, i) == Count(g[i], node)
    requires forall i :: i in dependents ==> 0 <= i < |g|
    modifies inDegree
    ensures Draining(g, inDegree[..], queue', order + [node])
  {
    ghost var before := inDegree[..];
    ghost var head := order + [node];
    assert order + ([node] + queue) == head + queue;
    queue' := queue;
    CountersAfter(g, before, order, node);
    for k := 0 to |dependents|
      invariant forall i: nat :: i < |g| ==> inDegree[i] + Count(dependents[..k], i) == before[i]
      invariant Ready(inDegree[..], head + queue')
    {
      var dep := dependents[k];
      assert dep in dependents;
      CountPrefix(dependents, k, dep);
      assert dependents[..k + 1][..k] == dependents[..k];
      ghost var was := inDegree[..];
      inDegree[dep] := inDegree[dep] - 1;
      assert inDegree[..] == was[dep := was[dep] - 1];
      ReadyAfter(was, head + queue', dep);
      if inDegree[dep] == 0 {
        assert head + (queue' + [dep]) == head + queue' + [dep];
        queue' := queue' + [dep];
      }
    }
    assert dependents[..|dependents|] == dependents;
    EmitKeepsOrder(g, order, node);
  }

  lemma CountersAfter(g: Graph, inDegree: seq<nat>, order: seq<nat>, node: nat)
    requires |inDegree| == |g| && node < |g| && node !in order
    requires forall i :: 0 <= i < |g| ==> inDegree[i] == Remaining(g[i], Elems(order))
    requires inDegree[node] == 0
    ensures forall i :: 0 <= i < |g| ==> inDegree[i] == Remaining(g[i], Elems(order + [node])) + Count(g[i], node)
    ensures forall j :: j in g[node] ==> j in order
  {
    assert Elems(order + [node]) == Elems(order) + {node};
    forall i | 0 <= i < |g|
      ensures inDegree[i] == Remaining(g[i], Elems(order + [node])) + Count(g[i], node)
    {
      RemainingAfter(g[i], Elems(order), node);
    }
    RemainingZero(g[node], Elems(order));
  }

  lemma ReadyAfter(inDegree: seq<nat>, listed: seq<nat>, dep: nat)
    requires Ready(inDegree, listed) && dep < |inDegree| && inDegree[dep] > 0
    ensures inDegree[dep] > 1 ==> Ready(inDegree[dep := inDegree[dep] - 1], listed)
    ensures inDegree[dep] == 1 ==> Ready(inDegree[dep := 0], listed + [dep])
  {
    assert dep !in listed;
  }

  lemma EmitKeepsOrder(g: Graph, order: seq<nat>, node: nat)
    requires node < |g| && SuccessorsFirst(g, order)
    requires forall j :: j in g[node] ==> j in order
    ensures SuccessorsFirst(g, order + [node])
  {
    var order' := order + [node];
    forall k, j | 0 <= k < |order'| && Edge(g, order'[k], j) ensures j in order'[..k] {
      assert k < |order| ==> order'[..k] == order[..k] && Edge(g, order[k], j);
      assert order'[..|order|] == order;
    }
  }

  method Drain(ghost g: Graph, inDegree: array<nat>, adj: array<seq<nat>>) returns (order: seq<nat>)
    requires inDegree.Length == adj.Length == |g|
    requires Closed(g) && forall i :: 0 <= i < |g| ==> inDegree[i] == |g[i]|
    requires forall j :: 0 <= j < |g| ==> adj[j] == Predecessors(g, |g|, j)
    requires inDegree as object != adj as object
    modifies inDegree
    ensures NoDuplicates(order) && SuccessorsFirst(g, order)
    ensures forall i :: i in order ==> i < |g|
    ensures NoSink(g, Upto(|g|) - Elems(order))
  {
    var queue: seq<nat> := [];
    for i := 0 to inDegree.Length
      invariant NoDuplicates(queue)
      invariant forall x :: x in queue <==> 0 <= x < i && inDegree[x] == 0
    {
      if inDegree[i] == 0 { queue := queue + [i]; }
    }
    order := [];
    forall i | 0 <= i < |g| ensures inDegree[i] == Remaining(g[i], Elems(order)) {
      assert Elems(order) == {};
      RemainingZero(g[i], Elems(order));
    }
    assert order + queue == queue;
    while queue != []
      invariant Draining(g, inDegree[..], queue, order)
      invariant adj[..] == old(adj[..])
      decreases |g| - |order|
    {
      var node := queue[0];
      assert queue == [node] + queue[1..];
      assert (order + queue)[|order|] == node && node in order + queue;
      assert forall a :: 0 <= a < |order| ==> (order + queue)[a] == order[a];
      DistinctFit(order + queue, |g|);
      assert adj[..][node] == adj[node];
      forall i: nat ensures Count(adj[node], i) == if i < |g| then Count(g[i], node) else 0 {
        CountPredecessors(g, |g|, node, i);
      }
      CountPredecessors(g, |g|, node, node);
      queue := Release(g, inDegree, adj[node], queue[1..], order, node);
      order := order + [node];
    }
    assert order + queue == order;
    BlockedOutside(g, inDegree[..], order);
  }

  lemma BlockedOutside(g: Graph, inDegree: seq<nat>, order: seq<nat>)
    requires Closed(g) && Draining(g, inDegree, [], order)
    ensures NoSink(g, Upto(|g|) - Elems(order))
  {
    assert order + [] == order;
    var left := Upto(|g|) - Elems(order);
    forall i | i in left ensures HasSuccessor(g, left, i) {
      RemainingZero(g[i], Elems(order));
      var j :| j in g[i] && j !in Elems(order);
      assert Edge(g, i, j) && j in left;
    }
  }

  /** The build order: returned exactly when the graph is acyclic; otherwise the error
      names an actual cycle. */
  method TopologicalOrder(ds: seq<Dataset>) returns (r: Result<seq<nat>, seq<string>>)
    ensures r.Success? <==> Acyclic(DependencyEdges(ds))
    ensures r.Success? ==> IsBuildOrder(DependencyEdges(ds), r.value)
    ensures r.Failure? ==> IsCycleReport(ds, r.error)
  {
    var idx := NameToIdx(ds);
    ghost var g := DependencyEdges(ds);
    EdgesAreClosed(ds);
    var inDegree, adj := BuildAdjacency(ds, idx, g);
    var order := Drain(g, inDegree, adj);
    DistinctFit(order, |ds|);
    if |order| != |ds| {
      ghost var start: nat :| start < |ds| && start !in order;
      ClosedSetIsCyclic(g, Upto(|g|) - Elems(order), [start]);
      var report := FindCyclePath(ds, idx);
      return Failure(report);
    }
    RankedIsAcyclic(g, order);
    return Success(order);
  }

  lemma OrderInRange(ds: seq<Dataset>, order: seq<nat>)
    requires IsBuildOrder(DependencyEdges(ds), order)
    ensures forall k :: 0 <= k < |order| ==> order[k] < |ds|
  {
    var g := DependencyEdges(ds);
    DistinctSize(order);
    SubsetSize(Upto(|g|), Elems(order));
    forall k | 0 <= k < |order| ensures order[k] < |ds| { assert order[k] in Upto(|g|); }
  }

  // ------------------------------------------------------------- cycle finder

  /** What holds of the search's vectors between two steps; `finished` lists the nodes that
      were popped, in that order. */
  ghost predicate Searching(g: Graph, visited: seq<bool>, inStack: seq<bool>, path: seq<nat>, finished: seq<nat>) {
    && |visited| == |inStack| == |g|
    && NoDuplicates(path) && IsWalk(g, path)
    && Marks(visited, inStack, path, finished)
    && FinishedIsClosed(g, finished)
  }

  /** `in_stack` marks the path; `visited` marks the path and the finished nodes. */
  ghost predicate Marks(visited: seq<bool>, inStack: seq<bool>, path: seq<nat>, finished: seq<nat>)
    requires |visited| == |inStack|
  {
    && (forall i :: i in path ==> 0 <= i < |inStack| && inStack[i])
    && (forall i :: i in finished ==> 0 <= i < |inStack| && visited[i] && !inStack[i])
    && (forall i :: 0 <= i < |inStack| && inStack[i] ==> i in path && visited[i])
    && (forall i :: 0 <= i < |inStack| && visited[i] && !inStack[i] ==> i in finished)
  }

  /** A node finishes only after every query it depends on has finished. */
  ghost predicate FinishedIsClosed(g: Graph, finished: seq<nat>) {
    forall k, j :: 0 <= k < |finished| && Edge(g, finished[k], j) && j < |g| && g[j] != [] ==> j in finished[..k]
  }

  lemma EnterKeeps(g: Graph, visited: seq<bool>, inStack: seq<bool>, path: seq<nat>, finished: seq<nat>, node: nat)
    requires Searching(g, visited, inStack, path, finished)
    requires node < |g| && !visited[node]
    requires path != [] ==> Edge(g, path[|path| - 1], node)
    ensures Searching(g, visited[node := true], inStack[node := true], path + [node], finished)
  {
    var path' := path + [node];
    forall k | 0 <= k < |path'| - 1 ensures Edge(g, path'[k], path'[k + 1]) {
      assert k < |path| - 1 ==> Edge(g, path[k], path[k + 1]);
    }
    assert node !in path;
  }

  lemma LeaveKeeps(g: Graph, visited: seq<bool>, inStack: seq<bool>, path: seq<nat>, finished: seq<nat>, node: nat)
    requires Searching(g, visited, inStack, path + [node], finished)
    requires forall j :: Edge(g, node, j) && j < |g| && g[j] != [] ==> j in finished
    ensures node < |g| && Searching(g, visited, inStack[node := false], path, finished + [node])
  {
    var old' := path + [node];
    assert old'[|path|] == node && node in old';
    forall k | 0 <= k < |path| - 1 ensures Edge(g, path[k], path[k + 1]) {
      assert Edge(g, old'[k], old'[k + 1]);
    }
    assert forall a :: 0 <= a < |path| ==> old'[a] == path[a];
    LeaveKeepsMarks(visited, inStack, path, finished, node);
    var finished' := finished + [node];
    forall k, j | 0 <= k < |finished'| && Edge(g, finished'[k], j) && j < |g| && g[j] != []
      ensures j in finished'[..k]
    {
      assert finished'[..k] == finished[..k];
      assert k < |finished| ==> Edge(g, finished[k], j);
    }
  }

  lemma LeaveKeepsMarks(visited: seq<bool>, inStack: seq<bool>, path: seq<nat>, finished: seq<nat>, node: nat)
    requires |visited| == |inStack| && node < |inStack| && node !in path
    requires Marks(visited, inStack, path + [node], finished)
    ensures Marks(visited, inStack[node := false], path, finished + [node])
  {
    assert node in path + [node];
    assert forall i :: i in path ==> i in path + [node];
  }

  /** The depth-first search's shared vectors. */
  class CycleSearch {
    const ds: seq<Dataset>
    const idx: map<string, nat>
    ghost const g: Graph
    var visited: seq<bool>
    var inStack: seq<bool>
    var path: seq<nat>
    ghost var finished: seq<nat>

    ghost predicate Valid()
      reads this
    {
      && idx == NameToIdx(ds) && g == DependencyEdges(ds)
      && Searching(g, visited, inStack, path, finished)
    }

    constructor (ds: seq<Dataset>, idx: map<string, nat>)
      requires idx == NameToIdx(ds)
      ensures Valid() && this.ds == ds && path == [] && finished == []
    {
      this.ds := ds;
      this.idx := idx;
      g := DependencyEdges(ds);
      visited := seq(|ds|, _ => false);
      inStack := seq(|ds|, _ => false);
      path := [];
      finished := [];
    }

    ghost function Unvisited(): set<nat>
      reads this
    {
      set i: nat | i < |visited| && !visited[i]
    }

    /** Explore from `node`: a closed walk if one is met, otherwise `node` and everything
        it depends on is finished and the stack is as it was. */
    method Dfs(node: nat) returns (cycle: Option<seq<nat>>)
      requires Valid()
      requires node < |ds| && ds[node].kind.Query? && !visited[node]
      requires path != [] ==> Edge(g, path[|path| - 1], node)
      modifies this
      ensures cycle.Some? ==> cycle.value != [] && IsClosedWalk(g, cycle.value + [cycle.value[0]])
      ensures cycle.None? ==> Valid() && path == old(path) && node in finished
      ensures cycle.None? ==> old(finished) <= finished && Unvisited() <= old(Unvisited())
      decreases |Unvisited()|, 0
    {
      Enter(node);
      var names := ds[node].dependsOn;
      for k := 0 to |names|
        invariant Valid() && path == old(path) + [node] && old(finished) <= finished
        invariant Unvisited() < old(Unvisited())
        invariant forall m :: 0 <= m < k && names[m] in idx ==> Settled(idx[names[m]])
      {
        if names[k] in idx {
          var next := idx[names[k]];
          ListedIsResolved(idx, names, k);
          ProperSubsetSize(Unvisited(), old(Unvisited()));
          var found := Visit(next);
          if found.Some? { return found; }
        }
      }
      Leave(node);
      assert path == old(path);
      return None;
    }

    method Enter(node: nat)
      requires Valid()
      requires node < |ds| && !visited[node]
      requires path != [] ==> Edge(g, path[|path| - 1], node)
      modifies this
      ensures Valid() && path == old(path) + [node] && finished == old(finished)
      ensures Unvisited() < old(Unvisited())
    {
      EnterKeeps(g, visited, inStack, path, finished, node);
      assert node in Unvisited();
      visited := visited[node := true];
      inStack := inStack[node := true];
      path := path + [node];
      assert node !in Unvisited();
    }

    method Leave(node: nat)
      requires Valid() && path != [] && path[|path| - 1] == node && node < |ds| && ds[node].kind.Query?
      requires forall m :: 0 <= m < |ds[node].dependsOn| && ds[node].dependsOn[m] in idx ==>
        Settled(idx[ds[node].dependsOn[m]])
      modifies this
      ensures Valid() && path == old(path)[..|old(path)| - 1] && finished == old(finished) + [node]
      ensures visited == old(visited)
    {
      AllSettled(node);
      assert path == path[..|path| - 1] + [node];
      LeaveKeeps(g, visited, inStack, path[..|path| - 1], finished, node);
      path := path[..|path| - 1];
      inStack := inStack[node := false];
      finished := finished + [node];
    }

    /** One dependency of the node on top of the stack. */
    method Visit(next: nat) returns (cycle: Option<seq<nat>>)
      requires Valid() && path != [] && Edge(g, path[|path| - 1], next)
      modifies this
      ensures cycle.Some? ==> cycle.value != [] && IsClosedWalk(g, cycle.value + [cycle.value[0]])
      ensures cycle.None? ==> Valid() && path == old(path) && Settled(next)
      ensures cycle.None? ==> old(finished) <= finished && Unvisited() <= old(Unvisited())
      decreases |Unvisited()|, 1
    {
      EdgesAreClosed(ds);
      if !ds[next].kind.Query? { return None; }
      if !visited[next] {
        cycle := Dfs(next);
      } else if inStack[next] {
        var start := IndexOf(path, next);
        CloseAt(g, path, next);
        cycle := Some(path[start..]);
      } else {
        cycle := None;
      }
    }

    lemma AllSettled(node: nat)
      requires Valid() && node < |ds| && ds[node].kind.Query?
      requires forall m :: 0 <= m < |ds[node].dependsOn| && ds[node].dependsOn[m] in idx ==>
        Settled(idx[ds[node].dependsOn[m]])
      ensures forall j :: Edge(g, node, j) && j < |g| && g[j] != [] ==> j in finished
    {
      forall j | Edge(g, node, j) && j < |g| && g[j] != [] ensures j in finished {
        var k := ResolvedIsListed(idx, ds[node].dependsOn, j);
        assert Settled(idx[ds[node].dependsOn[k]]);
      }
    }

    ghost predicate Settled(j: nat)
      reads this
    {
      j < |g| && g[j] != [] ==> j in finished
    }
  }

  lemma ProperSubsetSize(a: set<nat>, b: set<nat>)
    requires a < b
    ensures |a| < |b|
  {
    SubsetSize(a, b);
  }

  /** Names along one cycle when there is one; the fallback listing is reached only on
      an acyclic graph. */
  method FindCyclePath(ds: seq<Dataset>, idx: map<string, nat>) returns (names: seq<string>)
    requires idx == NameToIdx(ds)
    ensures !Acyclic(DependencyEdges(ds)) ==> IsCycleReport(ds, names)
    ensures Acyclic(DependencyEdges(ds)) ==> names == QueryNames(ds)
  {
    var search := new CycleSearch(ds, idx);
    for start := 0 to |ds|
      invariant search.Valid() && search.ds == ds && search.path == []
      invariant fresh(search)
      invariant forall i :: 0 <= i < start && ds[i].kind.Query? ==> i in search.finished
    {
      if search.visited[start] || !ds[start].kind.Query? { continue; }
      var cycle := search.Dfs(start);
      if cycle.Some? {
        names := CloseCycle(ds, cycle.value);
        return;
      }
    }
    assert Ranks(search.g, search.finished);
    RankedIsAcyclic(search.g, search.finished);
    names := QueryNames(ds);
  }

  method CloseCycle(ds: seq<Dataset>, cycle: seq<nat>) returns (names: seq<string>)
    requires cycle != [] && IsClosedWalk(DependencyEdges(ds), cycle + [cycle[0]])
    ensures IsCycleReport(ds, names) && |names| == |cycle| + 1
  {
    ghost var closed := cycle + [cycle[0]];
    forall k | 0 <= k < |cycle| ensures cycle[k] < |ds| {
      assert Edge(DependencyEdges(ds), closed[k], closed[k + 1]);
    }
    names := [];
    for k := 0 to |cycle|
      invariant |names| == k && forall m :: 0 <= m < k ==> names[m] == ds[cycle[m]].name
    {
      names := names + [ds[cycle[k]].name];
    }
    names := names + [ds[cycle[0]].name];
    assert IsNamesOf(ds, closed, names);
  }

  function QueryNames(ds: seq<Dataset>): seq<string> {
    if ds == [] then []
    else
      var front, d := QueryNames(ds[..|ds| - 1]), ds[|ds| - 1];
      if d.kind.Query? then front + [d.name] else front
  }

  ghost function Queries(ds: seq<Dataset>): nat -> bool {
    (i: nat) => i < |ds| && ds[i].kind.Query?
  }

  /** They are the names of exactly the query datasets, in order. */
  lemma {:induction false} QueryNamesExactly(ds: seq<Dataset>) returns (positions: seq<nat>)
    ensures Chosen(positions, |ds|, Queries(ds)) && |QueryNames(ds)| == |positions|
    ensures forall k :: 0 <= k < |positions| ==> positions[k] < |ds| && QueryNames(ds)[k] == ds[positions[k]].name
  {
    positions := [];
    if ds != [] {
      var n := |ds| - 1;
      var front := QueryNamesExactly(ds[..n]);
      ChosenSame(front, n, Queries(ds[..n]), Queries(ds));
      ChosenNext(front, n, Queries(ds));
      positions := if Queries(ds)(n) then front + [n] else front;
    }
  }
}
