/** Startup: datasets are built in dependency order and failures propagate to dependents. */
module Startup {
  import opened Wrappers
  import opened Config
  import opened Digraph
  import opened Listings
  import opened DependencyGraph
  import opened Registry

  /** The engine's answer for one dataset. */
  datatype FirstBuild<S> = Loaded(schema: S, rows: int) | Empty | LoadError | CountError(schema: S)

  datatype StartupError = Cycle(report: seq<string>) | SourceFailed(i: nat) | CountFailed(i: nat)

  /** The maps filled so far, the failed names, and the builds attempted in order. */
  datatype Progress<S> = Progress(
    statuses: map<string, Status>,
    schemas: map<string, S>,
    rowCounts: map<string, int>,
    failed: set<string>,
    attempts: seq<nat>)

  function MarkFailed<S>(p: Progress<S>, name: string): Progress<S> {
    p.(statuses := p.statuses[name := Failed], failed := p.failed + {name})
  }

  function MarkPublished<S>(p: Progress<S>, name: string, schema: S, rows: int): Progress<S> {
    p.(statuses := p.statuses[name := Published], schemas := p.schemas[name := schema],
       rowCounts := p.rowCounts[name := rows])
  }

  /** An upstream listed by exact name is known to have failed. */
  predicate UpstreamFailed(failed: set<string>, d: Dataset) {
    exists dep :: dep in d.dependsOn && dep in failed
  }

  /** One pass of the build loop. */
  function BuildOne<S>(p: Progress<S>, d: Dataset, i: nat, build: FirstBuild<S>): Result<Progress<S>, StartupError> {
    if UpstreamFailed(p.failed, d) then Success(MarkFailed(p, d.name))
    else
      var q := p.(attempts := p.attempts + [i]);
      match build
      case Empty => Success(MarkFailed(q, d.name))
      case LoadError => if d.kind.Query? then Success(MarkFailed(q, d.name)) else Failure(SourceFailed(i))
      case CountError(_) => Failure(CountFailed(i))
      case Loaded(schema, rows) => Success(MarkPublished(q, d.name, schema, rows))
  }

  /** The pass succeeds and ends in `q`. */
  predicate IsPass<S>(p: Progress<S>, d: Dataset, i: nat, build: FirstBuild<S>, q: Progress<S>) {
    var r := BuildOne(p, d, i, build);
    r.Success? && r.value.statuses == q.statuses && r.value.schemas.Keys == q.schemas.Keys
    && r.value.rowCounts.Keys == q.rowCounts.Keys && r.value.failed == q.failed && r.value.attempts == q.attempts
  }

  // ------------------------------------------------------------------- invariant

  predicate IsPublished<S>(p: Progress<S>, ds: seq<Dataset>, i: int) {
    0 <= i < |ds| && ds[i].name in p.statuses && p.statuses[ds[i].name].Published?
  }

  /** The maps agree about dataset `i`, which has been decided or is still pending. */
  predicate Entry<S>(p: Progress<S>, d: Dataset, decided: bool) {
    && d.name in p.statuses
    && (if decided then p.statuses[d.name].Published? || p.statuses[d.name].Failed? else p.statuses[d.name].Pending?)
    && (d.name in p.schemas <==> p.statuses[d.name].Published?)
    && (d.name in p.rowCounts <==> p.statuses[d.name].Published?)
    && (d.name in p.failed <==> p.statuses[d.name].Failed?)
  }

  predicate EntryAt<S>(p: Progress<S>, ds: seq<Dataset>, order: seq<nat>, k: nat, i: nat)
    requires i < |ds| && k <= |order|
  {
    Entry(p, ds[i], i in order[..k])
  }

  /** A query, or a source that lists no upstreams. */
  predicate Ordinary(d: Dataset) {
    d.kind.Query? || d.dependsOn == []
  }

  /** A decided dataset is published exactly when it loaded and all it depends on is published. */
  ghost predicate Exact<S>(p: Progress<S>, ds: seq<Dataset>, g: Graph, builds: seq<FirstBuild<S>>, i: nat)
    requires i < |ds| == |g| == |builds|
  {
    Ordinary(ds[i]) ==>
      (IsPublished(p, ds, i) <==> builds[i].Loaded? && forall j :: j in g[i] ==> IsPublished(p, ds, j))
  }

  /** The attempt at position `a` came after all its dependencies were attempted and published. */
  ghost predicate AttemptReady<S>(p: Progress<S>, ds: seq<Dataset>, g: Graph, a: nat)
    requires a < |p.attempts|
  {
    && p.attempts[a] < |ds| == |g|
    && (ds[p.attempts[a]].kind.Query? ==>
          forall j :: j in g[p.attempts[a]] ==> j in p.attempts[..a] && IsPublished(p, ds, j))
  }

  ghost predicate NamedIn(ds: seq<Dataset>, n: string) {
    exists i :: 0 <= i < |ds| && ds[i].name == n
  }

  /** What holds after the first `k` datasets of the order were handled. */
  ghost predicate Loading<S(!new)>(p: Progress<S>, ds: seq<Dataset>, g: Graph, builds: seq<FirstBuild<S>>,
          order: seq<nat>, k: nat)
    requires |ds| == |g| == |builds| && k <= |order|
  {
    && (forall i: nat {:trigger EntryAt(p, ds, order, k, i)} :: i < |ds| ==> EntryAt(p, ds, order, k, i))
    && (forall i: nat {:trigger Exact(p, ds, g, builds, i)} ::
          i < |ds| && i in order[..k] ==> Exact(p, ds, g, builds, i))
    && (forall a: nat :: a < |p.attempts| ==> AttemptReady(p, ds, g, a))
    && (forall i: nat :: i < |ds| && IsPublished(p, ds, i) ==> i in p.attempts)
    && (forall n :: n in p.failed || n in p.statuses || n in p.schemas || n in p.rowCounts ==> NamedIn(ds, n))
  }

  ghost predicate Setting(ds: seq<Dataset>, g: Graph, order: seq<nat>) {
    && UniqueNames(ds) && g == DependencyEdges(ds) && IsBuildOrder(g, order)
    && forall k :: 0 <= k < |order| ==> order[k] < |ds|
  }

  // ------------------------------------------------------------- one pass of it

  ghost predicate SameElsewhere<S(!new)>(p: Progress<S>, q: Progress<S>, name: string) {
    forall n :: n != name ==>
      && Lookup(p.statuses, n) == Lookup(q.statuses, n) && (n in p.schemas <==> n in q.schemas)
      && (n in p.rowCounts <==> n in q.rowCounts) && (n in p.failed <==> n in q.failed)
  }

  /** A successful pass decides this dataset's entry and leaves the others alone. */
  lemma PassEffect<S(!new)>(p: Progress<S>, d: Dataset, i: nat, build: FirstBuild<S>)
    requires BuildOne(p, d, i, build).Success? && Entry(p, d, false)
    ensures var q := BuildOne(p, d, i, build).value;
            && SameElsewhere(p, q, d.name) && Entry(q, d, true)
            && (q.statuses[d.name].Published? <==> !UpstreamFailed(p.failed, d) && build.Loaded?)
            && q.attempts == if UpstreamFailed(p.failed, d) then p.attempts else p.attempts + [i]
  {
  }

  lemma OtherEntry<S(!new)>(p: Progress<S>, q: Progress<S>, ds: seq<Dataset>, i: nat, x: nat, decided: bool)
    requires UniqueNames(ds) && i < |ds| && x < |ds| && x != i && SameElsewhere(p, q, ds[i].name)
    ensures Entry(p, ds[x], decided) ==> Entry(q, ds[x], decided)
    ensures IsPublished(p, ds, x) <==> IsPublished(q, ds, x)
  {
    assert ds[x].name != ds[i].name by { if x < i { assert ds[x].name != ds[i].name; } }
    assert Lookup(p.statuses, ds[x].name) == Lookup(q.statuses, ds[x].name);
  }

  /** When the turn of a query comes, an upstream has failed exactly when a dependency is unpublished. */
  lemma UpstreamFailedMeaning<S(!new)>(p: Progress<S>, ds: seq<Dataset>, g: Graph, builds: seq<FirstBuild<S>>,
          order: seq<nat>, k: nat)
    requires |ds| == |g| == |builds| && Setting(ds, g, order) && k < |order| && Loading(p, ds, g, builds, order, k)
    requires ds[order[k]].kind.Query?
    ensures UpstreamFailed(p.failed, ds[order[k]]) <==> exists j :: j in g[order[k]] && !IsPublished(p, ds, j)
  {
    var i := order[k];
    var d := ds[i];
    if UpstreamFailed(p.failed, d) {
      var dep :| dep in d.dependsOn && dep in p.failed;
      assert NamedIn(ds, dep);
      var j :| 0 <= j < |ds| && ds[j].name == dep;
      ListedIsEdge(ds, i, j);
      assert EntryAt(p, ds, order, k, j);
      assert j in g[i] && !IsPublished(p, ds, j);
    }
    if exists j :: j in g[i] && !IsPublished(p, ds, j) {
      var j :| j in g[i] && !IsPublished(p, ds, j);
      assert Edge(g, order[k], j);
      EdgeMeansListed(ds, i, j);
      assert EntryAt(p, ds, order, k, j);
      assert ds[j].name in p.failed;
    }
  }

  lemma ListedIsEdge(ds: seq<Dataset>, i: nat, j: nat)
    requires UniqueNames(ds) && i < |ds| && j < |ds| && ds[i].kind.Query? && ds[j].name in ds[i].dependsOn
    ensures j in DependencyEdges(ds)[i]
  {
    NameToIdxIsLast(ds);
    EdgeMeansListed(ds, i, j);
  }

  lemma EntriesStep<S(!new)>(p: Progress<S>, q: Progress<S>, ds: seq<Dataset>, order: seq<nat>, k: nat)
    requires UniqueNames(ds) && NoDuplicates(order) && k < |order| && order[k] < |ds|
    requires SameElsewhere(p, q, ds[order[k]].name) && Entry(q, ds[order[k]], true)
    requires forall i: nat {:trigger EntryAt(p, ds, order, k, i)} :: i < |ds| ==> EntryAt(p, ds, order, k, i)
    ensures forall i: nat {:trigger EntryAt(q, ds, order, k + 1, i)} :: i < |ds| ==> EntryAt(q, ds, order, k + 1, i)
  {
    assert order[..k + 1] == order[..k] + [order[k]];
    forall i: nat {:trigger EntryAt(q, ds, order, k + 1, i)} | i < |ds| ensures EntryAt(q, ds, order, k + 1, i) {
      assert EntryAt(p, ds, order, k, i);
      if i != order[k] { OtherEntry(p, q, ds, order[k], i, i in order[..k]); }
    }
  }

  /** Publication of a dependency of an earlier dataset is not affected by the current pass. */
  lemma EarlierUnaffected<S(!new)>(p: Progress<S>, q: Progress<S>, ds: seq<Dataset>, g: Graph, order: seq<nat>, k: nat,
          x: nat)
    requires |g| == |ds| && Setting(ds, g, order) && k < |order|
    requires SameElsewhere(p, q, ds[order[k]].name) && x in order[..k]
    ensures IsPublished(p, ds, x) <==> IsPublished(q, ds, x)
    ensures forall j :: j in g[x] ==> j in order[..k] && (IsPublished(p, ds, j) <==> IsPublished(q, ds, j))
  {
    var m := IndexOf(order[..k], x);
    assert order[m] == x && order[k] !in order[..k];
    OtherEntry(p, q, ds, order[k], x, true);
    forall j | j in g[x] ensures j in order[..k] && (IsPublished(p, ds, j) <==> IsPublished(q, ds, j)) {
      assert Edge(g, order[m], j);
      assert j in order[..m];
      OtherEntry(p, q, ds, order[k], j, true);
    }
  }

  lemma ThisExact<S(!new)>(p: Progress<S>, ds: seq<Dataset>, g: Graph, builds: seq<FirstBuild<S>>, order: seq<nat>,
          k: nat, q: Progress<S>)
    requires |ds| == |g| == |builds| && Setting(ds, g, order) && k < |order| && Loading(p, ds, g, builds, order, k)
    requires IsPass(p, ds[order[k]], order[k], builds[order[k]], q)
    ensures SameElsewhere(p, q, ds[order[k]].name) && Exact(q, ds, g, builds, order[k])
  {
    var i := order[k];
    assert i !in order[..k];
    assert EntryAt(p, ds, order, k, i);
    PassEffect(p, ds[i], i, builds[i]);
    ThisUnaffected(p, q, ds, g, order, k);
    if ds[i].kind.Query? {
      UpstreamFailedMeaning(p, ds, g, builds, order, k);
    } else {
      SourceHasNoEdges(ds, i);
    }
  }

  lemma SourceHasNoEdges(ds: seq<Dataset>, i: nat)
    requires UniqueNames(ds) && i < |ds| && !ds[i].kind.Query?
    ensures forall j :: j !in DependencyEdges(ds)[i]
  {
    forall j ensures j !in DependencyEdges(ds)[i] {
      if j in DependencyEdges(ds)[i] { EdgeFromQuery(ds, i, j); }
    }
  }

  lemma EdgeFromQuery(ds: seq<Dataset>, i: nat, j: nat)
    requires UniqueNames(ds) && i < |ds| && j in DependencyEdges(ds)[i]
    ensures ds[i].kind.Query?
  {
    assert Edge(DependencyEdges(ds), i, j);
    EdgeMeansListed(ds, i, j);
  }

  lemma EarlierExact<S(!new)>(p: Progress<S>, ds: seq<Dataset>, g: Graph, builds: seq<FirstBuild<S>>, order: seq<nat>,
          k: nat, q: Progress<S>, x: nat)
    requires |ds| == |g| == |builds| && Setting(ds, g, order) && k < |order| && x in order[..k] && x < |ds|
    requires SameElsewhere(p, q, ds[order[k]].name) && Exact(p, ds, g, builds, x)
    ensures Exact(q, ds, g, builds, x)
  {
    EarlierUnaffected(p, q, ds, g, order, k, x);
  }

  lemma ExactStep<S(!new)>(p: Progress<S>, ds: seq<Dataset>, g: Graph, builds: seq<FirstBuild<S>>, order: seq<nat>,
          k: nat, q: Progress<S>)
    requires |ds| == |g| == |builds| && Setting(ds, g, order) && k < |order| && Loading(p, ds, g, builds, order, k)
    requires IsPass(p, ds[order[k]], order[k], builds[order[k]], q)
    ensures forall i: nat {:trigger Exact(q, ds, g, builds, i)} ::
      i < |ds| && i in order[..k + 1] ==> Exact(q, ds, g, builds, i)
  {
    ThisExact(p, ds, g, builds, order, k, q);
    assert order[..k + 1] == order[..k] + [order[k]];
    forall x: nat | x < |ds| && x in order[..k + 1] ensures Exact(q, ds, g, builds, x) {
      if x != order[k] {
        assert Exact(p, ds, g, builds, x);
        EarlierExact(p, ds, g, builds, order, k, q, x);
      }
    }
  }

  lemma ThisUnaffected<S(!new)>(p: Progress<S>, q: Progress<S>, ds: seq<Dataset>, g: Graph, order: seq<nat>, k: nat)
    requires |g| == |ds| && Setting(ds, g, order) && k < |order| && SameElsewhere(p, q, ds[order[k]].name)
    ensures forall j :: j in g[order[k]] ==> j in order[..k] && (IsPublished(p, ds, j) <==> IsPublished(q, ds, j))
  {
    forall j | j in g[order[k]] ensures j in order[..k] && (IsPublished(p, ds, j) <==> IsPublished(q, ds, j)) {
      assert Edge(g, order[k], j);
      assert order[k] !in order[..k];
      OtherEntry(p, q, ds, order[k], j, true);
    }
  }

  lemma AttemptsStep<S(!new)>(p: Progress<S>, ds: seq<Dataset>, g: Graph, builds: seq<FirstBuild<S>>, order: seq<nat>,
          k: nat, q: Progress<S>)
    requires |ds| == |g| == |builds| && Setting(ds, g, order) && k < |order| && Loading(p, ds, g, builds, order, k)
    requires IsPass(p, ds[order[k]], order[k], builds[order[k]], q)
    ensures forall a: nat :: a < |q.attempts| ==> AttemptReady(q, ds, g, a)
    ensures forall i: nat :: i < |ds| && IsPublished(q, ds, i) ==> i in q.attempts
  {
    var i := order[k];
    assert i !in order[..k] && EntryAt(p, ds, order, k, i);
    PassEffect(p, ds[i], i, builds[i]);
    forall a: nat | a < |q.attempts| ensures AttemptReady(q, ds, g, a) {
      if a < |p.attempts| {
        assert AttemptReady(p, ds, g, a) && q.attempts[..a] == p.attempts[..a];
        StaysPublished(p, q, ds, i);
      } else {
        assert q.attempts[..a] == p.attempts;
        ThisUnaffected(p, q, ds, g, order, k);
        if ds[i].kind.Query? { UpstreamFailedMeaning(p, ds, g, builds, order, k); }
      }
    }
    forall x: nat | x < |ds| && IsPublished(q, ds, x) ensures x in q.attempts {
      if x != i { OtherEntry(p, q, ds, i, x, true); }
    }
  }

  lemma StaysPublished<S(!new)>(p: Progress<S>, q: Progress<S>, ds: seq<Dataset>, i: nat)
    requires UniqueNames(ds) && i < |ds| && SameElsewhere(p, q, ds[i].name) && !IsPublished(p, ds, i)
    ensures forall j :: IsPublished(p, ds, j) ==> IsPublished(q, ds, j)
  {
    forall j | IsPublished(p, ds, j) ensures IsPublished(q, ds, j) { OtherEntry(p, q, ds, i, j, true); }
  }

  lemma PassKeepsLoading<S(!new)>(p: Progress<S>, ds: seq<Dataset>, g: Graph, builds: seq<FirstBuild<S>>,
          order: seq<nat>, k: nat, q: Progress<S>)
    requires |ds| == |g| == |builds| && Setting(ds, g, order) && k < |order| && Loading(p, ds, g, builds, order, k)
    requires IsPass(p, ds[order[k]], order[k], builds[order[k]], q)
    ensures Loading(q, ds, g, builds, order, k + 1)
  {
    var i := order[k];
    assert i !in order[..k] && EntryAt(p, ds, order, k, i);
    PassEffect(p, ds[i], i, builds[i]);
    EntriesStep(p, q, ds, order, k);
    ExactStep(p, ds, g, builds, order, k, q);
    AttemptsStep(p, ds, g, builds, order, k, q);
    assert NamedIn(ds, ds[i].name);
    forall n | n in q.failed || n in q.statuses || n in q.schemas || n in q.rowCounts ensures NamedIn(ds, n) {
      if n != ds[i].name { assert Lookup(p.statuses, n) == Lookup(q.statuses, n); }
    }
  }

  lemma PassCarriesLoading<S(!new)>(p: Progress<S>, ds: seq<Dataset>, g: Graph, builds: seq<FirstBuild<S>>,
          order: seq<nat>, k: nat, q: Progress<S>)
    requires |ds| == |g| == |builds| && Setting(ds, g, order) && k < |order|
    requires IsPass(p, ds[order[k]], order[k], builds[order[k]], q)
    ensures Loading(p, ds, g, builds, order, k) ==> Loading(q, ds, g, builds, order, k + 1)
  {
    if Loading(p, ds, g, builds, order, k) { PassKeepsLoading(p, ds, g, builds, order, k, q); }
  }

  // ------------------------------------------------------------------ the loader

  /** A build that stops startup: a file source that fails, or a row count that fails. */
  predicate Fatal<S>(d: Dataset, build: FirstBuild<S>) {
    build.CountError? || (build.LoadError? && !d.kind.Query?)
  }

  predicate Serves<S>(m: Maps<S>, ds: seq<Dataset>, i: int) {
    0 <= i < |ds| && ds[i].name in m.statuses && m.statuses[ds[i].name].Published?
  }

  /** What a successful start guarantees. Every dataset is published or failed, none pending; a query
      is published exactly when it loaded and all its dependencies are published, a source without
      upstreams exactly when it loaded; every
      attempted query build came after its dependencies had been attempted and published. */
  ghost predicate Started<S(!new)>(ds: seq<Dataset>, g: Graph, builds: seq<FirstBuild<S>>, m: Maps<S>,
          attempts: seq<nat>)
    requires |ds| == |g| == |builds|
  {
    && LockStep(m) && NoneBuilding(m)
    && (forall i: nat :: i < |ds| ==> ds[i].name in m.statuses && Lookup(m.configs, ds[i].name) == Some(ds[i]))
    && (forall i: nat {:trigger ServesExactly(ds, g, builds, m, i)} ::
          i < |ds| && Ordinary(ds[i]) ==> ServesExactly(ds, g, builds, m, i))
    && (forall a: nat :: a < |attempts| ==> AttemptedAfter(ds, g, m, attempts, a))
  }

  ghost predicate ServesExactly<S>(ds: seq<Dataset>, g: Graph, builds: seq<FirstBuild<S>>, m: Maps<S>, i: nat)
    requires i < |ds| == |g| == |builds|
  {
    Serves(m, ds, i) <==> builds[i].Loaded? && forall j :: j in g[i] ==> Serves(m, ds, j)
  }

  ghost predicate AttemptedAfter<S>(ds: seq<Dataset>, g: Graph, m: Maps<S>, attempts: seq<nat>, a: nat)
    requires |ds| == |g| && a < |attempts|
  {
    && attempts[a] < |ds|
    && (ds[attempts[a]].kind.Query? ==> forall j :: j in g[attempts[a]] ==> j in attempts[..a] && Serves(m, ds, j))
  }

  lemma FinishedLoading<S(!new)>(p: Progress<S>, ds: seq<Dataset>, g: Graph, builds: seq<FirstBuild<S>>,
          order: seq<nat>, configs: map<string, Dataset>)
    requires |ds| == |g| == |builds| && Setting(ds, g, order) && Loading(p, ds, g, builds, order, |order|)
    requires forall i: nat :: i < |ds| ==> ds[i].name in configs && configs[ds[i].name] == ds[i]
    requires forall n :: n in configs ==> NamedIn(ds, n)
    ensures Started(ds, g, builds, Maps(configs, p.schemas, p.rowCounts, p.statuses), p.attempts)
  {
    var m := Maps(configs, p.schemas, p.rowCounts, p.statuses);
    assert order[..|order|] == order;
    forall n ensures Fits(m, n) && (n in m.statuses ==> !m.statuses[n].Building?) {
      if NamedIn(ds, n) {
        var i: nat :| 0 <= i < |ds| && ds[i].name == n;
        assert EntryAt(p, ds, order, |order|, i);
      }
    }
    assert forall i :: Serves(m, ds, i) == IsPublished(p, ds, i);
    forall i: nat | i < |ds|
      ensures ds[i].name in m.statuses && (Ordinary(ds[i]) ==> ServesExactly(ds, g, builds, m, i))
    {
      assert EntryAt(p, ds, order, |order|, i);
      assert Exact(p, ds, g, builds, i);
    }
    forall a: nat | a < |p.attempts| ensures AttemptedAfter(ds, g, m, p.attempts, a) {
      assert AttemptReady(p, ds, g, a);
    }
  }

  function PendingStatuses(ds: seq<Dataset>): map<string, Status> {
    map i | 0 <= i < |ds| :: ds[i].name := Pending
  }

  function ConfigsByName(ds: seq<Dataset>): map<string, Dataset>
    requires UniqueNames(ds)
  {
    map i | 0 <= i < |ds| :: ds[i].name := ds[i]
  }

  lemma NothingLoaded<S(!new)>(p: Progress<S>, ds: seq<Dataset>, g: Graph, builds: seq<FirstBuild<S>>, order: seq<nat>)
    requires |ds| == |g| == |builds|
    requires p == Progress(PendingStatuses(ds), map[], map[], {}, [])
    ensures Loading(p, ds, g, builds, order, 0)
  {
    forall n | n in p.statuses ensures NamedIn(ds, n) {
      var i :| 0 <= i < |ds| && ds[i].name == n;
    }
  }

  lemma ConfigsAreNamed(ds: seq<Dataset>)
    requires UniqueNames(ds)
    ensures forall n :: n in ConfigsByName(ds) ==> NamedIn(ds, n)
    ensures forall i: nat :: i < |ds| ==> ds[i].name in ConfigsByName(ds) && ConfigsByName(ds)[ds[i].name] == ds[i]
  {
    forall n | n in ConfigsByName(ds) ensures NamedIn(ds, n) {
      var i :| 0 <= i < |ds| && ds[i].name == n;
    }
  }

  /** Build every dataset in dependency order. A cycle, a failing file source or a failing row
      count stops startup; anything else is recorded and passed on to dependents. */
  method LoadRegistry<S(!new)>(ds: seq<Dataset>, builds: seq<FirstBuild<S>>)
    returns (r: Result<Maps<S>, StartupError>, attempts: seq<nat>)
    requires |builds| == |ds| && UniqueNames(ds)
    ensures (r.Failure? && r.error.Cycle?) <==> !Acyclic(DependencyEdges(ds))
    ensures r.Failure? && r.error.Cycle? ==> IsCycleReport(ds, r.error.report)
    ensures r.Success? ==> Started(ds, DependencyEdges(ds), builds, r.value, attempts)
    ensures r.Success? ==> FromBuilds(ds, builds, r.value.schemas, r.value.rowCounts)
    ensures r.Success? ==> Harmless(ds, builds, attempts)
    ensures r.Failure? && !r.error.Cycle? ==> StoppedBy(ds, builds, attempts, r.error)
  {
    attempts := [];
    var sorted := TopologicalOrder(ds);
    if sorted.Failure? { return Failure(Cycle(sorted.error)), attempts; }
    OrderInRange(ds, sorted.value);
    var error, p, trace := BuildAll(ds, builds, sorted.value);
    attempts := p.attempts;
    if error.Some? { return Failure(error.value), attempts; }
    var configs := ConfigsByName(ds);
    HandledIsHarmless(ds, builds, sorted.value, trace, |sorted.value|);
    HandledIsFromBuilds(ds, builds, sorted.value, trace, |sorted.value|);
    HandledIsLoading(ds, DependencyEdges(ds), builds, sorted.value, trace, |sorted.value|);
    ConfigsAreNamed(ds);
    FinishedLoading(p, ds, DependencyEdges(ds), builds, sorted.value, configs);
    return Success(Maps(configs, p.schemas, p.rowCounts, p.statuses)), attempts;
  }

  /** The build loop over the dependency order; `trace` records the progress between passes. */
  method BuildAll<S(!new)>(ds: seq<Dataset>, builds: seq<FirstBuild<S>>, order: seq<nat>)
    returns (error: Option<StartupError>, p: Progress<S>, ghost trace: seq<Progress<S>>)
    requires |ds| == |builds| && InRange(ds, order)
    ensures error.None? ==> Handled(ds, builds, order, trace) && |trace| == |order| + 1 && trace[|order|] == p
    ensures error.Some? ==> !error.value.Cycle? && StoppedBy(ds, builds, p.attempts, error.value)
  {
    p := Progress(PendingStatuses(ds), map[], map[], {}, []);
    error, trace := None, [p];
    for k := 0 to |order|
      invariant Handled(ds, builds, order, trace) && |trace| == k + 1 && trace[k] == p
    {
      var i := order[k];
      var next := BuildOne(p, ds[i], i, builds[i]);
      if next.Failure? {
        p := p.(attempts := p.attempts + [i]);
        assert i in p.attempts;
        error := Some(next.error);
        return;
      }
      p := next.value;
      HandledGrows(ds, builds, order, trace, p);
      trace := trace + [p];
    }
  }

  ghost predicate InRange(ds: seq<Dataset>, order: seq<nat>) {
    forall k :: 0 <= k < |order| ==> order[k] < |ds|
  }

  /** Pass `j` leads from one recorded progress to the next. */
  ghost predicate PassAt<S>(ds: seq<Dataset>, builds: seq<FirstBuild<S>>, order: seq<nat>, trace: seq<Progress<S>>,
          j: nat)
    requires |ds| == |builds| && InRange(ds, order)
  {
    && j < |order| && j + 1 < |trace|
    && BuildOne(trace[j], ds[order[j]], order[j], builds[order[j]]) == Success(trace[j + 1])
  }

  /** The progress before the first pass and after each pass so far, none of which stopped startup. */
  ghost predicate Handled<S(!new)>(ds: seq<Dataset>, builds: seq<FirstBuild<S>>, order: seq<nat>,
          trace: seq<Progress<S>>)
    requires |ds| == |builds| && InRange(ds, order)
  {
    && 0 < |trace| <= |order| + 1 && trace[0] == Progress(PendingStatuses(ds), map[], map[], {}, [])
    && forall j: nat {:trigger PassAt(ds, builds, order, trace, j)} ::
         j < |trace| - 1 ==> PassAt(ds, builds, order, trace, j)
  }

  lemma HandledGrows<S(!new)>(ds: seq<Dataset>, builds: seq<FirstBuild<S>>, order: seq<nat>, trace: seq<Progress<S>>,
          q: Progress<S>)
    requires |ds| == |builds| && InRange(ds, order) && Handled(ds, builds, order, trace) && |trace| <= |order|
    requires var k := |trace| - 1; BuildOne(trace[k], ds[order[k]], order[k], builds[order[k]]) == Success(q)
    ensures Handled(ds, builds, order, trace + [q])
  {
    forall j: nat | j < |trace| ensures PassAt(ds, builds, order, trace + [q], j) {
      if j < |trace| - 1 { assert PassAt(ds, builds, order, trace, j); }
    }
  }

  /** Every schema and row count held for a dataset is the one its own build produced. */
  ghost predicate FromBuilds<S>(ds: seq<Dataset>, builds: seq<FirstBuild<S>>, schemas: map<string, S>,
          rowCounts: map<string, int>)
    requires |ds| == |builds|
  {
    forall i :: 0 <= i < |ds| && (ds[i].name in schemas || ds[i].name in rowCounts) ==>
      && builds[i].Loaded?
      && Lookup(schemas, ds[i].name) == Some(builds[i].schema) && Lookup(rowCounts, ds[i].name) == Some(builds[i].rows)
  }

  lemma PassIsFromBuilds<S(!new)>(ds: seq<Dataset>, builds: seq<FirstBuild<S>>, p: Progress<S>, at: nat, q: Progress<S>)
    requires |ds| == |builds| && UniqueNames(ds) && at < |ds| && BuildOne(p, ds[at], at, builds[at]) == Success(q)
    requires FromBuilds(ds, builds, p.schemas, p.rowCounts)
    ensures FromBuilds(ds, builds, q.schemas, q.rowCounts)
  {
    forall i | 0 <= i < |ds| && (ds[i].name in q.schemas || ds[i].name in q.rowCounts)
      ensures && builds[i].Loaded? && Lookup(q.schemas, ds[i].name) == Some(builds[i].schema)
              && Lookup(q.rowCounts, ds[i].name) == Some(builds[i].rows)
    {
      if i < at { assert ds[i].name != ds[at].name; }
      if at < i { assert ds[at].name != ds[i].name; }
    }
  }

  lemma {:induction false} HandledIsFromBuilds<S(!new)>(ds: seq<Dataset>, builds: seq<FirstBuild<S>>, order: seq<nat>,
          trace: seq<Progress<S>>, k: nat)
    requires |ds| == |builds| && UniqueNames(ds) && InRange(ds, order)
    requires Handled(ds, builds, order, trace) && k < |trace|
    ensures FromBuilds(ds, builds, trace[k].schemas, trace[k].rowCounts)
  {
    if k > 0 {
      HandledIsFromBuilds(ds, builds, order, trace, k - 1);
      assert PassAt(ds, builds, order, trace, k - 1);
      PassIsFromBuilds(ds, builds, trace[k - 1], order[k - 1], trace[k]);
    }
  }

  ghost predicate Harmless<S>(ds: seq<Dataset>, builds: seq<FirstBuild<S>>, attempts: seq<nat>)
    requires |ds| == |builds|
  {
    forall i :: i in attempts ==> 0 <= i < |ds| && !Fatal(ds[i], builds[i])
  }

  lemma {:induction false} HandledIsHarmless<S(!new)>(ds: seq<Dataset>, builds: seq<FirstBuild<S>>, order: seq<nat>,
          trace: seq<Progress<S>>, k: nat)
    requires |ds| == |builds| && InRange(ds, order) && Handled(ds, builds, order, trace) && k < |trace|
    ensures Harmless(ds, builds, trace[k].attempts)
  {
    if k > 0 {
      HandledIsHarmless(ds, builds, order, trace, k - 1);
      assert PassAt(ds, builds, order, trace, k - 1);
    }
  }

  lemma {:induction false} HandledIsLoading<S(!new)>(ds: seq<Dataset>, g: Graph, builds: seq<FirstBuild<S>>,
          order: seq<nat>, trace: seq<Progress<S>>, k: nat)
    requires |ds| == |g| == |builds| && Setting(ds, g, order) && Handled(ds, builds, order, trace) && k < |trace|
    ensures Loading(trace[k], ds, g, builds, order, k)
  {
    if k == 0 {
      NothingLoaded(trace[k], ds, g, builds, order);
    } else {
      HandledIsLoading(ds, g, builds, order, trace, k - 1);
      LoadingStep(ds, g, builds, order, trace, k);
    }
  }

  lemma LoadingStep<S(!new)>(ds: seq<Dataset>, g: Graph, builds: seq<FirstBuild<S>>, order: seq<nat>,
          trace: seq<Progress<S>>, k: nat)
    requires |ds| == |g| == |builds| && Setting(ds, g, order) && Handled(ds, builds, order, trace) && 0 < k < |trace|
    ensures Loading(trace[k - 1], ds, g, builds, order, k - 1) ==> Loading(trace[k], ds, g, builds, order, k)
  {
    PassOf(ds, builds, order, trace, k - 1);
    PassCarriesLoading(trace[k - 1], ds, g, builds, order, k - 1, trace[k]);
  }

  lemma PassOf<S(!new)>(ds: seq<Dataset>, builds: seq<FirstBuild<S>>, order: seq<nat>, trace: seq<Progress<S>>, j: nat)
    requires |ds| == |builds| && InRange(ds, order) && Handled(ds, builds, order, trace) && j < |trace| - 1
    ensures IsPass(trace[j], ds[order[j]], order[j], builds[order[j]], trace[j + 1])
  {
    assert PassAt(ds, builds, order, trace, j);
  }

  ghost predicate StoppedBy<S>(ds: seq<Dataset>, builds: seq<FirstBuild<S>>, attempts: seq<nat>, error: StartupError)
    requires |ds| == |builds|
  {
    exists i :: i in attempts && 0 <= i < |ds| && Fatal(ds[i], builds[i])
                && error == if builds[i].CountError? then CountFailed(i) else SourceFailed(i)
  }

  // ------------------------------------------------- failure travels along walks

  /** Node `j` does its own part: a query loads, a file source is published. */
  predicate Sound<S>(ds: seq<Dataset>, builds: seq<FirstBuild<S>>, m: Maps<S>, j: int)
    requires |ds| == |builds|
  {
    0 <= j < |ds| && if ds[j].kind.Query? then builds[j].Loaded? else Serves(m, ds, j)
  }

  lemma {:induction false} PublishedAlongWalk<S(!new)>(ds: seq<Dataset>, g: Graph, builds: seq<FirstBuild<S>>,
          m: Maps<S>, attempts: seq<nat>, p: seq<nat>)
    requires |ds| == |g| == |builds| && g == DependencyEdges(ds) && Started(ds, g, builds, m, attempts)
    requires p != [] && IsWalk(g, p) && Serves(m, ds, p[0])
    ensures Sound(ds, builds, m, p[|p| - 1])
  {
    if |p| == 1 {
      if ds[p[0]].kind.Query? { assert ServesExactly(ds, g, builds, m, p[0]); }
    } else {
      assert Edge(g, p[0], p[1]);
      EdgeMeansListed(ds, p[0], p[1]);
      assert ServesExactly(ds, g, builds, m, p[0]);
      var q := p[1..];
      forall k | 0 <= k < |q| - 1 ensures Edge(g, q[k], q[k + 1]) { assert Edge(g, p[k + 1], p[k + 2]); }
      PublishedAlongWalk(ds, g, builds, m, attempts, q);
    }
  }

  lemma {:induction false} FailureHasCause<S(!new)>(ds: seq<Dataset>, g: Graph, builds: seq<FirstBuild<S>>, m: Maps<S>,
          attempts: seq<nat>, order: seq<nat>, i: nat) returns (p: seq<nat>)
    requires |ds| == |g| == |builds| && Setting(ds, g, order) && Started(ds, g, builds, m, attempts)
    requires i in order && ds[i].kind.Query? && !Serves(m, ds, i)
    ensures p != [] && p[0] == i && IsWalk(g, p) && !Sound(ds, builds, m, p[|p| - 1])
    decreases IndexOf(order, i)
  {
    assert ServesExactly(ds, g, builds, m, i);
    if !builds[i].Loaded? {
      p := [i];
    } else {
      var j :| j in g[i] && !Serves(m, ds, j);
      SuccessorIsEarlier(ds, g, order, i, j);
      if ds[j].kind.Query? {
        p := FailureHasCause(ds, g, builds, m, attempts, order, j);
      } else {
        p := [j];
      }
      WalkFrom(g, i, p);
      p := [i] + p;
    }
  }

  /** A dependency comes earlier in the order. */
  lemma SuccessorIsEarlier(ds: seq<Dataset>, g: Graph, order: seq<nat>, i: nat, j: int)
    requires |ds| == |g| && Setting(ds, g, order) && i in order && j in g[i]
    ensures 0 <= j < |ds| && j in order && IndexOf(order, j) < IndexOf(order, i)
  {
    var at := IndexOf(order, i);
    assert Edge(g, order[at], j);
    EdgeMeansListed(ds, i, j);
    var b :| 0 <= b < at && order[b] == j;
  }

  lemma WalkFrom(g: Graph, i: nat, p: seq<nat>)
    requires p != [] && IsWalk(g, p) && Edge(g, i, p[0])
    ensures IsWalk(g, [i] + p)
  {
    var q := [i] + p;
    forall k | 0 <= k < |q| - 1 ensures Edge(g, q[k], q[k + 1]) { assert k > 0 ==> Edge(g, p[k - 1], p[k]); }
  }

  /** Failure propagation in closed form: after a successful start a query is published exactly
      when every dataset it reaches through dependencies did its own part. */
  lemma PublishedIffAllUpstreamSound<S(!new)>(ds: seq<Dataset>, g: Graph, builds: seq<FirstBuild<S>>, m: Maps<S>,
          attempts: seq<nat>, order: seq<nat>, i: nat)
    requires |ds| == |g| == |builds| && Setting(ds, g, order) && Started(ds, g, builds, m, attempts)
    requires i < |ds| && ds[i].kind.Query?
    ensures Serves(m, ds, i)
      <==> forall p :: p != [] && p[0] == i && IsWalk(g, p) ==> Sound(ds, builds, m, p[|p| - 1])
  {
    assert i in order;
    if Serves(m, ds, i) {
      forall p | p != [] && p[0] == i && IsWalk(g, p) ensures Sound(ds, builds, m, p[|p| - 1]) {
        PublishedAlongWalk(ds, g, builds, m, attempts, p);
      }
    } else {
      var p := FailureHasCause(ds, g, builds, m, attempts, order, i);
    }
  }

  /** From startup on: over every later sequence of completed operations a dataset is published
      exactly when it has a schema, unless its last effective operation was a cut-off reload. */
  lemma PublishedExactlyFromStartup<S(!new)>(ds: seq<Dataset>, g: Graph, builds: seq<FirstBuild<S>>, m: Maps<S>,
          attempts: seq<nat>, ops: seq<Op<S>>, n: string)
    requires |ds| == |g| == |builds| && Started(ds, g, builds, m, attempts)
    requires n in RunOps(m, ops).statuses && !LastCutOff(m, ops, n)
    ensures RunOps(m, ops).statuses[n].Published? <==> n in RunOps(m, ops).schemas
  {
    PublishedExactly(m, ops, n);
  }
}
