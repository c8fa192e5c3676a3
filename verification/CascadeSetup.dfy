/** The cascade graph built from the dataset configuration, and what an accepted
    configuration guarantees about every run on it. */
module CascadeSetup {
  import opened Config
  import opened Digraph
  import opened Listings
  import opened DependencyGraph
  import opened Cascade
  import opened CascadeDebounce
  import opened CascadeTermination

  function Push(dag: Dag, upstream: Name, dep: Dependent): Dag {
    dag[upstream := DependentsOf(dag, upstream) + [dep]]
  }

  function PushAll(dag: Dag, upstreams: seq<string>, dep: Dependent): Dag {
    if upstreams == [] then dag
    else Push(PushAll(dag, upstreams[..|upstreams| - 1], dep), upstreams[|upstreams| - 1], dep)
  }

  predicate Follows(d: Dataset) {
    d.refresh.Some? && d.refresh.value.onUpstreamReload
  }

  function AsDependent(d: Dataset): Dependent
    requires Follows(d)
  {
    Dependent(d.name, d.refresh.value.debounce, d.refresh.value.timeout)
  }

  ghost function CascadeDag(ds: seq<Dataset>): Dag {
    if ds == [] then map[]
    else
      var front, d := CascadeDag(ds[..|ds| - 1]), ds[|ds| - 1];
      if Follows(d) then PushAll(front, d.dependsOn, AsDependent(d)) else front
  }

  /** The setup loop: one entry per following dataset and listed upstream. */
  method BuildCascadeDag(ds: seq<Dataset>) returns (dag: Dag)
    ensures dag == CascadeDag(ds)
  {
    dag := map[];
    for i := 0 to |ds|
      invariant dag == CascadeDag(ds[..i])
    {
      assert ds[..i + 1][..i] == ds[..i];
      var d := ds[i];
      if Follows(d) {
        ghost var before := dag;
        for k := 0 to |d.dependsOn|
          invariant dag == PushAll(before, d.dependsOn[..k], AsDependent(d))
        {
          assert d.dependsOn[..k + 1][..k] == d.dependsOn[..k];
          dag := Push(dag, d.dependsOn[k], AsDependent(d));
        }
        assert d.dependsOn[..|d.dependsOn|] == d.dependsOn;
      }
    }
    assert ds[..|ds|] == ds;
  }

  // ------------------------------------------------------------ what it contains

  lemma {:induction false} PushAllMeaning(dag: Dag, upstreams: seq<string>, dep: Dependent, u: Name, x: Dependent)
    ensures x in DependentsOf(PushAll(dag, upstreams, dep), u)
      <==> x in DependentsOf(dag, u) || (x == dep && u in upstreams)
  {
    if upstreams != [] {
      var n := |upstreams| - 1;
      PushAllMeaning(dag, upstreams[..n], dep, u, x);
      assert upstreams == upstreams[..n] + [upstreams[n]];
    }
  }

  /** The dataset asks to be refreshed after its upstreams, lists `u`, and has the name, window and
      timeout of `x`. */
  ghost predicate Contributes(d: Dataset, u: Name, x: Dependent) {
    && d.refresh.Some? && d.refresh.value.onUpstreamReload && u in d.dependsOn
    && x.name == d.name && x.debounce == d.refresh.value.debounce && x.timeout == d.refresh.value.timeout
  }

  /** Some configured dataset does. */
  ghost predicate HasFollower(ds: seq<Dataset>, u: Name, x: Dependent) {
    exists i :: 0 <= i < |ds| && Contributes(ds[i], u, x)
  }

  /** `x` is triggered by `u` exactly when some dataset that asks for it, described by `x`, lists `u`. */
  lemma {:induction false} CascadeDagMeaning(ds: seq<Dataset>, u: Name, x: Dependent)
    ensures x in DependentsOf(CascadeDag(ds), u) <==> HasFollower(ds, u, x)
  {
    if ds != [] {
      var n := |ds| - 1;
      CascadeDagMeaning(ds[..n], u, x);
      if Follows(ds[n]) { PushAllMeaning(CascadeDag(ds[..n]), ds[n].dependsOn, AsDependent(ds[n]), u, x); }
      if HasFollower(ds[..n], u, x) {
        var i :| 0 <= i < n && Contributes(ds[..n][i], u, x);
        assert Contributes(ds[i], u, x);
      }
      if HasFollower(ds, u, x) && !Contributes(ds[n], u, x) {
        var i :| 0 <= i < |ds| && Contributes(ds[i], u, x);
        assert Contributes(ds[..n][i], u, x);
      }
    }
  }

  lemma EntryHasFollower(ds: seq<Dataset>, u: Name, k: nat) returns (i: nat)
    requires u in CascadeDag(ds) && k < |CascadeDag(ds)[u]|
    ensures i < |ds| && Contributes(ds[i], u, CascadeDag(ds)[u][k])
  {
    var x := CascadeDag(ds)[u][k];
    assert x in DependentsOf(CascadeDag(ds), u);
    CascadeDagMeaning(ds, u, x);
    i :| 0 <= i < |ds| && Contributes(ds[i], u, x);
  }

  // ------------------------------------------------------ accepted configurations

  ghost predicate Accepted(ds: seq<Dataset>, order: seq<nat>) {
    UniqueNames(ds) && RefreshOnlyOnQueries(ds) && IsBuildOrder(DependencyEdges(ds), order)
  }

  /** The dataset names in build order. */
  ghost function NamesInOrder(ds: seq<Dataset>, order: seq<nat>): (names: seq<Name>)
    requires forall k :: 0 <= k < |order| ==> order[k] < |ds|
    ensures |names| == |order| && forall k :: 0 <= k < |order| ==> names[k] == ds[order[k]].name
  {
    seq(|order|, k requires 0 <= k < |order| => ds[order[k]].name)
  }

  lemma {:induction false} RankOf(names: seq<Name>, k: nat)
    requires k < |names| && forall m :: k < m < |names| ==> names[m] != names[k]
    ensures Rank(names, names[k]) == k + 1
  {
    var n := |names| - 1;
    if k < n { RankOf(names[..n], k); }
  }

  /** With unique names, a listed dataset name is an edge, so the dataset is built earlier. */
  lemma ListedIsBuiltFirst(ds: seq<Dataset>, order: seq<nat>, i: nat, j: nat)
    requires UniqueNames(ds) && IsBuildOrder(DependencyEdges(ds), order)
    requires i < |ds| && j < |ds| && ds[i].kind.Query? && ds[j].name in ds[i].dependsOn
    ensures i in order && j in order[..IndexOf(order, i)]
  {
    NameToIdxIsLast(ds);
    EdgeMeansListed(ds, i, j);
    assert Edge(DependencyEdges(ds), order[IndexOf(order, i)], j);
  }

  /** The upstream of a cascade edge is built earlier than its dependent, or is no dataset at all. */
  lemma UpstreamRanksLower(ds: seq<Dataset>, order: seq<nat>, names: seq<Name>, u: Name, i: nat)
    requires Accepted(ds, order) && (forall k :: 0 <= k < |order| ==> order[k] < |ds|)
    requires names == NamesInOrder(ds, order)
    requires i < |ds| && Follows(ds[i]) && u in ds[i].dependsOn
    ensures Rank(names, u) < Rank(names, ds[i].name)
  {
    assert i in order;
    var at := IndexOf(order, i);
    NamesDistinct(ds, order, names);
    RankOf(names, at);
    RankIn(names, u);
    if Rank(names, u) > 0 {
      var j := order[Rank(names, u) - 1];
      ListedIsBuiltFirst(ds, order, i, j);
      var b :| 0 <= b < at && order[b] == j;
      RankOf(names, b);
    }
  }

  lemma NamesDistinct(ds: seq<Dataset>, order: seq<nat>, names: seq<Name>)
    requires UniqueNames(ds) && NoDuplicates(order) && (forall k :: 0 <= k < |order| ==> order[k] < |ds|)
    requires names == NamesInOrder(ds, order)
    ensures forall a, b :: 0 <= a < b < |names| ==> names[a] != names[b]
  {
    forall a, b | 0 <= a < b < |names| ensures names[a] != names[b] {
      assert order[a] != order[b];
      if order[a] < order[b] { assert ds[order[a]].name != ds[order[b]].name; }
    }
  }

  /** The cascade graph of an accepted configuration follows the build order. */
  lemma AcceptedRespects(ds: seq<Dataset>, order: seq<nat>)
    requires Accepted(ds, order)
    ensures forall k :: 0 <= k < |order| ==> order[k] < |ds|
    ensures Respects(CascadeDag(ds), NamesInOrder(ds, order))
  {
    OrderInRange(ds, order);
    var dag: Dag, names := CascadeDag(ds), NamesInOrder(ds, order);
    forall u, k | u in dag && 0 <= k < |dag[u]| ensures Rank(names, u) < Rank(names, dag[u][k].name) {
      var i := EntryHasFollower(ds, u, k);
      UpstreamRanksLower(ds, order, names, u, i);
    }
  }

  /** On any configuration the topological check accepts, every cascade wave is finite: from any
      state there is a bound on the receive, fire and serve steps of every run in which no outside
      publish arrives. */
  lemma AcceptedWavesTerminate(ds: seq<Dataset>, order: seq<nat>, s: State) returns (bound: nat)
    requires Accepted(ds, order)
    ensures forall steps | CanRun(CascadeDag(ds), s, steps) && Quiet(steps) ::
      WorkSteps(steps) <= bound
  {
    AcceptedRespects(ds, order);
    var dag, names := CascadeDag(ds), NamesInOrder(ds, order);
    bound := Owed(dag, names, s);
    forall steps | CanRun(dag, s, steps) && Quiet(steps)
      ensures WorkSteps(steps) <= bound
    {
      WavesTerminate(dag, names, s, steps);
    }
  }

  /** With unique names every mention of a following dataset carries its own debounce window. */
  lemma AcceptedWindow(ds: seq<Dataset>, i: nat)
    requires UniqueNames(ds) && i < |ds| && Follows(ds[i])
    ensures HasWindow(CascadeDag(ds), ds[i].name, ds[i].refresh.value.debounce)
  {
    var dag, d, w := CascadeDag(ds), ds[i].name, ds[i].refresh.value.debounce;
    forall u | u in dag ensures WindowIn(dag[u], d, w) {
      forall k | 0 <= k < |dag[u]| && dag[u][k].name == d ensures dag[u][k].debounce == w {
        var j := EntryHasFollower(ds, u, k);
      }
    }
  }

  /** Debounce for a configured dataset, over every run of a freshly started engine. */
  lemma AcceptedDebounce(ds: seq<Dataset>, i: nat, now: nat, steps: seq<Step>)
    requires UniqueNames(ds) && i < |ds| && Follows(ds[i])
    requires CanRun(CascadeDag(ds), Initial(now), steps)
    ensures var log := Run(CascadeDag(ds), Initial(now), steps).log;
            var d, w := ds[i].name, ds[i].refresh.value.debounce;
            Spaced(CascadeDag(ds), log, d, w) && Requested(log, d) <= Bursts(CascadeDag(ds), log, d, w)
  {
    AcceptedWindow(ds, i);
    DebounceFromStart(CascadeDag(ds), now, steps, ds[i].name, ds[i].refresh.value.debounce);
  }

  /** Every request for a configured dataset carries that dataset's own build timeout. */
  lemma AcceptedTimeout(ds: seq<Dataset>, i: nat, now: nat, steps: seq<Step>)
    requires UniqueNames(ds) && i < |ds| && Follows(ds[i])
    requires CanRun(CascadeDag(ds), Initial(now), steps)
    ensures CarriesTimeout(Run(CascadeDag(ds), Initial(now), steps), ds[i].name, ds[i].refresh.value.timeout)
  {
    var dag, d, timeout := CascadeDag(ds), ds[i].name, ds[i].refresh.value.timeout;
    forall u | u in dag ensures TimeoutIn(dag[u], d, timeout) {
      forall k | 0 <= k < |dag[u]| && dag[u][k].name == d ensures dag[u][k].timeout == timeout {
        var j := EntryHasFollower(ds, u, k);
      }
    }
    RequestsCarryTimeout(dag, Initial(now), steps, d, timeout);
  }
}
