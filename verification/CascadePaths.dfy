/** How often one outside publish can refresh a dataset: at most once for every path of the cascade
    graph from the published dataset to it, and as often as that in some run. */
module CascadePaths {
  import opened Cascade
  import opened CascadeDebounce
  import opened CascadePotential
  import opened CascadeTermination
  import opened CascadeRuns

  // ------------------------------------------------------------------------ paths

  ghost predicate Triggers(dag: Dag, u: Name, v: Name) {
    Lists(DependentsOf(dag, u), v)
  }

  /** Each name is triggered by the one before. */
  ghost predicate IsPath(dag: Dag, p: seq<Name>, from: Name, to: Name) {
    && p != [] && p[0] == from && p[|p| - 1] == to
    && forall k :: 0 <= k < |p| - 1 ==> Triggers(dag, p[k], p[k + 1])
  }

  /** No two different paths lead from one dataset on to the other. */
  ghost predicate AtMostOnePath(dag: Dag, a: Name, d: Name) {
    forall p, q :: IsPath(dag, p, a, d) && IsPath(dag, q, a, d) && |p| > 1 && |q| > 1 ==> p == q
  }

  lemma PathCons(dag: Dag, u: Name, p: seq<Name>, v: Name, d: Name)
    requires Triggers(dag, u, v) && IsPath(dag, p, v, d)
    ensures IsPath(dag, [u] + p, u, d)
  {
    var q := [u] + p;
    forall k | 0 <= k < |q| - 1 ensures Triggers(dag, q[k], q[k + 1]) {
      if k > 0 { assert Triggers(dag, p[k - 1], p[k]); }
    }
  }

  lemma PathRest(dag: Dag, p: seq<Name>, u: Name, d: Name)
    requires IsPath(dag, p, u, d) && |p| > 1
    ensures Triggers(dag, u, p[1]) && IsPath(dag, p[1..], p[1], d)
  {
    assert Triggers(dag, p[0], p[1]);
    forall k | 0 <= k < |p| - 2 ensures Triggers(dag, p[1..][k], p[1..][k + 1]) {
      assert Triggers(dag, p[k + 1], p[k + 2]);
    }
  }

  // ------------------------------------------------------------------- their number

  /** How many paths lead from `x` to `d`, counting the one that is already there. */
  ghost function Walks(dag: Dag, order: seq<Name>, d: Name, x: Name): nat
    requires Respects(dag, order)
    decreases |order| - Rank(order, x), 1, 0
  {
    (if x == d then 1 else 0) + Onward(dag, order, d, x, |DependentsOf(dag, x)|)
  }

  /** Those through the first `k` mentioned dependents, each name once. */
  ghost function Onward(dag: Dag, order: seq<Name>, d: Name, x: Name, k: nat): nat
    requires Respects(dag, order) && k <= |DependentsOf(dag, x)|
    decreases |order| - Rank(order, x), 0, k
  {
    if k == 0 then 0
    else
      var deps := DependentsOf(dag, x);
      Onward(dag, order, d, x, k - 1)
      + if Lists(deps[..k - 1], deps[k - 1].name) then 0 else Walks(dag, order, d, deps[k - 1].name)
  }

  /** The number of paths by which a publish of `x` can bring about a refresh of `d`. */
  ghost function Paths(dag: Dag, order: seq<Name>, d: Name, x: Name): nat {
    if Respects(dag, order) then Onward(dag, order, d, x, |DependentsOf(dag, x)|) else 0
  }

  ghost function Beyond(dag: Dag, order: seq<Name>, d: Name): Name -> nat {
    x => Paths(dag, order, d, x)
  }

  /** The same, and one for `d` itself. */
  ghost function From(dag: Dag, order: seq<Name>, d: Name): Name -> nat {
    x => (if x == d then 1 else 0) + Paths(dag, order, d, x)
  }

  /** Requests of `d` still to come: a pending entry of `d` stands for one itself. */
  ghost function ToCome(dag: Dag, order: seq<Name>, d: Name): Potential {
    var f := Beyond(dag, order, d);
    Potential(f, From(dag, order, d), f, f)
  }

  /** Publishes of `d` still to come: so do a queued request and a build of `d`. */
  ghost function ToPublish(dag: Dag, order: seq<Name>, d: Name): Potential {
    var f := From(dag, order, d);
    Potential(Beyond(dag, order, d), f, f, f)
  }

  lemma {:induction false} FollowersArePaths(dag: Dag, order: seq<Name>, d: Name, x: Name, k: nat)
    requires Respects(dag, order) && k <= |DependentsOf(dag, x)|
    ensures FollowersSum(From(dag, order, d), DependentsOf(dag, x)[..k]) == Onward(dag, order, d, x, k)
  {
    if k > 0 {
      var deps := DependentsOf(dag, x);
      FollowersArePaths(dag, order, d, x, k - 1);
      assert deps[..k][..k - 1] == deps[..k - 1];
    }
  }

  // ------------------------------------------------------------------ requests within

  /** Requests of `d` so far plus those its queues can still bring about. */
  ghost function Outlook(dag: Dag, order: seq<Name>, d: Name, s: State): nat {
    Requested(s.log, d) + Level(ToCome(dag, order, d), s)
  }

  lemma RequestedAppend(log: seq<Event>, e: Event, d: Name)
    ensures Requested(log + [e], d) == Requested(log, d) + if e.Emitted? && e.request.name == d then 1 else 0
  {
    assert (log + [e])[..|log|] == log;
  }

  lemma OutlookReceive(dag: Dag, order: seq<Name>, d: Name, s: State)
    requires Respects(dag, order) && s.publishes != []
    ensures Outlook(dag, order, d, Apply(dag, s, Receive)) <= Outlook(dag, order, d, s)
  {
    var x := s.publishes[0].name;
    var deps := DependentsOf(dag, x);
    LevelReceive(dag, ToCome(dag, order, d), s);
    FollowersArePaths(dag, order, d, x, |deps|);
    assert deps[..|deps|] == deps;
    RequestedAppend(s.log, Received(s.publishes[0], s.now), d);
  }

  /** Only an outside publish raises the outlook, by the number of paths from the published dataset. */
  lemma OutlookStep(dag: Dag, order: seq<Name>, d: Name, s: State, step: Step)
    requires Respects(dag, order) && Enabled(s, step)
    ensures Outlook(dag, order, d, Apply(dag, s, step))
         <= Outlook(dag, order, d, s) + if step.Notify? then Paths(dag, order, d, step.name) else 0
  {
    var p := ToCome(dag, order, d);
    match step
    case Receive => OutlookReceive(dag, order, d, s);
    case Fire(name) =>
      LevelFire(dag, p, s, name);
      RequestedAppend(s.log, Emitted(Request(name, s.pending[name].timeout), s.now), d);
    case Begin => LevelBegin(dag, p, s);
    case Finish(outcome) => LevelFinish(dag, p, s, outcome);
    case Notify(name, buildStart) => LevelNotify(dag, p, s, name, buildStart);
    case Advance(_) =>
  }

  /** The paths to `d` from the datasets published from outside, added up. */
  ghost function PathsIn(dag: Dag, order: seq<Name>, d: Name, steps: seq<Step>): nat {
    if steps == [] then 0
    else (if steps[0].Notify? then Paths(dag, order, d, steps[0].name) else 0) + PathsIn(dag, order, d, steps[1..])
  }

  /** In every run the requests for a dataset never outnumber the paths to it from what was published
      from outside. */
  lemma {:induction false} RequestsWithinPaths(dag: Dag, order: seq<Name>, d: Name, s: State, steps: seq<Step>)
    requires Respects(dag, order) && CanRun(dag, s, steps)
    ensures Outlook(dag, order, d, Run(dag, s, steps)) <= Outlook(dag, order, d, s) + PathsIn(dag, order, d, steps)
    decreases steps
  {
    if steps != [] {
      OutlookStep(dag, order, d, s, steps[0]);
      RequestsWithinPaths(dag, order, d, Apply(dag, s, steps[0]), steps[1..]);
    }
  }

  // ----------------------------------------------------------------- publishes within

  ghost function Publications(sent: seq<Publish>, d: Name): nat {
    if sent == [] then 0
    else Publications(sent[..|sent| - 1], d) + if sent[|sent| - 1].name == d then 1 else 0
  }

  lemma PublicationsAppend(sent: seq<Publish>, m: Publish, d: Name)
    ensures Publications(sent + [m], d) == Publications(sent, d) + if m.name == d then 1 else 0
  {
    assert (sent + [m])[..|sent|] == sent;
  }

  /** Publishes of `d` so far plus those its queues can still bring about. */
  ghost function Coming(dag: Dag, order: seq<Name>, d: Name, s: State): nat {
    Publications(s.sent, d) + Level(ToPublish(dag, order, d), s)
  }

  lemma ComingReceive(dag: Dag, order: seq<Name>, d: Name, s: State)
    requires Respects(dag, order) && s.publishes != []
    ensures Coming(dag, order, d, Apply(dag, s, Receive)) <= Coming(dag, order, d, s)
  {
    var x := s.publishes[0].name;
    var deps := DependentsOf(dag, x);
    LevelReceive(dag, ToPublish(dag, order, d), s);
    FollowersArePaths(dag, order, d, x, |deps|);
    assert deps[..|deps|] == deps;
  }

  lemma ComingFinish(dag: Dag, order: seq<Name>, d: Name, s: State, outcome: Outcome)
    requires Enabled(s, Finish(outcome))
    ensures Coming(dag, order, d, Apply(dag, s, Finish(outcome))) <= Coming(dag, order, d, s)
  {
    LevelFinish(dag, ToPublish(dag, order, d), s, outcome);
    if outcome.Published? {
      PublicationsAppend(s.sent, Publish(s.building.value.request.name, outcome.buildStart, s.now), d);
    }
  }

  /** Without outside publishes the publishes of `d` never exceed what its queues held at first. */
  lemma ComingStep(dag: Dag, order: seq<Name>, d: Name, s: State, step: Step)
    requires Respects(dag, order) && Enabled(s, step) && !step.Notify?
    ensures Coming(dag, order, d, Apply(dag, s, step)) <= Coming(dag, order, d, s)
  {
    match step
    case Receive => ComingReceive(dag, order, d, s);
    case Fire(name) => LevelFire(dag, ToPublish(dag, order, d), s, name);
    case Begin => LevelBegin(dag, ToPublish(dag, order, d), s);
    case Finish(outcome) => ComingFinish(dag, order, d, s, outcome);
    case Advance(_) =>
  }

  // ---------------------------------------------------------------- counting is exact

  /** A positive count has a path. */
  lemma {:induction false} SomePath(dag: Dag, order: seq<Name>, d: Name, x: Name, k: nat) returns (p: seq<Name>)
    requires Respects(dag, order) && k <= |DependentsOf(dag, x)| && Onward(dag, order, d, x, k) >= 1
    ensures IsPath(dag, p, x, d) && |p| > 1 && Lists(DependentsOf(dag, x)[..k], p[1])
    decreases |order| - Rank(order, x), k
  {
    var deps := DependentsOf(dag, x);
    assert deps[..k][..k - 1] == deps[..k - 1];
    if Onward(dag, order, d, x, k - 1) >= 1 {
      p := SomePath(dag, order, d, x, k - 1);
      ListsMore(deps, k - 1, k, p[1]);
    } else {
      var v := deps[k - 1].name;
      assert deps[..k][k - 1].name == v;
      ListsMore(deps, k, |deps|, v);
      if v == d {
        p := [x, d];
      } else {
        var q := SomePath(dag, order, d, v, |DependentsOf(dag, v)|);
        PathCons(dag, x, q, v, d);
        p := [x] + q;
      }
    }
  }

  lemma ListsMore(deps: seq<Dependent>, k: nat, m: nat, v: Name)
    requires k <= m <= |deps| && Lists(deps[..k], v)
    ensures Lists(deps[..m], v) && Lists(deps, v)
  {
    var i :| 0 <= i < k && deps[..k][i].name == v;
    assert deps[..m][i].name == v && deps[i].name == v;
  }

  /** A count of two has two paths. */
  lemma {:induction false} TwoPaths(dag: Dag, order: seq<Name>, d: Name, x: Name, k: nat)
    returns (p: seq<Name>, q: seq<Name>)
    requires Respects(dag, order) && k <= |DependentsOf(dag, x)| && Onward(dag, order, d, x, k) >= 2
    ensures IsPath(dag, p, x, d) && |p| > 1 && IsPath(dag, q, x, d) && |q| > 1 && p != q
    decreases |order| - Rank(order, x), k
  {
    var deps := DependentsOf(dag, x);
    var v := deps[k - 1].name;
    if Onward(dag, order, d, x, k - 1) >= 2 {
      p, q := TwoPaths(dag, order, d, x, k - 1);
    } else {
      assert deps[..k][k - 1].name == v;
      ListsMore(deps, k, |deps|, v);
      if Onward(dag, order, d, x, k - 1) == 1 {
        p := SomePath(dag, order, d, x, k - 1);
        q := ThroughLast(dag, order, d, x, v);
      } else if v == d {
        p := [x, d];
        var r := SomePath(dag, order, d, v, |DependentsOf(dag, v)|);
        PathCons(dag, x, r, v, d);
        q := [x] + r;
      } else {
        var r, r' := TwoPaths(dag, order, d, v, |DependentsOf(dag, v)|);
        PathCons(dag, x, r, v, d);
        PathCons(dag, x, r', v, d);
        p, q := [x] + r, [x] + r';
        assert p[1..] == r && q[1..] == r';
      }
    }
  }

  lemma ThroughLast(dag: Dag, order: seq<Name>, d: Name, x: Name, v: Name) returns (q: seq<Name>)
    requires Respects(dag, order) && Triggers(dag, x, v) && Walks(dag, order, d, v) >= 1
    ensures IsPath(dag, q, x, d) && |q| > 1 && q[1] == v
  {
    var r := [v];
    if v != d { r := SomePath(dag, order, d, v, |DependentsOf(dag, v)|); }
    PathCons(dag, x, r, v, d);
    q := [x] + r;
  }

  // ------------------------------------------------------------ two paths count twice

  lemma TriggersRankUp(dag: Dag, order: seq<Name>, u: Name, v: Name)
    requires Respects(dag, order) && Triggers(dag, u, v)
    ensures Rank(order, u) < Rank(order, v)
  {
    var k :| 0 <= k < |DependentsOf(dag, u)| && DependentsOf(dag, u)[k].name == v;
  }

  /** Ranks go up along a path. */
  lemma {:induction false} PathRanksUp(dag: Dag, order: seq<Name>, p: seq<Name>, u: Name, d: Name, x: Name)
    requires Respects(dag, order) && IsPath(dag, p, u, d) && x in p
    ensures x == u || Rank(order, u) < Rank(order, x)
    ensures x == d || Rank(order, x) < Rank(order, d)
    decreases |p|
  {
    if |p| > 1 {
      PathRest(dag, p, u, d);
      TriggersRankUp(dag, order, u, p[1]);
      assert p == [p[0]] + p[1..];
      PathRanksUp(dag, order, p[1..], p[1], d, if x in p[1..] then x else p[1]);
    }
  }

  /** Two different paths between the same ends both have a step. */
  lemma NotBothShort(dag: Dag, order: seq<Name>, p: seq<Name>, q: seq<Name>, v: Name, d: Name)
    requires Respects(dag, order) && IsPath(dag, p, v, d) && IsPath(dag, q, v, d) && p != q
    ensures |p| > 1 && |q| > 1
  {
    if |p| == 1 && |q| > 1 { NoPathBack(dag, order, q, v); }
    if |q| == 1 && |p| > 1 { NoPathBack(dag, order, p, v); }
    assert |p| == 1 && |q| == 1 ==> p == q;
  }

  lemma NoPathBack(dag: Dag, order: seq<Name>, p: seq<Name>, v: Name)
    requires Respects(dag, order) && IsPath(dag, p, v, v)
    ensures |p| == 1
  {
    if |p| > 1 {
      PathRest(dag, p, v, v);
      TriggersRankUp(dag, order, v, p[1]);
      PathRanksUp(dag, order, p[1..], p[1], v, v);
    }
  }

  /** What is listed counts with all its walks. */
  lemma {:induction false} OnwardCounts(dag: Dag, order: seq<Name>, d: Name, x: Name, k: nat, v: Name)
    requires Respects(dag, order) && k <= |DependentsOf(dag, x)| && Lists(DependentsOf(dag, x)[..k], v)
    ensures Onward(dag, order, d, x, k) >= Walks(dag, order, d, v)
    decreases k
  {
    ListsBefore(DependentsOf(dag, x), k, v);
    if Lists(DependentsOf(dag, x)[..k - 1], v) { OnwardCounts(dag, order, d, x, k - 1, v); }
  }

  /** Two different names count separately. */
  lemma {:induction false} OnwardCountsBoth(dag: Dag, order: seq<Name>, d: Name, x: Name, k: nat, v: Name, w: Name)
    requires Respects(dag, order) && k <= |DependentsOf(dag, x)| && v != w
    requires Lists(DependentsOf(dag, x)[..k], v) && Lists(DependentsOf(dag, x)[..k], w)
    ensures Onward(dag, order, d, x, k) >= Walks(dag, order, d, v) + Walks(dag, order, d, w)
    decreases k
  {
    var front := DependentsOf(dag, x)[..k - 1];
    ListsBefore(DependentsOf(dag, x), k, v);
    ListsBefore(DependentsOf(dag, x), k, w);
    if Lists(front, v) && Lists(front, w) {
      OnwardCountsBoth(dag, order, d, x, k - 1, v, w);
    } else if Lists(front, v) {
      OnwardCounts(dag, order, d, x, k - 1, v);
    } else {
      OnwardCounts(dag, order, d, x, k - 1, w);
    }
  }

  lemma ListsBefore(deps: seq<Dependent>, k: nat, v: Name)
    requires 0 < k <= |deps|
    ensures Lists(deps[..k], v) <==> Lists(deps[..k - 1], v) || deps[k - 1].name == v
  {
    if Lists(deps[..k], v) {
      var i :| 0 <= i < k && deps[..k][i].name == v;
      if i < k - 1 { assert deps[..k - 1][i].name == v; }
    }
    if Lists(deps[..k - 1], v) { ListsMore(deps, k - 1, k, v); }
    assert deps[..k][k - 1] == deps[k - 1];
  }

  /** A path counts. */
  lemma {:induction false} PathCounts(dag: Dag, order: seq<Name>, p: seq<Name>, x: Name, d: Name)
    requires Respects(dag, order) && IsPath(dag, p, x, d)
    ensures Walks(dag, order, d, x) >= 1
    decreases |p|
  {
    if |p| > 1 {
      PathRest(dag, p, x, d);
      PathCounts(dag, order, p[1..], p[1], d);
      var deps := DependentsOf(dag, x);
      assert deps[..|deps|] == deps;
      OnwardCounts(dag, order, d, x, |deps|, p[1]);
    }
  }

  /** Two different paths count twice. */
  lemma {:induction false} PathsCountTwice(dag: Dag, order: seq<Name>, p: seq<Name>, q: seq<Name>, x: Name, d: Name)
    requires Respects(dag, order) && IsPath(dag, p, x, d) && IsPath(dag, q, x, d) && |p| > 1 && |q| > 1 && p != q
    ensures Paths(dag, order, d, x) >= 2
    decreases |p|
  {
    var deps := DependentsOf(dag, x);
    PathRest(dag, p, x, d);
    PathRest(dag, q, x, d);
    assert deps[..|deps|] == deps;
    if p[1] == q[1] {
      OnwardCounts(dag, order, d, x, |deps|, p[1]);
      assert p == [x] + p[1..] && q == [x] + q[1..];
      NotBothShort(dag, order, p[1..], q[1..], p[1], d);
      PathsCountTwice(dag, order, p[1..], q[1..], p[1], d);
    } else {
      OnwardCountsBoth(dag, order, d, x, |deps|, p[1], q[1]);
      PathCounts(dag, order, p[1..], p[1], d);
      PathCounts(dag, order, q[1..], q[1], d);
    }
  }

  lemma PathsAreOneExactly(dag: Dag, order: seq<Name>, a: Name, d: Name)
    requires Respects(dag, order)
    ensures Paths(dag, order, d, a) <= 1 <==> AtMostOnePath(dag, a, d)
  {
    if Paths(dag, order, d, a) >= 2 {
      var p, q := TwoPaths(dag, order, d, a, |DependentsOf(dag, a)|);
    }
    if !AtMostOnePath(dag, a, d) {
      var p, q :| IsPath(dag, p, a, d) && IsPath(dag, q, a, d) && |p| > 1 && |q| > 1 && p != q;
      PathsCountTwice(dag, order, p, q, a, d);
    }
  }

  // ------------------------------------------------------- a run that uses every path

  ghost predicate Idle(s: State) {
    s.publishes == [] && s.requests == [] && s.building.None?
  }

  /** With nothing pending, a receipt keeps the outlook; so do firing and a build that publishes. */
  lemma OutlookKept(dag: Dag, order: seq<Name>, d: Name, s: State, step: Step)
    requires Respects(dag, order) && Enabled(s, step)
    requires step.Advance? || step.Fire? || step.Begin? || (step.Finish? && step.outcome.Published?)
      || (step.Receive? && s.pending == map[])
    ensures Outlook(dag, order, d, Apply(dag, s, step)) == Outlook(dag, order, d, s)
  {
    var p := ToCome(dag, order, d);
    match step
    case Receive =>
      var x := s.publishes[0].name;
      var deps := DependentsOf(dag, x);
      LevelReceiveExactly(dag, p, s);
      FollowersArePaths(dag, order, d, x, |deps|);
      assert deps[..|deps|] == deps;
      RequestedAppend(s.log, Received(s.publishes[0], s.now), d);
    case Fire(name) =>
      LevelFire(dag, p, s, name);
      RequestedAppend(s.log, Emitted(Request(name, s.pending[name].timeout), s.now), d);
    case Begin => LevelBegin(dag, p, s);
    case Finish(outcome) => LevelFinish(dag, p, s, outcome);
    case _ =>
  }

  /** Along `steps` every build publishes, and what `s` brings about is kept. */
  ghost predicate Keeps(dag: Dag, order: seq<Name>, d: Name, s: State, steps: seq<Step>, t: State)
    requires Respects(dag, order)
  {
    && EngineLeads(dag, s, steps, t) && Publishes(steps)
    && Outlook(dag, order, d, t) == Outlook(dag, order, d, s) && Owed(dag, order, t) <= Owed(dag, order, s)
  }

  lemma KeepsOn(dag: Dag, order: seq<Name>, d: Name, s: State, x: Step, t: State, steps: seq<Step>, u: State)
    requires Respects(dag, order) && Enabled(s, x) && t == Apply(dag, s, x) && Keeps(dag, order, d, t, steps, u)
    requires x.Advance? || x.Fire? || x.Begin? || (x.Finish? && x.outcome.Published?)
      || (x.Receive? && s.pending == map[])
    requires EngineOnTime(s, x) && (x.Fire? && SomeDue(t) ==> steps != [] && steps[0].Fire?)
    ensures Keeps(dag, order, d, s, [x] + steps, u)
  {
    OutlookKept(dag, order, d, s, x);
    StepSpends(dag, order, s, x);
    EngineOn(dag, s, x, t, steps, u);
  }

  /** The engine fires all that is pending, batch by batch as it falls due. */
  lemma {:induction false} FireAll(dag: Dag, order: seq<Name>, d: Name, s: State) returns (steps: seq<Step>, t: State)
    requires Respects(dag, order) && s.publishes == [] && s.building.None?
    ensures Keeps(dag, order, d, s, steps, t) && t.publishes == [] && t.building.None? && t.pending == map[]
    ensures SomeDue(s) ==> steps != [] && steps[0].Fire?
    decreases |s.pending|, if SomeDue(s) then 0 else 1
  {
    if s.pending.Keys == {} {
      assert s.pending == map[];
      steps, t := [], s;
    } else {
      var x := Earliest(s.pending, s.pending.Keys);
      var step := if s.pending[x].fireAt <= s.now then Fire(x) else Advance(s.pending[x].fireAt - s.now);
      var u := Apply(dag, s, step);
      assert step.Fire? ==> u.pending.Keys == s.pending.Keys - {x};
      if step.Advance? { assert s.pending[x].fireAt <= u.now; }
      assert |u.pending| == |u.pending.Keys| && |s.pending| == |s.pending.Keys|;
      var rest;
      rest, t := FireAll(dag, order, d, u);
      KeepsOn(dag, order, d, s, step, u, rest, t);
      steps := [step] + rest;
    }
  }

  /** A scheduler that serves one request and lets all that follows fall due before it takes the next:
      no two triggers merge, so every path to `d` brings its own request. */
  lemma {:induction false} ServeApart(dag: Dag, order: seq<Name>, d: Name, s: State)
    returns (steps: seq<Step>, t: State)
    requires Respects(dag, order) && s.publishes == [] && s.building.None? && s.pending == map[]
    ensures Keeps(dag, order, d, s, steps, t) && Idle(t) && t.pending == map[]
    decreases Owed(dag, order, s)
  {
    if s.requests == [] {
      steps, t := [], s;
    } else {
      var u := Apply(dag, s, Begin);
      var v := Apply(dag, u, Finish(Published(u.now)));
      var w := Apply(dag, v, Receive);
      assert v.publishes == [Publish(s.requests[0].name, u.now, u.now)];
      StepSpends(dag, order, s, Begin);
      StepSpends(dag, order, u, Finish(Published(u.now)));
      StepSpends(dag, order, v, Receive);
      var fires, y := FireAll(dag, order, d, w);
      var rest;
      rest, t := ServeApart(dag, order, d, y);
      EngineJoin(dag, w, fires, y, rest, t);
      KeepsOn(dag, order, d, v, Receive, w, fires + rest, t);
      KeepsOn(dag, order, d, u, Finish(Published(u.now)), v, [Receive] + (fires + rest), t);
      steps := [Finish(Published(u.now))] + ([Receive] + (fires + rest));
      KeepsOn(dag, order, d, s, Begin, u, steps, t);
      steps := [Begin] + steps;
    }
  }

  lemma PublishBrings(dag: Dag, order: seq<Name>, a: Name, d: Name)
    requires Respects(dag, order)
    ensures Outlook(dag, order, d, AfterPublish(dag, 0, a)) == Paths(dag, order, d, a)
  {
    LevelNotify(dag, ToCome(dag, order, d), Initial(0), a, 0);
    OutlookKept(dag, order, d, Apply(dag, Initial(0), Notify(a, 0)), Receive);
  }

  lemma RunApart(dag: Dag, order: seq<Name>, d: Name, s: State) returns (steps: seq<Step>, t: State)
    requires Respects(dag, order) && s.publishes == [] && s.building.None?
    ensures Keeps(dag, order, d, s, steps, t) && Idle(t) && t.pending == map[]
  {
    var fires, u := FireAll(dag, order, d, s);
    var rest;
    rest, t := ServeApart(dag, order, d, u);
    EngineJoin(dag, s, fires, u, rest, t);
    steps := fires + rest;
  }

  /** The bound is attained: with a prompt engine, every build published at once and a scheduler that
      lags, one outside publish of `a` requests `d` once for every path. */
  lemma PathsAreAttained(dag: Dag, order: seq<Name>, a: Name, d: Name) returns (wave: seq<Step>)
    requires Respects(dag, order)
    ensures IsEngineWave(dag, 0, wave, a) && Publishes(wave) && wave != [] && wave[0] == Notify(a, 0)
    ensures var t := Run(dag, Initial(0), wave);
            Idle(t) && t.pending == map[] && Requested(t.log, d) == Paths(dag, order, d, a)
  {
    var steps, t := RunApart(dag, order, d, AfterPublish(dag, 0, a));
    PublishBrings(dag, order, a, d);
    wave := EngineWave(dag, 0, a, steps, t);
  }

  // --------------------------------------------------------------------- exactly once

  lemma {:induction false} OneWaveBringsPaths(dag: Dag, order: seq<Name>, d: Name, steps: seq<Step>, a: Name)
    requires OneWave(steps, a)
    ensures PathsIn(dag, order, d, steps) <= Paths(dag, order, d, a)
    ensures Quiet(steps) ==> PathsIn(dag, order, d, steps) == 0
  {
    if steps != [] {
      OneWaveBringsPaths(dag, order, d, steps[1..], a);
      if steps[0].Notify? { assert forall i :: 0 <= i < |steps| - 1 ==> steps[1..][i] == steps[i + 1]; }
    }
  }

  /** Every run with one outside publish of `a` requests `d` at most once. */
  ghost predicate Once(dag: Dag, a: Name, d: Name) {
    forall now: nat, steps :: CanRun(dag, Initial(now), steps) && OneWave(steps, a) ==>
      Requested(Run(dag, Initial(now), steps).log, d) <= 1
  }

  /** Every such run with a prompt engine does. */
  ghost predicate OncePromptEngine(dag: Dag, a: Name, d: Name) {
    forall now: nat, steps :: IsEngineWave(dag, now, steps, a) ==> Requested(Run(dag, Initial(now), steps).log, d) <= 1
  }

  lemma OnePathIsOnce(dag: Dag, order: seq<Name>, a: Name, d: Name, now: nat, steps: seq<Step>)
    requires Respects(dag, order) && AtMostOnePath(dag, a, d)
    requires CanRun(dag, Initial(now), steps) && OneWave(steps, a)
    ensures Requested(Run(dag, Initial(now), steps).log, d) <= 1
  {
    RequestsWithinPaths(dag, order, d, Initial(now), steps);
    OneWaveBringsPaths(dag, order, d, steps, a);
    PathsAreOneExactly(dag, order, a, d);
  }

  /** On every graph that follows an order, whatever its windows and timeouts: one outside publish of
      `a` requests `d` at most once in every run exactly when at most one path leads from `a` to `d`, and
      no other graph is saved by an engine that is on time and fires in batches. */
  lemma OnceExactly(dag: Dag, order: seq<Name>, a: Name, d: Name)
    requires Respects(dag, order)
    ensures Once(dag, a, d) <==> AtMostOnePath(dag, a, d)
    ensures OncePromptEngine(dag, a, d) <==> AtMostOnePath(dag, a, d)
  {
    if AtMostOnePath(dag, a, d) {
      forall now: nat, steps | CanRun(dag, Initial(now), steps) && OneWave(steps, a)
        ensures Requested(Run(dag, Initial(now), steps).log, d) <= 1
      {
        OnePathIsOnce(dag, order, a, d, now, steps);
      }
    } else {
      PathsAreOneExactly(dag, order, a, d);
      var wave := PathsAreAttained(dag, order, a, d);
    }
  }
}
