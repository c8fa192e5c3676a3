/** Cascade waves terminate: on a graph ordered by a build order, every receive, fire and
    serve step spends part of a finite weight that only outside publishes replenish. */
module CascadeTermination {
  import opened Cascade
  import opened CascadePotential

  /** One more than the last position of `x` in `order`; zero when it does not occur. */
  ghost function Rank(order: seq<Name>, x: Name): (r: nat)
    ensures r <= |order|
  {
    if order == [] then 0
    else if order[|order| - 1] == x then |order|
    else Rank(order[..|order| - 1], x)
  }

  lemma {:induction false} RankIn(order: seq<Name>, x: Name)
    ensures Rank(order, x) > 0 ==> order[Rank(order, x) - 1] == x
  {
    if order != [] && order[|order| - 1] != x { RankIn(order[..|order| - 1], x); }
  }

  /** Dependents come later in the order than what triggers them. */
  ghost predicate Respects(dag: Dag, order: seq<Name>) {
    forall u, k :: u in dag && 0 <= k < |dag[u]| ==> Rank(order, u) < Rank(order, dag[u][k].name)
  }

  // --------------------------------------------------------------------- weights

  /** The most steps a queued publish of `x` can cause, itself included. */
  ghost function Weight(dag: Dag, order: seq<Name>, x: Name): nat
    requires Respects(dag, order)
    decreases |order| - Rank(order, x), 1, 0
  {
    1 + Downstream(dag, order, x, |DependentsOf(dag, x)|)
  }

  /** Firing, beginning and finishing each of the first `k` dependents, and publishing it. */
  ghost function Downstream(dag: Dag, order: seq<Name>, x: Name, k: nat): nat
    requires Respects(dag, order) && k <= |DependentsOf(dag, x)|
    decreases |order| - Rank(order, x), 0, k
  {
    if k == 0 then 0
    else Downstream(dag, order, x, k - 1) + 3 + Weight(dag, order, DependentsOf(dag, x)[k - 1].name)
  }

  ghost function WeightOf(dag: Dag, order: seq<Name>, x: Name): nat {
    if Respects(dag, order) then Weight(dag, order, x) else 0
  }

  /** A pending entry has three more steps before its publish, a request two, a build one. */
  ghost function Work(dag: Dag, order: seq<Name>): Potential {
    Potential(x => WeightOf(dag, order, x), x => 3 + WeightOf(dag, order, x),
              x => 2 + WeightOf(dag, order, x), x => 1 + WeightOf(dag, order, x))
  }

  /** The work still owed: zero exactly when all queues are empty. */
  ghost function Owed(dag: Dag, order: seq<Name>, s: State): nat {
    Level(Work(dag, order), s)
  }

  /** What a publish can arm is paid for by its weight. */
  lemma {:induction false} FollowersWithinDownstream(dag: Dag, order: seq<Name>, x: Name, k: nat)
    requires Respects(dag, order) && k <= |DependentsOf(dag, x)|
    ensures FollowersSum(Work(dag, order).pending, DependentsOf(dag, x)[..k]) <= Downstream(dag, order, x, k)
  {
    if k > 0 {
      var deps := DependentsOf(dag, x);
      FollowersWithinDownstream(dag, order, x, k - 1);
      assert deps[..k][..k - 1] == deps[..k - 1];
    }
  }

  // ----------------------------------------------------------------------- steps

  /** Receiving, firing and serving; not the passage of time nor outside publishes. */
  predicate IsWork(step: Step) {
    !step.Advance? && !step.Notify?
  }

  lemma ReceiveSpends(dag: Dag, order: seq<Name>, s: State)
    requires Respects(dag, order) && s.publishes != []
    ensures Owed(dag, order, Apply(dag, s, Receive)) < Owed(dag, order, s)
  {
    var x := s.publishes[0].name;
    var deps := DependentsOf(dag, x);
    LevelReceive(dag, Work(dag, order), s);
    FollowersWithinDownstream(dag, order, x, |deps|);
    assert deps[..|deps|] == deps;
  }

  /** A working step spends at least one unit; an outside publish adds its weight; time is free. */
  lemma StepSpends(dag: Dag, order: seq<Name>, s: State, step: Step)
    requires Respects(dag, order) && Enabled(s, step)
    ensures IsWork(step) ==> Owed(dag, order, Apply(dag, s, step)) < Owed(dag, order, s)
    ensures step.Advance? ==> Owed(dag, order, Apply(dag, s, step)) == Owed(dag, order, s)
    ensures step.Notify? ==>
      Owed(dag, order, Apply(dag, s, step)) == Owed(dag, order, s) + Weight(dag, order, step.name)
  {
    match step
    case Receive => ReceiveSpends(dag, order, s);
    case Fire(d) => LevelFire(dag, Work(dag, order), s, d);
    case Begin => LevelBegin(dag, Work(dag, order), s);
    case Finish(outcome) => LevelFinish(dag, Work(dag, order), s, outcome);
    case Notify(name, buildStart) => LevelNotify(dag, Work(dag, order), s, name, buildStart);
    case Advance(_) =>
  }

  /** No outside publish arrives. */
  ghost predicate Quiet(steps: seq<Step>) {
    forall i :: 0 <= i < |steps| ==> !steps[i].Notify?
  }

  ghost function WorkSteps(steps: seq<Step>): nat {
    if steps == [] then 0 else (if IsWork(steps[0]) then 1 else 0) + WorkSteps(steps[1..])
  }

  /** The weight brought in by outside publishes. */
  ghost function Injected(dag: Dag, order: seq<Name>, steps: seq<Step>): nat
    requires Respects(dag, order)
  {
    if steps == [] then 0
    else (if steps[0].Notify? then Weight(dag, order, steps[0].name) else 0) + Injected(dag, order, steps[1..])
  }

  /** In every run, work done plus work owed never exceeds what was owed plus what was injected. */
  lemma {:induction false} WorkIsBounded(dag: Dag, order: seq<Name>, s: State, steps: seq<Step>)
    requires Respects(dag, order) && CanRun(dag, s, steps)
    ensures WorkSteps(steps) + Owed(dag, order, Run(dag, s, steps)) <= Owed(dag, order, s) + Injected(dag, order, steps)
    decreases steps
  {
    if steps != [] {
      StepSpends(dag, order, s, steps[0]);
      WorkIsBounded(dag, order, Apply(dag, s, steps[0]), steps[1..]);
    }
  }

  lemma {:induction false} NothingInjected(dag: Dag, order: seq<Name>, steps: seq<Step>)
    requires Respects(dag, order) && Quiet(steps)
    ensures Injected(dag, order, steps) == 0
  {
    if steps != [] { NothingInjected(dag, order, steps[1..]); }
  }

  /** Once outside publishes stop, every run has at most the owed number of working steps. */
  lemma WavesTerminate(dag: Dag, order: seq<Name>, s: State, steps: seq<Step>)
    requires Respects(dag, order) && CanRun(dag, s, steps)
    requires Quiet(steps)
    ensures WorkSteps(steps) <= Owed(dag, order, s)
  {
    WorkIsBounded(dag, order, s, steps);
    NothingInjected(dag, order, steps);
  }

  /** Nothing owed means nothing left to do: a spent wave leaves every queue empty. */
  lemma OwedNothing(dag: Dag, order: seq<Name>, s: State)
    requires Respects(dag, order)
    ensures Owed(dag, order, s) == 0
      <==> s.publishes == [] && s.pending == map[] && s.requests == [] && s.building.None?
  {
    if s.pending.Keys == {} {
      assert s.pending == map[];
    }
  }
}
