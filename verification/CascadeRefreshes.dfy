/** Refreshes rather than requests: how often a dataset publishes in a wave, and that a wave whose
    builds all publish refreshes a dataset exactly once when exactly one path leads to it. */
module CascadeRefreshes {
  import opened Cascade
  import opened CascadeDebounce
  import opened CascadePotential
  import opened CascadeTermination
  import opened CascadeSettles
  import opened CascadeRuns
  import opened CascadePaths
  import opened CascadeWaves

  // ------------------------------------------------------------ publishes and requests

  /** Requests of `d` that wait or are being served. */
  ghost function Unserved(s: State, d: Name): nat {
    RequestSum(Only(d), s.requests) + if s.building.Some? && s.building.value.request.name == d then 1 else 0
  }

  ghost function Only(d: Name): Name -> nat {
    x => if x == d then 1 else 0
  }

  /** Requests of `d` that were served without a publish. */
  ghost function Failures(s: State, d: Name): int {
    Requested(s.log, d) - Publications(s.sent, d) - Unserved(s, d)
  }

  lemma FailuresFinish(dag: Dag, s: State, outcome: Outcome, d: Name)
    requires Enabled(s, Finish(outcome))
    ensures Failures(Apply(dag, s, Finish(outcome)), d)
         == Failures(s, d) + if s.building.value.request.name == d && !outcome.Published? then 1 else 0
  {
    if outcome.Published? {
      PublicationsAppend(s.sent, Publish(s.building.value.request.name, outcome.buildStart, s.now), d);
    }
  }

  /** Only a build that does not publish adds a failure, unless `d` is published from outside. */
  lemma FailuresStep(dag: Dag, s: State, step: Step, d: Name)
    requires Enabled(s, step) && !(step.Notify? && step.name == d)
    ensures Failures(Apply(dag, s, step), d) >= Failures(s, d)
    ensures (step.Finish? ==> step.outcome.Published?) ==> Failures(Apply(dag, s, step), d) == Failures(s, d)
  {
    match step
    case Notify(name, buildStart) => PublicationsAppend(s.sent, Publish(name, buildStart, s.now), d);
    case Receive => RequestedAppend(s.log, Received(s.publishes[0], s.now), d);
    case Fire(name) =>
      var request := Request(name, s.pending[name].timeout);
      RequestedAppend(s.log, Emitted(request, s.now), d);
      RequestAppend(Only(d), s.requests, request);
    case Finish(outcome) => FailuresFinish(dag, s, outcome, d);
    case _ =>
  }

  /** Publishes never outnumber requests, and no request is lost when every build publishes. */
  lemma {:induction false} FailuresGrow(dag: Dag, s: State, steps: seq<Step>, a: Name, d: Name)
    requires CanRun(dag, s, steps) && OneWave(steps, a) && a != d
    ensures Failures(Run(dag, s, steps), d) >= Failures(s, d)
    ensures Publishes(steps) ==> Failures(Run(dag, s, steps), d) == Failures(s, d)
    decreases steps
  {
    if steps != [] {
      FailuresStep(dag, s, steps[0], d);
      assert forall i :: 0 <= i < |steps| - 1 ==> steps[1..][i] == steps[i + 1];
      FailuresGrow(dag, Apply(dag, s, steps[0]), steps[1..], a, d);
    }
  }

  /** In every wave `d` is refreshed at most as often as it is requested, and at rest just as often when
      every build publishes. */
  lemma RefreshesAndRequests(dag: Dag, now: nat, steps: seq<Step>, a: Name, d: Name)
    requires CanRun(dag, Initial(now), steps) && OneWave(steps, a) && a != d
    ensures var t := Run(dag, Initial(now), steps);
            && Publications(t.sent, d) <= Requested(t.log, d)
            && (Publishes(steps) && AtRest(t) ==> Publications(t.sent, d) == Requested(t.log, d))
  {
    FailuresGrow(dag, Initial(now), steps, a, d);
  }

  // ------------------------------------------------------------------ refreshes ahead

  ghost predicate NoneSentBy(s: State, d: Name) {
    forall i :: 0 <= i < |s.publishes| ==> s.publishes[i].name != d
  }

  /** `d` has published more than `n` times, or `n` times with another publish to come. */
  ghost predicate Ahead(dag: Dag, order: seq<Name>, d: Name, s: State, n: nat) {
    || Publications(s.sent, d) > n
    || (Publications(s.sent, d) == n && NoneSentBy(s, d) && Level(ToPublish(dag, order, d), s) >= 1)
  }

  lemma AheadReceive(dag: Dag, order: seq<Name>, d: Name, s: State)
    requires Respects(dag, order) && s.publishes != [] && s.publishes[0].name != d
    requires Level(ToPublish(dag, order, d), s) >= 1
    ensures Level(ToPublish(dag, order, d), Apply(dag, s, Receive)) >= 1
  {
    var x, p := s.publishes[0].name, ToPublish(dag, order, d);
    var deps := DependentsOf(dag, x);
    if Paths(dag, order, d, x) == 0 {
      LevelReceiveKeeps(dag, p, s);
    } else {
      LevelReceiveArms(dag, p, s);
      FollowersArePaths(dag, order, d, x, |deps|);
      assert deps[..|deps|] == deps;
    }
  }

  lemma AheadFinish(dag: Dag, order: seq<Name>, d: Name, s: State, outcome: Outcome, n: nat)
    requires Enabled(s, Finish(outcome)) && outcome.Published? && Ahead(dag, order, d, s, n)
    ensures Ahead(dag, order, d, Apply(dag, s, Finish(outcome)), n)
  {
    LevelFinish(dag, ToPublish(dag, order, d), s, outcome);
    PublicationsAppend(s.sent, Publish(s.building.value.request.name, outcome.buildStart, s.now), d);
  }

  /** A refresh to come is not lost by a build that publishes, nor by any other step. */
  lemma AheadStep(dag: Dag, order: seq<Name>, d: Name, s: State, step: Step, n: nat)
    requires Respects(dag, order) && Ahead(dag, order, d, s, n) && Enabled(s, step)
    requires !(step.Notify? && step.name == d) && (step.Finish? ==> step.outcome.Published?)
    ensures Ahead(dag, order, d, Apply(dag, s, step), n)
  {
    var p := ToPublish(dag, order, d);
    match step
    case Receive => if Publications(s.sent, d) == n { AheadReceive(dag, order, d, s); }
    case Fire(name) => LevelFire(dag, p, s, name);
    case Begin => LevelBegin(dag, p, s);
    case Finish(outcome) => AheadFinish(dag, order, d, s, outcome, n);
    case Notify(name, buildStart) =>
      LevelNotify(dag, p, s, name, buildStart);
      PublicationsAppend(s.sent, Publish(name, buildStart, s.now), d);
    case Advance(_) =>
  }

  lemma {:induction false} AheadRun(dag: Dag, order: seq<Name>, d: Name, s: State, steps: seq<Step>, n: nat, a: Name)
    requires Respects(dag, order) && Ahead(dag, order, d, s, n) && a != d
    requires CanRun(dag, s, steps) && OneWave(steps, a) && Publishes(steps)
    ensures Ahead(dag, order, d, Run(dag, s, steps), n)
    decreases steps
  {
    if steps != [] {
      AheadStep(dag, order, d, s, steps[0], n);
      assert forall i :: 0 <= i < |steps| - 1 ==> steps[1..][i] == steps[i + 1];
      AheadRun(dag, order, d, Apply(dag, s, steps[0]), steps[1..], n, a);
    }
  }

  // ------------------------------------------------------------------- exactly once

  /** A wave with its outside publish of `a`, in which every build publishes, run to rest. */
  ghost predicate FullWave(dag: Dag, now: nat, steps: seq<Step>, a: Name) {
    && CanRun(dag, Initial(now), steps) && OneWave(steps, a) && Publishes(steps) && Starts(steps)
    && AtRest(Run(dag, Initial(now), steps))
  }

  ghost predicate Starts(steps: seq<Step>) {
    exists i :: 0 <= i < |steps| && steps[i].Notify?
  }

  /** The outside publish has every path before it. */
  lemma {:induction false} StartIsAhead(dag: Dag, order: seq<Name>, s: State, steps: seq<Step>, a: Name, d: Name)
    requires Respects(dag, order) && Paths(dag, order, d, a) >= 1 && a != d
    requires CanRun(dag, s, steps) && OneWave(steps, a) && Publishes(steps) && Starts(steps)
    requires Publications(s.sent, d) == 0 && s.publishes == [] && s.pending == map[] && s.requests == []
    requires s.building.None?
    ensures Ahead(dag, order, d, Run(dag, s, steps), 0)
    decreases steps
  {
    var i :| 0 <= i < |steps| && steps[i].Notify?;
    var t, rest := Apply(dag, s, steps[0]), steps[1..];
    assert forall k :: 0 <= k < |rest| ==> rest[k] == steps[k + 1];
    if steps[0].Notify? {
      LevelNotify(dag, ToPublish(dag, order, d), s, a, steps[0].buildStart);
      PublicationsAppend(s.sent, Publish(a, steps[0].buildStart, s.now), d);
      AheadRun(dag, order, d, t, rest, 0, a);
    } else {
      assert rest[i - 1].Notify?;
      StartIsAhead(dag, order, t, rest, a, d);
    }
  }

  /** A wave whose builds all publish leaves out nothing it reaches. */
  lemma FullWaveRefreshes(dag: Dag, order: seq<Name>, now: nat, steps: seq<Step>, a: Name, d: Name)
    requires Respects(dag, order) && FullWave(dag, now, steps, a) && a != d && Reaches(dag, a, d)
    ensures Publications(Run(dag, Initial(now), steps).sent, d) >= 1
  {
    var p :| IsPath(dag, p, a, d);
    PathCounts(dag, order, p, a, d);
    StartIsAhead(dag, order, Initial(now), steps, a, d);
  }

  /** Every such wave refreshes `d` exactly once. */
  ghost predicate RefreshedOnce(dag: Dag, a: Name, d: Name) {
    forall now: nat, steps :: FullWave(dag, now, steps, a) ==> Publications(Run(dag, Initial(now), steps).sent, d) == 1
  }

  /** Every such wave with a prompt engine does. */
  ghost predicate RefreshedOncePromptEngine(dag: Dag, a: Name, d: Name) {
    forall now: nat, steps :: FullWave(dag, now, steps, a) && IsEngineWave(dag, now, steps, a) ==>
      Publications(Run(dag, Initial(now), steps).sent, d) == 1
  }

  /** Whatever the windows and timeouts: every settled wave whose builds publish refreshes `d` exactly
      once when exactly one path leads there from `a`, and on no other graph, prompt engine or not. */
  lemma RefreshedOnceExactly(dag: Dag, order: seq<Name>, a: Name, d: Name)
    requires Respects(dag, order) && a != d
    ensures RefreshedOnce(dag, a, d) <==> AtMostOnePath(dag, a, d) && Reaches(dag, a, d)
    ensures RefreshedOncePromptEngine(dag, a, d) <==> AtMostOnePath(dag, a, d) && Reaches(dag, a, d)
  {
    if AtMostOnePath(dag, a, d) && Reaches(dag, a, d) {
      forall now: nat, steps | FullWave(dag, now, steps, a)
        ensures Publications(Run(dag, Initial(now), steps).sent, d) == 1
      {
        FullWaveRefreshes(dag, order, now, steps, a, d);
        RefreshesAndRequests(dag, now, steps, a, d);
        OnePathIsOnce(dag, order, a, d, now, steps);
      }
    } else {
      var wave := PathsAreAttained(dag, order, a, d);
      RefreshesAndRequests(dag, 0, wave, a, d);
      PathsAreOneExactly(dag, order, a, d);
      if Paths(dag, order, d, a) == 1 {
        var p := SomePath(dag, order, d, a, |DependentsOf(dag, a)|);
        assert Reaches(dag, a, d);
      }
      assert FullWave(dag, 0, wave, a);
    }
  }
}
