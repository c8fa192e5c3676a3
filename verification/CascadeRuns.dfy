/** Composing runs of the cascade protocol. */
module CascadeRuns {
  import opened Cascade
  import opened CascadeTermination

  lemma {:induction false} RunAppend(dag: Dag, s: State, x: seq<Step>, y: seq<Step>)
    requires CanRun(dag, s, x) && CanRun(dag, Run(dag, s, x), y)
    ensures CanRun(dag, s, x + y) && Run(dag, s, x + y) == Run(dag, Run(dag, s, x), y)
    decreases x
  {
    if x == [] {
      assert x + y == y;
    } else {
      RunAppend(dag, Apply(dag, s, x[0]), x[1..], y);
      assert x + y == [x[0]] + (x[1..] + y);
      RunCons(dag, s, x[0], x[1..] + y);
    }
  }

  /** `steps` is a run from `s` to `t` with no publish from outside. */
  ghost predicate Leads(dag: Dag, s: State, steps: seq<Step>, t: State) {
    CanRun(dag, s, steps) && Run(dag, s, steps) == t && Quiet(steps)
  }

  lemma LeadsOn(dag: Dag, s: State, x: Step, t: State, steps: seq<Step>, u: State)
    requires Enabled(s, x) && t == Apply(dag, s, x) && !x.Notify? && Leads(dag, t, steps, u)
    ensures Leads(dag, s, [x] + steps, u)
  {
    RunCons(dag, s, x, steps);
  }

  lemma LeadsJoin(dag: Dag, s: State, x: seq<Step>, t: State, y: seq<Step>, u: State)
    requires Leads(dag, s, x, t) && Leads(dag, t, y, u)
    ensures Leads(dag, s, x + y, u)
  {
    RunAppend(dag, s, x, y);
  }

  /** Every build publishes. */
  ghost predicate Publishes(steps: seq<Step>) {
    forall i :: 0 <= i < |steps| && steps[i].Finish? ==> steps[i].outcome.Published?
  }

  // ------------------------------------------------------------------- a prompt engine

  ghost predicate SomeDue(s: State) {
    exists x :: x in s.pending && s.pending[x].fireAt <= s.now
  }

  /** Time passes only when no message waits for the engine, and not past a pending entry's due time. */
  ghost predicate EngineOnTime(s: State, step: Step) {
    step.Advance? && step.delta > 0 ==>
      s.publishes == [] && forall x :: x in s.pending ==> s.now + step.delta <= s.pending[x].fireAt
  }

  /** The engine requests every due entry in one batch: once it fires, it fires until none is due. */
  ghost predicate FinishesBatch(dag: Dag, s: State, steps: seq<Step>)
    requires steps != [] && Enabled(s, steps[0])
  {
    steps[0].Fire? && SomeDue(Apply(dag, s, steps[0])) ==> |steps| > 1 && steps[1].Fire?
  }

  /** A run in which the engine is on time and fires in batches. */
  ghost predicate EngineRun(dag: Dag, s: State, steps: seq<Step>)
    decreases steps
  {
    steps == []
    || (Enabled(s, steps[0]) && EngineOnTime(s, steps[0]) && FinishesBatch(dag, s, steps)
        && EngineRun(dag, Apply(dag, s, steps[0]), steps[1..]))
  }

  /** `steps` is such a run from `s` to `t` with no publish from outside. */
  ghost predicate EngineLeads(dag: Dag, s: State, steps: seq<Step>, t: State) {
    EngineRun(dag, s, steps) && Leads(dag, s, steps, t)
  }

  lemma EngineOn(dag: Dag, s: State, x: Step, t: State, steps: seq<Step>, u: State)
    requires Enabled(s, x) && EngineOnTime(s, x) && t == Apply(dag, s, x) && !x.Notify?
    requires EngineLeads(dag, t, steps, u) && (x.Fire? && SomeDue(t) ==> steps != [] && steps[0].Fire?)
    ensures EngineLeads(dag, s, [x] + steps, u)
  {
    LeadsOn(dag, s, x, t, steps, u);
    assert ([x] + steps)[1..] == steps;
  }

  lemma {:induction false} EngineJoin(dag: Dag, s: State, x: seq<Step>, t: State, y: seq<Step>, u: State)
    requires EngineLeads(dag, s, x, t) && EngineLeads(dag, t, y, u)
    ensures EngineLeads(dag, s, x + y, u)
    decreases x
  {
    if x == [] {
      assert x + y == y;
    } else {
      var v := Apply(dag, s, x[0]);
      EngineJoin(dag, v, x[1..], t, y, u);
      EngineOn(dag, s, x[0], v, x[1..] + y, u);
      assert x + y == [x[0]] + (x[1..] + y);
    }
  }

  /** An entry that is due first. */
  lemma {:induction false} Earliest(pending: PendingMap, names: set<Name>) returns (x: Name)
    requires names != {} && names <= pending.Keys
    ensures x in names && forall y :: y in names ==> pending[x].fireAt <= pending[y].fireAt
    decreases names
  {
    x :| x in names;
    if names != {x} {
      assert names - {x} != {};
      var y := Earliest(pending, names - {x});
      if pending[y].fireAt < pending[x].fireAt { x := y; }
    }
  }

  /** At most one publish from outside, and of `a`. */
  ghost predicate OneWave(steps: seq<Step>, a: Name) {
    && (forall i :: 0 <= i < |steps| && steps[i].Notify? ==> steps[i].name == a)
    && (forall i, j :: 0 <= i < j < |steps| && steps[i].Notify? ==> !steps[j].Notify?)
  }

  /** An outside publish of `a`, received at once, and then a quiet run. */
  lemma WaveOf(dag: Dag, now: nat, a: Name, u: State, steps: seq<Step>, t: State) returns (wave: seq<Step>)
    requires u == AfterPublish(dag, now, a) && Leads(dag, u, steps, t)
    ensures CanRun(dag, Initial(now), wave) && Run(dag, Initial(now), wave) == t && OneWave(wave, a)
    ensures wave == [Notify(a, now), Receive] + steps
  {
    var s := Initial(now);
    var sent := Apply(dag, s, Notify(a, now));
    LeadsOn(dag, sent, Receive, u, steps, t);
    RunCons(dag, s, Notify(a, now), [Receive] + steps);
    wave := [Notify(a, now)] + ([Receive] + steps);
    assert wave == [Notify(a, now), Receive] + steps;
  }

  lemma EngineWave(dag: Dag, now: nat, a: Name, steps: seq<Step>, t: State) returns (wave: seq<Step>)
    requires EngineLeads(dag, AfterPublish(dag, now, a), steps, t)
    ensures IsEngineWave(dag, now, wave, a) && Run(dag, Initial(now), wave) == t
    ensures wave == [Notify(a, now), Receive] + steps
  {
    wave := WaveOf(dag, now, a, AfterPublish(dag, now, a), steps, t);
    assert wave[1..] == [Receive] + steps && wave[1..][1..] == steps;
  }

  /** A run with at most one outside publish, of `a`, and a prompt engine. */
  ghost predicate IsEngineWave(dag: Dag, now: nat, steps: seq<Step>, a: Name) {
    CanRun(dag, Initial(now), steps) && EngineRun(dag, Initial(now), steps) && OneWave(steps, a)
  }

  /** The state when a publish of `a` at the start of time has been received. */
  function AfterPublish(dag: Dag, now: nat, a: Name): State {
    Apply(dag, Apply(dag, Initial(now), Notify(a, now)), Receive)
  }
}
