/** Waves come to rest: a cascade is at rest exactly when no waiting helps, every run can be
    continued to rest, and at rest every upstream publish has been answered. */
module CascadeSettles {
  import opened Config
  import opened Cascade
  import opened CascadeReports
  import opened CascadeSafety
  import opened CascadeTermination
  import opened CascadeSetup

  ghost predicate AtRest(s: State) {
    s.publishes == [] && s.pending == map[] && s.requests == [] && s.building.None?
  }

  /** After waiting long enough, some receive, fire or serve step can be taken. */
  ghost predicate WorkAhead(dag: Dag, s: State, wait: nat, step: Step) {
    IsWork(step) && Enabled(Apply(dag, s, Advance(wait)), step)
  }

  /** However long one waits, no receive, fire or serve step can be taken. */
  ghost predicate Exhausted(dag: Dag, s: State) {
    forall wait: nat, step :: !WorkAhead(dag, s, wait, step)
  }

  /** Some run without outside publishes leads to rest. */
  ghost predicate CanRest(dag: Dag, s: State) {
    exists steps :: CanRun(dag, s, steps) && Quiet(steps) && AtRest(Run(dag, s, steps))
  }

  lemma NeverStuck(dag: Dag, s: State) returns (wait: nat, step: Step)
    requires !AtRest(s)
    ensures WorkAhead(dag, s, wait, step)
  {
    wait := 0;
    if s.publishes != [] {
      step := Receive;
    } else if s.building.Some? {
      step := Finish(Coalesced);
    } else if s.requests != [] {
      step := Begin;
    } else {
      assert s.pending.Keys != {};
      var d :| d in s.pending;
      if s.pending[d].fireAt > s.now { wait := s.pending[d].fireAt - s.now; }
      step := Fire(d);
    }
  }

  /** The protocol has no deadlock: it can do no more work, however long it waits, exactly when
      every queue is empty. */
  lemma RestIsExact(dag: Dag, s: State)
    ensures AtRest(s) <==> Exhausted(dag, s)
  {
    if !AtRest(s) {
      var wait, step := NeverStuck(dag, s);
    }
  }

  /** On a graph that follows an order, every state can be continued to rest, with no outside
      publish and within the work owed. */
  lemma {:induction false} CanSettle(dag: Dag, order: seq<Name>, s: State) returns (steps: seq<Step>)
    requires Respects(dag, order)
    ensures CanRun(dag, s, steps) && Quiet(steps) && AtRest(Run(dag, s, steps))
    decreases Owed(dag, order, s)
  {
    if AtRest(s) {
      steps := [];
    } else {
      var wait, step := NeverStuck(dag, s);
      var t := Apply(dag, s, Advance(wait));
      var u := Apply(dag, t, step);
      StepSpends(dag, order, s, Advance(wait));
      StepSpends(dag, order, t, step);
      var rest := CanSettle(dag, order, u);
      RunCons(dag, t, step, rest);
      RunCons(dag, s, Advance(wait), [step] + rest);
      steps := [Advance(wait)] + ([step] + rest);
    }
  }

  /** At rest nothing is outstanding: every publish that a step reports was received, every request emitted was
      served, and every upstream publish was followed by a requested refresh of each dependent or
      by a build of it that began after the publish was received. */
  lemma RestAnswersAll(dag: Dag, now: nat, steps: seq<Step>)
    requires CanRun(dag, Initial(now), steps) && AtRest(Run(dag, Initial(now), steps))
    ensures var t := Run(dag, Initial(now), steps);
            && t.sent == Messages(t.log) == Reports(now, steps) && t.served == Emissions(t.log)
            && forall i, d :: 0 <= i < |t.log| && IsTrigger(dag, t.log[i], d) ==> Answered(t.log, i, d)
  {
    ChannelsExactAlways(dag, Initial(now), steps);
    SentIsReported(dag, now, steps);
    NoTriggerLost(dag, Initial(now), steps);
  }

  /** On an accepted configuration the working steps of the quiet runs from a state are bounded, the
      runs with no work left have come to rest, and all others can be continued to rest. */
  lemma AcceptedSettles(ds: seq<Dataset>, order: seq<nat>, s: State) returns (bound: nat)
    requires Accepted(ds, order)
    ensures forall steps | CanRun(CascadeDag(ds), s, steps) && Quiet(steps) ::
      && WorkSteps(steps) <= bound
      && (Exhausted(CascadeDag(ds), Run(CascadeDag(ds), s, steps)) ==> AtRest(Run(CascadeDag(ds), s, steps)))
      && CanRest(CascadeDag(ds), Run(CascadeDag(ds), s, steps))
  {
    AcceptedRespects(ds, order);
    var dag, names := CascadeDag(ds), NamesInOrder(ds, order);
    bound := Owed(dag, names, s);
    forall steps | CanRun(dag, s, steps) && Quiet(steps)
      ensures WorkSteps(steps) <= bound
      ensures Exhausted(dag, Run(dag, s, steps)) ==> AtRest(Run(dag, s, steps))
      ensures CanRest(dag, Run(dag, s, steps))
    {
      WavesTerminate(dag, names, s, steps);
      RestIsExact(dag, Run(dag, s, steps));
      var settling := CanSettle(dag, names, Run(dag, s, steps));
    }
  }
}
