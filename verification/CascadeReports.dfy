/** What a run reports, told from its steps alone: which publishes were made, when each was made, and
    when the build behind it began. */
module CascadeReports {
  import opened Wrappers
  import opened Cascade

  /** The clock after some steps. */
  function Clock(now: nat, steps: seq<Step>): nat {
    if steps == [] then now
    else
      var n := |steps| - 1;
      Clock(now, steps[..n]) + if steps[n].Advance? then steps[n].delta else 0
  }

  /** The datasets requested, in order. */
  function Fired(steps: seq<Step>): seq<Name> {
    if steps == [] then []
    else
      var n := |steps| - 1;
      Fired(steps[..n]) + if steps[n].Fire? then [steps[n].name] else []
  }

  /** When each build began. */
  function Begins(now: nat, steps: seq<Step>): seq<nat> {
    if steps == [] then []
    else
      var n := |steps| - 1;
      Begins(now, steps[..n]) + if steps[n].Begin? then [Clock(now, steps[..n])] else []
  }

  /** How many builds have ended. */
  function Ended(steps: seq<Step>): nat {
    if steps == [] then 0
    else
      var n := |steps| - 1;
      Ended(steps[..n]) + if steps[n].Finish? then 1 else 0
  }

  /** The publish that `step` reports after `front`: from outside, or by the build that ends, which is
      that of the first request not yet served. */
  function Report(now: nat, front: seq<Step>, step: Step): Option<Publish> {
    match step
    case Notify(name, buildStart) => Some(Publish(name, buildStart, Clock(now, front)))
    case Finish(Published(buildStart)) =>
      if Ended(front) < |Fired(front)| then Some(Publish(Fired(front)[Ended(front)], buildStart, Clock(now, front)))
      else None
    case _ => None
  }

  function Reports(now: nat, steps: seq<Step>): seq<Publish> {
    if steps == [] then []
    else
      var n := |steps| - 1;
      var last := Report(now, steps[..n], steps[n]);
      Reports(now, steps[..n]) + if last.Some? then [last.value] else []
  }

  /** Step `k` reports `m`. */
  ghost predicate ReportedAt(now: nat, steps: seq<Step>, k: int, m: Publish) {
    0 <= k < |steps| && Report(now, steps[..k], steps[k]) == Some(m)
  }

  lemma {:induction false} ReportHasStep(now: nat, steps: seq<Step>, m: Publish) returns (k: nat)
    requires m in Reports(now, steps)
    ensures ReportedAt(now, steps, k, m)
  {
    var n := |steps| - 1;
    if m in Reports(now, steps[..n]) {
      k := ReportHasStep(now, steps[..n], m);
      assert steps[..n][..k] == steps[..k];
    } else {
      k := n;
    }
  }

  // ------------------------------------------------------------- the state is as reported

  function NamesOf(requests: seq<Request>): (names: seq<Name>)
    ensures |names| == |requests| && forall k :: 0 <= k < |names| ==> names[k] == requests[k].name
  {
    seq(|requests|, k requires 0 <= k < |requests| => requests[k].name)
  }

  /** Clock, requests, builds and publishes of a state are those of the steps that led to it. */
  ghost predicate Told(s: State, now: nat, done: seq<Step>) {
    && s.now == Clock(now, done) && s.sent == Reports(now, done) && |s.served| == Ended(done)
    && (if s.building.Some?
        then Fired(done) == NamesOf(s.served) + [s.building.value.request.name] + NamesOf(s.requests)
             && |Begins(now, done)| == |s.served| + 1 && Begins(now, done)[|s.served|] == s.building.value.since
        else Fired(done) == NamesOf(s.served) + NamesOf(s.requests) && |Begins(now, done)| == |s.served|)
  }

  lemma OneMore(now: nat, done: seq<Step>, x: Step)
    ensures Clock(now, done + [x]) == Clock(now, done) + if x.Advance? then x.delta else 0
    ensures Fired(done + [x]) == Fired(done) + if x.Fire? then [x.name] else []
    ensures Begins(now, done + [x]) == Begins(now, done) + if x.Begin? then [Clock(now, done)] else []
    ensures Ended(done + [x]) == Ended(done) + if x.Finish? then 1 else 0
    ensures var last := Report(now, done, x);
            Reports(now, done + [x]) == Reports(now, done) + if last.Some? then [last.value] else []
  {
    assert (done + [x])[..|done|] == done;
  }

  lemma ToldFinish(dag: Dag, s: State, now: nat, done: seq<Step>, outcome: Outcome)
    requires Told(s, now, done) && Enabled(s, Finish(outcome))
    ensures Told(Apply(dag, s, Finish(outcome)), now, done + [Finish(outcome)])
  {
    var t, request := Apply(dag, s, Finish(outcome)), s.building.value.request;
    OneMore(now, done, Finish(outcome));
    assert NamesOf(s.served + [request]) == NamesOf(s.served) + [request.name];
    assert Fired(done)[|s.served|] == request.name;
  }

  lemma ToldFire(dag: Dag, s: State, now: nat, done: seq<Step>, d: Name)
    requires Told(s, now, done) && Enabled(s, Fire(d))
    ensures Told(Apply(dag, s, Fire(d)), now, done + [Fire(d)])
  {
    var request := Request(d, s.pending[d].timeout);
    OneMore(now, done, Fire(d));
    assert NamesOf(s.requests + [request]) == NamesOf(s.requests) + [d];
  }

  lemma FirstMoves(served: seq<Name>, requests: seq<Request>)
    requires requests != []
    ensures served + NamesOf(requests) == served + [requests[0].name] + NamesOf(requests[1..])
  {
    var first, rest := [requests[0].name], NamesOf(requests[1..]);
    assert NamesOf(requests) == first + rest;
    assert served + (first + rest) == served + first + rest;
  }

  lemma ToldBegin(dag: Dag, s: State, now: nat, done: seq<Step>)
    requires Told(s, now, done) && Enabled(s, Begin)
    ensures Told(Apply(dag, s, Begin), now, done + [Begin])
  {
    OneMore(now, done, Begin);
    FirstMoves(NamesOf(s.served), s.requests);
  }

  lemma ToldStep(dag: Dag, s: State, now: nat, done: seq<Step>, x: Step)
    requires Told(s, now, done) && Enabled(s, x)
    ensures Told(Apply(dag, s, x), now, done + [x])
  {
    match x
    case Fire(d) => ToldFire(dag, s, now, done, d);
    case Begin => ToldBegin(dag, s, now, done);
    case Finish(outcome) => ToldFinish(dag, s, now, done, outcome);
    case _ => OneMore(now, done, x);
  }

  lemma {:induction false} ToldRun(dag: Dag, s: State, now: nat, done: seq<Step>, steps: seq<Step>)
    requires Told(s, now, done) && CanRun(dag, s, steps)
    ensures Told(Run(dag, s, steps), now, done + steps)
    decreases steps
  {
    if steps == [] {
      assert done + steps == done;
    } else {
      ToldStep(dag, s, now, done, steps[0]);
      ToldRun(dag, Apply(dag, s, steps[0]), now, done + [steps[0]], steps[1..]);
      assert done + [steps[0]] + steps[1..] == done + steps;
    }
  }

  /** In every run exactly the publishes that its steps report are sent, in order, each with the name and
      the build start given by the step, stamped with the time of the step. */
  lemma SentIsReported(dag: Dag, now: nat, steps: seq<Step>)
    requires CanRun(dag, Initial(now), steps)
    ensures var t := Run(dag, Initial(now), steps); t.sent == Reports(now, steps) && t.now == Clock(now, steps)
  {
    ToldRun(dag, Initial(now), now, [], steps);
    assert [] + steps == steps;
  }

  // ------------------------------------------------------------------- builds in between

  /** Up to any step a run is a run, after which the step can be taken. */
  lemma {:induction false} PrefixRuns(dag: Dag, s: State, steps: seq<Step>, k: nat)
    requires CanRun(dag, s, steps) && k < |steps|
    ensures CanRun(dag, s, steps[..k]) && Enabled(Run(dag, s, steps[..k]), steps[k])
    decreases k
  {
    if k > 0 {
      PrefixRuns(dag, Apply(dag, s, steps[0]), steps[1..], k - 1);
      assert steps[..k][1..] == steps[1..][..k - 1];
    }
  }

  /** A build that publishes reports a start between its own begin and its end; an outside publish one
      that is not in the future. */
  lemma BuildStartsAreReal(dag: Dag, now: nat, steps: seq<Step>, k: nat)
    requires CanRun(dag, Initial(now), steps) && k < |steps|
    ensures steps[k].Finish? ==> Ended(steps[..k]) < |Begins(now, steps[..k])|
    ensures steps[k].Finish? && steps[k].outcome.Published? ==>
      Begins(now, steps[..k])[Ended(steps[..k])] <= steps[k].outcome.buildStart <= Clock(now, steps[..k])
    ensures steps[k].Notify? ==> steps[k].buildStart <= Clock(now, steps[..k])
  {
    PrefixRuns(dag, Initial(now), steps, k);
    ToldRun(dag, Initial(now), now, [], steps[..k]);
    assert [] + steps[..k] == steps[..k];
  }

  /** A publish of `d` from outside, received at once, clears the entry of `d` exactly when its build
      began no earlier than the last trigger; otherwise the entry stays as it was. */
  lemma ReloadClearsExactly(dag: Dag, s: State, d: Name, buildStart: nat)
    requires s.publishes == [] && buildStart <= s.now && d in s.pending && !Lists(DependentsOf(dag, d), d)
    ensures CanRun(dag, s, [Notify(d, buildStart), Receive])
    ensures var t := Run(dag, s, [Notify(d, buildStart), Receive]);
            if s.pending[d].triggerAt <= buildStart then d !in t.pending
            else d in t.pending && t.pending[d] == s.pending[d]
  {
    var u := Apply(dag, s, Notify(d, buildStart));
    var steps := [Notify(d, buildStart), Receive];
    assert steps[1..] == [Receive] && [Receive][1..] == [];
    assert CanRun(dag, Apply(dag, u, Receive), []);
    assert CanRun(dag, u, [Receive]);
    ArmEntry(Clear(s.pending, d, buildStart), DependentsOf(dag, d), s.now, d);
  }
}
