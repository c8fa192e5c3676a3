/** Runs on time, and how far a wave waits: with every component prompt, a dataset is requested only
    after all its upstreams in the wave have published exactly when it has one upstream there. */
module CascadePrompt {
  import opened Config
  import opened Cascade
  import opened CascadeSafety
  import opened CascadeDebounce
  import opened CascadeTermination
  import opened CascadeSettles
  import opened CascadeSetup
  import opened CascadeRuns
  import opened CascadePaths
  import opened CascadeWaves
  import opened CascadeRefreshes

  /** Time passes only when nobody is late: beside the engine's duties no request waits for an idle
      scheduler and no build runs out of time in between. */
  ghost predicate OnTime(s: State, step: Step) {
    && EngineOnTime(s, step)
    && (step.Advance? && step.delta > 0 ==>
          && (s.requests == [] || s.building.Some?)
          && (s.building.Some? ==> s.now + step.delta <= s.building.value.since + s.building.value.request.timeout))
  }

  /** A run in which engine and scheduler are on time and builds keep to their timeouts. */
  ghost predicate PromptRun(dag: Dag, s: State, steps: seq<Step>)
    decreases steps
  {
    steps == []
    || (Enabled(s, steps[0]) && OnTime(s, steps[0]) && PromptRun(dag, Apply(dag, s, steps[0]), steps[1..]))
  }

  /** `steps` is a prompt run from `s` to `t`, firing in batches, with no publish from outside. */
  ghost predicate PromptLeads(dag: Dag, s: State, steps: seq<Step>, t: State) {
    PromptRun(dag, s, steps) && EngineLeads(dag, s, steps, t)
  }

  lemma PromptOn(dag: Dag, s: State, x: Step, t: State, steps: seq<Step>, u: State)
    requires Enabled(s, x) && OnTime(s, x) && t == Apply(dag, s, x) && !x.Notify? && PromptLeads(dag, t, steps, u)
    requires x.Fire? && SomeDue(t) ==> steps != [] && steps[0].Fire?
    ensures PromptLeads(dag, s, [x] + steps, u)
  {
    EngineOn(dag, s, x, t, steps, u);
    assert ([x] + steps)[1..] == steps;
  }

  lemma {:induction false} PromptJoin(dag: Dag, s: State, x: seq<Step>, t: State, y: seq<Step>, u: State)
    requires PromptLeads(dag, s, x, t) && PromptLeads(dag, t, y, u)
    ensures PromptLeads(dag, s, x + y, u)
    decreases x
  {
    if x == [] {
      assert x + y == y;
    } else {
      var v := Apply(dag, s, x[0]);
      PromptJoin(dag, v, x[1..], t, y, u);
      PromptOn(dag, s, x[0], v, x[1..] + y, u);
      assert x + y == [x[0]] + (x[1..] + y);
    }
  }

  /** A prompt run, firing in batches, with at most one outside publish, of `a`. */
  ghost predicate IsPromptWave(dag: Dag, now: nat, steps: seq<Step>, a: Name) {
    IsEngineWave(dag, now, steps, a) && PromptRun(dag, Initial(now), steps)
  }

  lemma PromptWave(dag: Dag, now: nat, a: Name, steps: seq<Step>, t: State) returns (wave: seq<Step>)
    requires PromptLeads(dag, AfterPublish(dag, now, a), steps, t)
    ensures IsPromptWave(dag, now, wave, a) && Run(dag, Initial(now), wave) == t
    ensures wave == [Notify(a, now), Receive] + steps
  {
    wave := EngineWave(dag, now, a, steps, t);
    assert wave[1..] == [Receive] + steps && wave[1..][1..] == steps;
  }

  // ---------------------------------------------------------- a wave that serves a choice

  /** Of the datasets served exactly the chosen ones were published, beside `a` from outside. */
  ghost predicate Selected(s: State, chosen: Name -> bool, a: Name) {
    && (forall x :: Sent(s.sent, x) ==> chosen(x) || x == a)
    && (forall i :: 0 <= i < |s.served| && chosen(s.served[i].name) ==> Sent(s.sent, s.served[i].name))
  }

  ghost predicate Begun(s: State) {
    s.building.Some? ==> s.building.value.since <= s.now
  }

  /** The outcome of the running build. */
  function Choice(s: State, chosen: Name -> bool): Outcome
    requires s.building.Some?
  {
    if chosen(s.building.value.request.name) then Published(s.now) else Failed
  }

  lemma ServeSelected(dag: Dag, s: State, chosen: Name -> bool, a: Name)
    requires Begun(s) && Selected(s, chosen, a) && s.building.Some?
    ensures Selected(Apply(dag, s, Finish(Choice(s, chosen))), chosen, a)
  {
    var x := s.building.value.request.name;
    var t := Apply(dag, s, Finish(Choice(s, chosen)));
    if chosen(x) {
      SentMore(s.sent, Publish(x, s.now, s.now));
    } else {
      assert t.sent == s.sent;
    }
  }

  /** Something can be done without waiting. */
  ghost predicate Busy(s: State) {
    s.publishes != [] || s.building.Some? || s.requests != [] || SomeDue(s)
  }

  /** The next step of a prompt wave that publishes the chosen datasets. */
  lemma NextSelected(dag: Dag, s: State, chosen: Name -> bool, a: Name) returns (step: Step)
    requires Begun(s) && !AtRest(s)
    ensures Enabled(s, step) && OnTime(s, step) && Begun(Apply(dag, s, step))
    ensures Selected(s, chosen, a) ==> Selected(Apply(dag, s, step), chosen, a)
    ensures if Busy(s) then IsWork(step) else step.Advance? && Busy(Apply(dag, s, step))
    ensures step.Fire? <==> s.publishes == [] && SomeDue(s)
    ensures step.Finish? ==> step == Finish(Choice(s, chosen))
  {
    if s.publishes != [] {
      step := Receive;
    } else if SomeDue(s) {
      var x :| x in s.pending && s.pending[x].fireAt <= s.now;
      step := Fire(x);
    } else if s.building.Some? {
      step := Finish(Choice(s, chosen));
      if Selected(s, chosen, a) { ServeSelected(dag, s, chosen, a); }
      return;
    } else if s.requests != [] {
      step := Begin;
    } else {
      assert s.pending.Keys != {};
      var x := Earliest(s.pending, s.pending.Keys);
      step := Advance(s.pending[x].fireAt - s.now);
      assert SomeDue(Apply(dag, s, step));
    }
    assert Apply(dag, s, step).sent == s.sent && Apply(dag, s, step).served == s.served;
  }

  /** A prompt wave that publishes the chosen datasets, from any state to rest. */
  lemma {:induction false} SettleSelected(dag: Dag, order: seq<Name>, s: State, chosen: Name -> bool, a: Name)
    returns (steps: seq<Step>, t: State)
    requires Respects(dag, order) && Begun(s)
    ensures PromptLeads(dag, s, steps, t) && AtRest(t)
    ensures Selected(s, chosen, a) ==> Selected(t, chosen, a)
    ensures (forall x :: chosen(x)) ==> Publishes(steps)
    ensures s.publishes == [] && SomeDue(s) ==> steps != [] && steps[0].Fire?
    decreases Owed(dag, order, s), if Busy(s) then 0 else 1
  {
    if AtRest(s) {
      steps, t := [], s;
    } else {
      var step := NextSelected(dag, s, chosen, a);
      var u := Apply(dag, s, step);
      StepSpends(dag, order, s, step);
      var rest;
      rest, t := SettleSelected(dag, order, u, chosen, a);
      PromptOn(dag, s, step, u, rest, t);
      steps := [step] + rest;
    }
  }

  // ------------------------------------------------------------ what such a wave reaches

  /** A state of rest at the end of a wave, with what every such state has. */
  ghost predicate Settled(dag: Dag, t: State, chosen: Name -> bool, a: Name) {
    && Selected(t, chosen, a) && t.sent == Messages(t.log) && t.served == Emissions(t.log)
    && forall i, d :: 0 <= i < |t.log| && IsTrigger(dag, t.log[i], d) ==> Answered(t.log, i, d)
  }

  /** At rest, a follower of what was received was requested or published. */
  lemma FollowerAnswered(dag: Dag, t: State, chosen: Name -> bool, a: Name, x: Name, y: Name)
    requires Settled(dag, t, chosen, a) && ReceivedFrom(t, x) && Triggers(dag, x, y)
    ensures ReceivedFrom(t, y) || Requested(t.log, y) >= 1
    ensures chosen(y) ==> ReceivedFrom(t, y)
  {
    var i :| 0 <= i < |t.log| && t.log[i].Received? && t.log[i].msg.name == x;
    assert IsTrigger(dag, t.log[i], y);
    var j :| i < j < |t.log| && Answers(t.log[j], y, At(t.log[i]));
    if t.log[j].Emitted? {
      EmittedIsEmission(t.log, j, y);
      if chosen(y) {
        assert t.log[j].request in t.served;
        SentIsReceived(t, y);
      }
    }
  }

  lemma {:induction false} PathIsReceived(dag: Dag, t: State, chosen: Name -> bool, a: Name, p: seq<Name>, x: Name,
          u: Name)
    requires Settled(dag, t, chosen, a) && IsPath(dag, p, x, u) && ReceivedFrom(t, x)
    requires forall y :: y in p[1..] ==> chosen(y)
    ensures ReceivedFrom(t, u)
    decreases |p|
  {
    if |p| > 1 {
      PathRest(dag, p, x, u);
      assert p[1] in p[1..];
      FollowerAnswered(dag, t, chosen, a, x, p[1]);
      PathIsReceived(dag, t, chosen, a, p[1..], p[1], u);
    }
  }

  /** A prompt wave that publishes only the datasets along a path requests what its end triggers. */
  lemma WaveAlong(dag: Dag, order: seq<Name>, p: seq<Name>, a: Name, u: Name, d: Name)
    returns (wave: seq<Step>, t: State)
    requires Respects(dag, order) && IsPath(dag, p, a, u) && Triggers(dag, u, d)
    ensures IsPromptWave(dag, 0, wave, a) && t == Run(dag, Initial(0), wave)
    ensures Requested(t.log, d) >= 1 && forall x :: Sent(t.sent, x) ==> x in p
  {
    var chosen := (x: Name) => x in p;
    var s := AfterPublish(dag, 0, a);
    assert s.sent == [] + [Publish(a, 0, 0)];
    SentMore([], Publish(a, 0, 0));
    assert forall x :: !Sent(Initial(0).sent, x);
    var steps;
    steps, t := SettleSelected(dag, order, s, chosen, a);
    wave := PromptWave(dag, 0, a, steps, t);
    RestAnswersAll(dag, 0, wave);
    SentStays(dag, s, steps, a);
    SentIsReceived(t, a);
    PathIsReceived(dag, t, chosen, a, p, a, u);
    FollowerAnswered(dag, t, chosen, a, u, d);
    if ReceivedFrom(t, d) {
      SentIsReceived(t, d);
      TriggersRankUp(dag, order, u, d);
      PathRanksUp(dag, order, p, a, u, d);
    }
  }

  // ---------------------------------------------------------------- waiting for the wave

  ghost predicate OneUpstream(dag: Dag, a: Name, d: Name) {
    forall u, v :: UpstreamInWave(dag, a, d, u) && UpstreamInWave(dag, a, d, v) ==> u == v
  }

  ghost predicate AllPublished(dag: Dag, a: Name, d: Name, t: State) {
    forall u :: UpstreamInWave(dag, a, d, u) ==> Sent(t.sent, u)
  }

  ghost predicate Waited(dag: Dag, a: Name, d: Name, t: State) {
    Requested(t.log, d) >= 1 ==> AllPublished(dag, a, d, t)
  }

  /** In every prompt run with one outside publish of `a`, once `d` is requested all its upstreams in
      the wave have published. */
  ghost predicate WaitsForWave(dag: Dag, a: Name, d: Name) {
    forall now: nat, steps :: IsPromptWave(dag, now, steps, a) ==> Waited(dag, a, d, Run(dag, Initial(now), steps))
  }

  /** The upstreams of one dataset have different ranks when a wave reaches them. */
  lemma UpstreamsDiffer(dag: Dag, order: seq<Name>, a: Name, d: Name, u: Name, v: Name)
    requires Respects(dag, order) && UpstreamInWave(dag, a, d, u) && UpstreamInWave(dag, a, d, v)
    requires Rank(order, u) == Rank(order, v)
    ensures u == v
  {
    var p :| IsPath(dag, p, a, u);
    var q :| IsPath(dag, q, a, v);
    PathRanksUp(dag, order, p, a, u, a);
    PathRanksUp(dag, order, q, a, v, a);
    RankIn(order, u);
    RankIn(order, v);
  }

  /** The upstream of lower rank may be served alone: the other one is not on the way to it. */
  lemma LowerGoesFirst(dag: Dag, order: seq<Name>, a: Name, d: Name, u: Name, v: Name)
    requires Respects(dag, order) && UpstreamInWave(dag, a, d, u) && UpstreamInWave(dag, a, d, v)
    requires Rank(order, u) < Rank(order, v)
    ensures !WaitsForWave(dag, a, d)
  {
    var p :| IsPath(dag, p, a, u);
    var wave, t := WaveAlong(dag, order, p, a, u, d);
    if v in p { PathRanksUp(dag, order, p, a, u, v); }
    assert !Sent(t.sent, v);
    assert !Waited(dag, a, d, t);
  }

  /** Whatever the windows and timeouts: a dataset waits for all its upstreams of a wave exactly when
      the wave has one upstream of it. Otherwise there is a prompt run in which it does not. */
  lemma WaitsExactly(dag: Dag, order: seq<Name>, a: Name, d: Name)
    requires Respects(dag, order)
    ensures WaitsForWave(dag, a, d) <==> OneUpstream(dag, a, d)
  {
    if OneUpstream(dag, a, d) {
      forall now: nat, steps | IsPromptWave(dag, now, steps, a)
        ensures Waited(dag, a, d, Run(dag, Initial(now), steps))
      {
        KnownAlways(dag, a, Initial(now), steps);
      }
    } else {
      var u, v :| UpstreamInWave(dag, a, d, u) && UpstreamInWave(dag, a, d, v) && u != v;
      if Rank(order, u) < Rank(order, v) {
        LowerGoesFirst(dag, order, a, d, u, v);
      } else {
        if Rank(order, u) == Rank(order, v) { UpstreamsDiffer(dag, order, a, d, u, v); }
        LowerGoesFirst(dag, order, a, d, v, u);
      }
    }
  }

  /** These answers for every configuration that the topological check accepts. */
  lemma AcceptedWaves(ds: seq<Dataset>, order: seq<nat>, a: Name, d: Name)
    requires Accepted(ds, order)
    ensures Once(CascadeDag(ds), a, d) <==> AtMostOnePath(CascadeDag(ds), a, d)
    ensures OncePromptEngine(CascadeDag(ds), a, d) <==> AtMostOnePath(CascadeDag(ds), a, d)
    ensures a != d ==>
      (RefreshedOnce(CascadeDag(ds), a, d) <==> AtMostOnePath(CascadeDag(ds), a, d) && Reaches(CascadeDag(ds), a, d))
    ensures WaitsForWave(CascadeDag(ds), a, d) <==> OneUpstream(CascadeDag(ds), a, d)
  {
    AcceptedRespects(ds, order);
    OnceExactly(CascadeDag(ds), NamesInOrder(ds, order), a, d);
    if a != d { RefreshedOnceExactly(CascadeDag(ds), NamesInOrder(ds, order), a, d); }
    WaitsExactly(CascadeDag(ds), NamesInOrder(ds, order), a, d);
  }
}
