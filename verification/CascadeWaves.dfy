/** The wave that one outside publish starts: where it spreads, and whom it has requested when it
    comes to rest. */
module CascadeWaves {
  import opened Wrappers
  import opened Cascade
  import opened CascadeSafety
  import opened CascadeDebounce
  import opened CascadeTermination
  import opened CascadeSettles
  import opened CascadeRuns
  import opened CascadePaths

  // ------------------------------------------------------------------------ histories

  ghost predicate Sent(sent: seq<Publish>, x: Name) {
    exists i :: 0 <= i < |sent| && sent[i].name == x
  }

  lemma SentMore(sent: seq<Publish>, msg: Publish)
    ensures forall x :: Sent(sent + [msg], x) <==> Sent(sent, x) || x == msg.name
  {
    forall x ensures Sent(sent + [msg], x) <==> Sent(sent, x) || x == msg.name {
      if Sent(sent, x) {
        var i :| 0 <= i < |sent| && sent[i].name == x;
        assert (sent + [msg])[i].name == x;
      }
      if x == msg.name { assert (sent + [msg])[|sent|].name == x; }
    }
  }

  lemma {:induction false} SentStays(dag: Dag, s: State, steps: seq<Step>, x: Name)
    requires CanRun(dag, s, steps) && Sent(s.sent, x)
    ensures Sent(Run(dag, s, steps).sent, x)
    decreases steps
  {
    if steps != [] {
      var t := Apply(dag, s, steps[0]);
      var i :| 0 <= i < |s.sent| && s.sent[i].name == x;
      assert t.sent[i].name == x;
      SentStays(dag, t, steps[1..], x);
    }
  }

  lemma {:induction false} MessageReceived(log: seq<Event>, m: Publish) returns (i: nat)
    requires m in Messages(log)
    ensures i < |log| && log[i].Received? && log[i].msg == m
  {
    var n := |log| - 1;
    if m in Messages(log[..n]) { i := MessageReceived(log[..n], m); } else { i := n; }
  }

  lemma {:induction false} EmittedIsEmission(log: seq<Event>, i: nat, d: Name)
    requires i < |log| && log[i].Emitted?
    ensures log[i].request in Emissions(log)
    ensures log[i].request.name == d ==> Requested(log, d) >= 1
  {
    var n := |log| - 1;
    if i < n { EmittedIsEmission(log[..n], i, d); }
  }

  ghost predicate ReceivedFrom(t: State, x: Name) {
    exists i :: 0 <= i < |t.log| && t.log[i].Received? && t.log[i].msg.name == x
  }

  /** With every message received, what was sent is what was received. */
  lemma SentIsReceived(t: State, x: Name)
    requires t.sent == Messages(t.log)
    ensures Sent(t.sent, x) <==> ReceivedFrom(t, x)
  {
    if Sent(t.sent, x) {
      var k :| 0 <= k < |t.sent| && t.sent[k].name == x;
      assert t.sent[k] in Messages(t.log);
      var i := MessageReceived(t.log, t.sent[k]);
    }
    if ReceivedFrom(t, x) {
      var i :| 0 <= i < |t.log| && t.log[i].Received? && t.log[i].msg.name == x;
      ReceivedIsMessage(t.log, i);
      assert t.log[i].msg in t.sent;
    }
  }

  // ------------------------------------------------------------------ where it spreads

  ghost predicate Reaches(dag: Dag, a: Name, u: Name) {
    exists p :: IsPath(dag, p, a, u)
  }

  /** `u` triggers `d`, and a wave from `a` can reach it. */
  ghost predicate UpstreamInWave(dag: Dag, a: Name, d: Name, u: Name) {
    Triggers(dag, u, d) && Reaches(dag, a, u)
  }

  lemma ReachesOn(dag: Dag, a: Name, u: Name, v: Name)
    requires Reaches(dag, a, u) && Triggers(dag, u, v)
    ensures Reaches(dag, a, v)
  {
    var p :| IsPath(dag, p, a, u);
    var q := p + [v];
    forall k | 0 <= k < |q| - 1 ensures Triggers(dag, q[k], q[k + 1]) {
      if k < |p| - 1 { assert Triggers(dag, p[k], p[k + 1]); }
    }
    assert IsPath(dag, q, a, v);
  }

  /** A dataset in the wave that has published triggers `x`. */
  ghost predicate Caused(dag: Dag, a: Name, sent: seq<Publish>, x: Name) {
    exists u :: Sent(sent, u) && UpstreamInWave(dag, a, x, u)
  }

  /** Publishes come from the wave, and whatever is pending, queued, building or was requested was caused. */
  ghost predicate Known(dag: Dag, a: Name, s: State) {
    && (forall x :: Sent(s.sent, x) ==> Reaches(dag, a, x))
    && (forall i :: 0 <= i < |s.publishes| ==> Sent(s.sent, s.publishes[i].name))
    && (forall x :: x in s.pending ==> Caused(dag, a, s.sent, x))
    && (forall i :: 0 <= i < |s.requests| ==> Caused(dag, a, s.sent, s.requests[i].name))
    && (s.building.Some? ==> Caused(dag, a, s.sent, s.building.value.request.name))
    && (forall x :: Requested(s.log, x) >= 1 ==> Caused(dag, a, s.sent, x))
  }

  lemma KnownSend(dag: Dag, a: Name, s: State, name: Name, buildStart: nat)
    requires Known(dag, a, s) && Reaches(dag, a, name)
    ensures Known(dag, a, Send(s, name, buildStart))
  {
    var t := Send(s, name, buildStart);
    SentMore(s.sent, Publish(name, buildStart, s.now));
  }

  lemma KnownReceive(dag: Dag, a: Name, s: State)
    requires Known(dag, a, s) && s.publishes != []
    ensures Known(dag, a, Apply(dag, s, Receive))
  {
    var msg, t := s.publishes[0], Apply(dag, s, Receive);
    forall x | x in t.pending ensures Caused(dag, a, t.sent, x) {
      ArmEntry(Clear(s.pending, msg.name, msg.buildStart), DependentsOf(dag, msg.name), s.now, x);
      if Triggers(dag, msg.name, x) { assert UpstreamInWave(dag, a, x, msg.name); }
    }
    forall x ensures Requested(t.log, x) == Requested(s.log, x) { RequestedAppend(s.log, Received(msg, s.now), x); }
  }

  lemma KnownFire(dag: Dag, a: Name, s: State, d: Name)
    requires Known(dag, a, s) && Enabled(s, Fire(d))
    ensures Known(dag, a, Apply(dag, s, Fire(d)))
  {
    var t := Apply(dag, s, Fire(d));
    FireRequestsOne(s.log, Request(d, s.pending[d].timeout), s.now);
  }

  lemma FireRequestsOne(log: seq<Event>, r: Request, at: nat)
    ensures forall x :: Requested(log + [Emitted(r, at)], x) >= 1 ==> Requested(log, x) >= 1 || x == r.name
  {
    forall x ensures Requested(log + [Emitted(r, at)], x) >= 1 ==> Requested(log, x) >= 1 || x == r.name {
      RequestedAppend(log, Emitted(r, at), x);
    }
  }

  lemma KnownServe(dag: Dag, a: Name, s: State, step: Step)
    requires Known(dag, a, s) && Enabled(s, step) && (step.Begin? || step.Finish? || step.Advance?)
    ensures Known(dag, a, Apply(dag, s, step))
  {
    var t := if step.Finish? then s.(building := None, served := s.served + [s.building.value.request])
             else Apply(dag, s, step);
    if step.Finish? && step.outcome.Published? {
      var x := s.building.value.request.name;
      var u :| Sent(s.sent, u) && UpstreamInWave(dag, a, x, u);
      ReachesOn(dag, a, u, x);
      KnownSend(dag, a, t, x, step.outcome.buildStart);
    }
  }

  lemma {:induction false} KnownAlways(dag: Dag, a: Name, s: State, steps: seq<Step>)
    requires Known(dag, a, s) && CanRun(dag, s, steps)
    requires forall i :: 0 <= i < |steps| && steps[i].Notify? ==> steps[i].name == a
    ensures Known(dag, a, Run(dag, s, steps))
    decreases steps
  {
    if steps != [] {
      match steps[0] {
        case Receive => KnownReceive(dag, a, s);
        case Fire(d) => KnownFire(dag, a, s, d);
        case Notify(name, buildStart) =>
          assert IsPath(dag, [a], a, a);
          KnownSend(dag, a, s, name, buildStart);
        case _ => KnownServe(dag, a, s, steps[0]);
      }
      KnownAlways(dag, a, Apply(dag, s, steps[0]), steps[1..]);
    }
  }

  // ---------------------------------------------------------------- when it has settled

  /** Whatever was published, but from outside, was requested before. */
  ghost predicate PublishedOnRequest(s: State, a: Name) {
    && (forall x :: Sent(s.sent, x) ==> x == a || Requested(s.log, x) >= 1)
    && (forall i :: 0 <= i < |s.requests| ==> Requested(s.log, s.requests[i].name) >= 1)
    && (s.building.Some? ==> Requested(s.log, s.building.value.request.name) >= 1)
  }

  lemma OnRequestSend(s: State, a: Name, name: Name, buildStart: nat)
    requires PublishedOnRequest(s, a) && (name == a || Requested(s.log, name) >= 1)
    ensures PublishedOnRequest(Send(s, name, buildStart), a)
  {
    SentMore(s.sent, Publish(name, buildStart, s.now));
  }

  lemma OnRequestLog(s: State, t: State, a: Name, e: Event)
    requires PublishedOnRequest(s, a) && t.sent == s.sent && t.building == s.building && t.log == s.log + [e]
    requires t.requests == if e.Emitted? then s.requests + [e.request] else s.requests
    ensures PublishedOnRequest(t, a)
  {
    forall x ensures Requested(t.log, x) >= Requested(s.log, x) { RequestedAppend(s.log, e, x); }
    if e.Emitted? { RequestedAppend(s.log, e, e.request.name); }
  }

  lemma OnRequestStep(dag: Dag, s: State, a: Name, step: Step)
    requires PublishedOnRequest(s, a) && Enabled(s, step) && (step.Notify? ==> step.name == a)
    ensures PublishedOnRequest(Apply(dag, s, step), a)
  {
    var t := Apply(dag, s, step);
    match step
    case Receive => OnRequestLog(s, t, a, Received(s.publishes[0], s.now));
    case Fire(d) => OnRequestLog(s, t, a, Emitted(Request(d, s.pending[d].timeout), s.now));
    case Notify(name, buildStart) => OnRequestSend(s, a, name, buildStart);
    case Finish(outcome) =>
      var done := s.(building := None, served := s.served + [s.building.value.request]);
      if outcome.Published? { OnRequestSend(done, a, s.building.value.request.name, outcome.buildStart); }
    case _ =>
  }

  lemma {:induction false} OnRequestAlways(dag: Dag, s: State, a: Name, steps: seq<Step>)
    requires PublishedOnRequest(s, a) && CanRun(dag, s, steps)
    requires forall i :: 0 <= i < |steps| && steps[i].Notify? ==> steps[i].name == a
    ensures PublishedOnRequest(Run(dag, s, steps), a)
    decreases steps
  {
    if steps != [] {
      OnRequestStep(dag, s, a, steps[0]);
      OnRequestAlways(dag, Apply(dag, s, steps[0]), a, steps[1..]);
    }
  }

  ghost predicate UpstreamPublished(dag: Dag, t: State, d: Name) {
    exists u :: Sent(t.sent, u) && Triggers(dag, u, d)
  }

  /** A wave from `a` that has come to rest requested exactly the datasets of which an upstream has
      published. */
  lemma SettledRequestsExactly(dag: Dag, now: nat, steps: seq<Step>, a: Name, d: Name)
    requires CanRun(dag, Initial(now), steps) && OneWave(steps, a) && AtRest(Run(dag, Initial(now), steps)) && d != a
    ensures var t := Run(dag, Initial(now), steps); Requested(t.log, d) >= 1 <==> UpstreamPublished(dag, t, d)
  {
    var t := Run(dag, Initial(now), steps);
    KnownAlways(dag, a, Initial(now), steps);
    OnRequestAlways(dag, Initial(now), a, steps);
    RestAnswersAll(dag, now, steps);
    if UpstreamPublished(dag, t, d) {
      var u :| Sent(t.sent, u) && Triggers(dag, u, d);
      TriggeredIsRequested(dag, t, a, u, d);
    }
  }

  lemma TriggeredIsRequested(dag: Dag, t: State, a: Name, u: Name, d: Name)
    requires PublishedOnRequest(t, a) && t.sent == Messages(t.log) && d != a
    requires forall i, x :: 0 <= i < |t.log| && IsTrigger(dag, t.log[i], x) ==> Answered(t.log, i, x)
    requires Sent(t.sent, u) && Triggers(dag, u, d)
    ensures Requested(t.log, d) >= 1
  {
    SentIsReceived(t, u);
    var i :| 0 <= i < |t.log| && t.log[i].Received? && t.log[i].msg.name == u;
    assert IsTrigger(dag, t.log[i], d);
    var j :| i < j < |t.log| && Answers(t.log[j], d, At(t.log[i]));
    if t.log[j].Emitted? {
      EmittedIsEmission(t.log, j, d);
    } else {
      SentIsReceived(t, d);
    }
  }

  /** With one path from `a`, a wave that has come to rest requested `d` exactly once, or not at all
      when no upstream of it published. */
  lemma SettledOnce(dag: Dag, order: seq<Name>, now: nat, steps: seq<Step>, a: Name, d: Name)
    requires Respects(dag, order) && AtMostOnePath(dag, a, d) && d != a
    requires CanRun(dag, Initial(now), steps) && OneWave(steps, a) && AtRest(Run(dag, Initial(now), steps))
    ensures var t := Run(dag, Initial(now), steps); Requested(t.log, d) == if UpstreamPublished(dag, t, d) then 1 else 0
  {
    SettledRequestsExactly(dag, now, steps, a, d);
    OnePathIsOnce(dag, order, a, d, now, steps);
  }
}
