/** What every run of the cascade protocol keeps: the clock, both channels, and every
    trigger until it is answered. */
module CascadeSafety {
  import opened Cascade
  import opened CascadeReports

  function At(e: Event): nat {
    e.at
  }

  /** Event `e` is an upstream publish that triggers dataset `d`. */
  ghost predicate IsTrigger(dag: Dag, e: Event, d: Name) {
    e.Received? && Lists(DependentsOf(dag, e.msg.name), d)
  }

  predicate IsEmission(e: Event, d: Name) {
    e.Emitted? && e.request.name == d
  }

  // ------------------------------------------------------------------- the clock

  ghost predicate ClockOk(s: State) {
    && (forall i :: 0 <= i < |s.log| ==> At(s.log[i]) <= s.now)
    && (forall i :: 0 <= i < |s.log| && s.log[i].Received? ==>
          s.log[i].msg.buildStart <= s.log[i].msg.sentAt <= At(s.log[i]))
    && (forall i :: 0 <= i < |s.publishes| ==> s.publishes[i].buildStart <= s.publishes[i].sentAt <= s.now)
  }

  lemma ClockStep(dag: Dag, s: State, step: Step)
    requires ClockOk(s) && Enabled(s, step)
    ensures ClockOk(Apply(dag, s, step))
  {
  }

  // -------------------------------------------------------- channels lose nothing

  ghost function Messages(log: seq<Event>): seq<Publish> {
    if log == [] then []
    else
      var front, e := Messages(log[..|log| - 1]), log[|log| - 1];
      if e.Received? then front + [e.msg] else front
  }

  ghost function Emissions(log: seq<Event>): seq<Request> {
    if log == [] then []
    else
      var front, e := Emissions(log[..|log| - 1]), log[|log| - 1];
      if e.Emitted? then front + [e.request] else front
  }

  ghost function InService(s: State): seq<Request> {
    if s.building.Some? then [s.building.value.request] else []
  }

  /** Both channels are first-in first-out and exact: every message sent is received once or
      still queued, every request emitted is served once, in service, or still queued. */
  ghost predicate ChannelsExact(s: State) {
    && s.sent == Messages(s.log) + s.publishes
    && Emissions(s.log) == s.served + InService(s) + s.requests
  }

  lemma HistoriesAppend(log: seq<Event>, e: Event)
    ensures Messages(log + [e]) == Messages(log) + if e.Received? then [e.msg] else []
    ensures Emissions(log + [e]) == Emissions(log) + if e.Emitted? then [e.request] else []
  {
    assert (log + [e])[..|log|] == log;
  }

  /** Receiving moves the first message from the queue to the end of the history. */
  lemma ReceiveKeepsChannels(dag: Dag, s: State)
    requires ChannelsExact(s) && s.publishes != []
    ensures ChannelsExact(Apply(dag, s, Receive))
  {
    var msg, t := s.publishes[0], Apply(dag, s, Receive);
    HistoriesAppend(s.log, Received(msg, s.now));
    MoveFirst(Messages(s.log), s.publishes);
    assert Emissions(t.log) == Emissions(s.log) && InService(t) == InService(s);
  }

  lemma FireKeepsChannels(dag: Dag, s: State, d: Name)
    requires ChannelsExact(s) && Enabled(s, Fire(d))
    ensures ChannelsExact(Apply(dag, s, Fire(d)))
  {
    var request, t := Request(d, s.pending[d].timeout), Apply(dag, s, Fire(d));
    HistoriesAppend(s.log, Emitted(request, s.now));
    assert InService(t) == InService(s) && Messages(t.log) == Messages(s.log);
    AddLast(s.served + InService(s), s.requests, request);
  }

  lemma MoveFirst<T>(done: seq<T>, queue: seq<T>)
    requires queue != []
    ensures done + queue == (done + [queue[0]]) + queue[1..]
  {
  }

  lemma AddLast<T>(done: seq<T>, queue: seq<T>, x: T)
    ensures (done + queue) + [x] == done + (queue + [x])
  {
  }

  lemma ServeKeepsChannels(dag: Dag, s: State, step: Step)
    requires ChannelsExact(s) && Enabled(s, step) && (step.Begin? || step.Finish?)
    ensures ChannelsExact(Apply(dag, s, step))
  {
    var t := Apply(dag, s, step);
    assert t.log == s.log;
    if step.Begin? {
      MoveFirst(s.served, s.requests);
      assert t.served + InService(t) == s.served + [s.requests[0]] && s.served + InService(s) == s.served;
    } else {
      assert t.served + InService(t) == s.served + InService(s);
      if step.outcome.Published? { AddLast(Messages(s.log), s.publishes, t.sent[|s.sent|]); }
    }
  }

  lemma ChannelsStep(dag: Dag, s: State, step: Step)
    requires ChannelsExact(s) && Enabled(s, step)
    ensures ChannelsExact(Apply(dag, s, step))
  {
    match step
    case Receive => ReceiveKeepsChannels(dag, s);
    case Fire(d) => FireKeepsChannels(dag, s, d);
    case Begin => ServeKeepsChannels(dag, s, step);
    case Finish(_) => ServeKeepsChannels(dag, s, step);
    case Notify(name, buildStart) => AddLast(Messages(s.log), s.publishes, Publish(name, buildStart, s.now));
    case Advance(_) =>
  }

  // ---------------------------------------------------------------- nothing lost

  /** The event answers a trigger of `d` received at `t`: a refresh of `d` was requested, or
      a build of `d` that began no earlier than `t` was published. */
  predicate Answers(e: Event, d: Name, t: nat) {
    match e
    case Emitted(request, _) => request.name == d
    case Received(msg, _) => msg.name == d && t <= msg.buildStart
  }

  ghost predicate Answered(log: seq<Event>, i: int, d: Name) {
    exists j :: 0 <= i < j < |log| && Answers(log[j], d, At(log[i]))
  }

  ghost predicate Waiting(pending: PendingMap, d: Name, t: nat) {
    d in pending && t <= pending[d].triggerAt
  }

  /** Every trigger ever received is answered, or still pending under its own or a later trigger. */
  ghost predicate NothingLost(dag: Dag, s: State) {
    forall i, d :: 0 <= i < |s.log| && IsTrigger(dag, s.log[i], d) ==>
      Waiting(s.pending, d, At(s.log[i])) || Answered(s.log, i, d)
  }

  lemma AnsweredStays(log: seq<Event>, e: Event, i: int, d: Name)
    requires Answered(log, i, d)
    ensures Answered(log + [e], i, d)
  {
    var j :| 0 <= i < j < |log| && Answers(log[j], d, At(log[i]));
    assert Answers((log + [e])[j], d, At((log + [e])[i]));
  }

  lemma AnsweredNow(log: seq<Event>, e: Event, i: int, d: Name)
    requires 0 <= i < |log| && Answers(e, d, At(log[i]))
    ensures Answered(log + [e], i, d)
  {
    assert Answers((log + [e])[|log|], d, At((log + [e])[i]));
  }

  lemma OnPublishEntry(dag: Dag, s: State, msg: Publish, d: Name, t: nat)
    requires Waiting(s.pending, d, t) && t <= s.now
    ensures var after := OnPublish(dag, s.pending, msg.name, msg.buildStart, s.now);
            Waiting(after, d, t) || Answers(Received(msg, s.now), d, t)
  {
    ArmEntry(Clear(s.pending, msg.name, msg.buildStart), DependentsOf(dag, msg.name), s.now, d);
  }

  lemma NothingLostReceive(dag: Dag, s: State)
    requires ClockOk(s) && NothingLost(dag, s) && s.publishes != []
    ensures NothingLost(dag, Apply(dag, s, Receive))
  {
    var t := Apply(dag, s, Receive);
    var msg := s.publishes[0];
    var e := Received(msg, s.now);
    forall i, d | 0 <= i < |t.log| && IsTrigger(dag, t.log[i], d)
      ensures Waiting(t.pending, d, At(t.log[i])) || Answered(t.log, i, d)
    {
      if i == |s.log| {
        ArmEntry(Clear(s.pending, msg.name, msg.buildStart), DependentsOf(dag, msg.name), s.now, d);
      } else if Answered(s.log, i, d) {
        AnsweredStays(s.log, e, i, d);
      } else {
        assert IsTrigger(dag, s.log[i], d);
        OnPublishEntry(dag, s, msg, d, At(s.log[i]));
        if Answers(e, d, At(s.log[i])) { AnsweredNow(s.log, e, i, d); }
      }
    }
  }

  lemma NothingLostFire(dag: Dag, s: State, name: Name)
    requires NothingLost(dag, s) && Enabled(s, Fire(name))
    ensures NothingLost(dag, Apply(dag, s, Fire(name)))
  {
    var t := Apply(dag, s, Fire(name));
    var e := t.log[|s.log|];
    forall i, d | 0 <= i < |t.log| && IsTrigger(dag, t.log[i], d)
      ensures Waiting(t.pending, d, At(t.log[i])) || Answered(t.log, i, d)
    {
      assert IsTrigger(dag, s.log[i], d);
      if Answered(s.log, i, d) {
        AnsweredStays(s.log, e, i, d);
      } else if d == name {
        AnsweredNow(s.log, e, i, d);
      }
    }
  }

  lemma NothingLostStep(dag: Dag, s: State, step: Step)
    requires ClockOk(s) && NothingLost(dag, s) && Enabled(s, step)
    ensures NothingLost(dag, Apply(dag, s, step))
  {
    match step
    case Receive => NothingLostReceive(dag, s);
    case Fire(name) => NothingLostFire(dag, s, name);
    case _ => assert Apply(dag, s, step).log == s.log && Apply(dag, s, step).pending == s.pending;
  }

  /** No upstream publish is lost, in any run: the trigger it raised for `d` is still pending,
      or a refresh of `d` was requested later, or a build of `d` was published that began after
      the trigger was received and hence after the upstream publish was sent. */
  lemma {:induction false} NoTriggerLost(dag: Dag, s: State, steps: seq<Step>)
    requires ClockOk(s) && NothingLost(dag, s) && CanRun(dag, s, steps)
    ensures var t := Run(dag, s, steps); ClockOk(t) && NothingLost(dag, t)
    decreases steps
  {
    if steps != [] {
      ClockStep(dag, s, steps[0]);
      NothingLostStep(dag, s, steps[0]);
      NoTriggerLost(dag, Apply(dag, s, steps[0]), steps[1..]);
    }
  }

  /** In every run both channels deliver exactly what was put in, in order. */
  lemma {:induction false} ChannelsExactAlways(dag: Dag, s: State, steps: seq<Step>)
    requires ChannelsExact(s) && CanRun(dag, s, steps)
    ensures ChannelsExact(Run(dag, s, steps))
    decreases steps
  {
    if steps != [] {
      ChannelsStep(dag, s, steps[0]);
      ChannelsExactAlways(dag, Apply(dag, s, steps[0]), steps[1..]);
    }
  }

  /** What was received is what the steps report, so far as it has been received. */
  lemma ReceivedIsReported(dag: Dag, now: nat, steps: seq<Step>)
    requires CanRun(dag, Initial(now), steps)
    ensures var t := Run(dag, Initial(now), steps); Messages(t.log) + t.publishes == Reports(now, steps)
  {
    ChannelsExactAlways(dag, Initial(now), steps);
    SentIsReported(dag, now, steps);
  }

  lemma {:induction false} ReceivedIsMessage(log: seq<Event>, i: nat)
    requires i < |log| && log[i].Received?
    ensures log[i].msg in Messages(log)
  {
    var n := |log| - 1;
    if i < n { ReceivedIsMessage(log[..n], i); }
  }

  lemma ReceivedHasStep(dag: Dag, now: nat, steps: seq<Step>, i: nat) returns (k: nat)
    requires CanRun(dag, Initial(now), steps)
    requires i < |Run(dag, Initial(now), steps).log| && Run(dag, Initial(now), steps).log[i].Received?
    ensures ReportedAt(now, steps, k, Run(dag, Initial(now), steps).log[i].msg)
  {
    var t := Run(dag, Initial(now), steps);
    ReceivedIsReported(dag, now, steps);
    ReceivedIsMessage(t.log, i);
    assert t.log[i].msg in Messages(t.log) + t.publishes;
    k := ReportHasStep(now, steps, t.log[i].msg);
  }

  /** The last case: a step reported a build of `d` that began no earlier than trigger `i` was received. */
  ghost predicate Rebuilt(now: nat, steps: seq<Step>, log: seq<Event>, i: int, d: Name)
    requires 0 <= i < |log|
  {
    exists j, k :: i < j < |log| && log[j].Received? && ReportedAt(now, steps, k, log[j].msg)
      && log[j].msg.name == d && At(log[i]) <= log[j].msg.buildStart
  }

  /** From a fresh engine a trigger of `d` received after the step that published it is still pending,
      or followed by a request, or by the receipt of a publish of `d` that some step of the run reports
      with a build start no earlier than the trigger. */
  lemma NoTriggerLostFromStart(dag: Dag, now: nat, steps: seq<Step>, i: nat, d: Name)
    requires CanRun(dag, Initial(now), steps)
    requires i < |Run(dag, Initial(now), steps).log| && IsTrigger(dag, Run(dag, Initial(now), steps).log[i], d)
    ensures var t := Run(dag, Initial(now), steps);
            && (exists k :: ReportedAt(now, steps, k, t.log[i].msg))
            && t.log[i].msg.buildStart <= t.log[i].msg.sentAt <= At(t.log[i])
    ensures var t := Run(dag, Initial(now), steps);
            || (d in t.pending && At(t.log[i]) <= t.pending[d].triggerAt)
            || (exists j :: i < j < |t.log| && IsEmission(t.log[j], d))
            || Rebuilt(now, steps, t.log, i, d)
  {
    NoTriggerLost(dag, Initial(now), steps);
    var t := Run(dag, Initial(now), steps);
    var _ := ReceivedHasStep(dag, now, steps, i);
    if !Waiting(t.pending, d, At(t.log[i])) {
      var j :| i < j < |t.log| && Answers(t.log[j], d, At(t.log[i]));
      if t.log[j].Received? {
        var k := ReceivedHasStep(dag, now, steps, j);
      } else {
        assert IsEmission(t.log[j], d);
      }
    }
  }
}
