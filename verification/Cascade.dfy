/** The cascade protocol as a transition system: publish notifications, the engine's
    sliding-window debounce map, and the requests served by the refresh scheduler. */
module Cascade {
  import opened Wrappers

  type Name = string

  /** A dataset to refresh when its upstream publishes. Instants and durations are nanoseconds. */
  datatype Dependent = Dependent(name: Name, debounce: nat, timeout: nat)

  type Dag = map<Name, seq<Dependent>>

  datatype Pending = Pending(fireAt: nat, timeout: nat, triggerAt: nat)

  type PendingMap = map<Name, Pending>

  datatype Request = Request(name: Name, timeout: nat)

  datatype Publish = Publish(name: Name, buildStart: nat, sentAt: nat)

  // ------------------------------------------------------------ engine reactions

  function DependentsOf(dag: Dag, name: Name): seq<Dependent> {
    if name in dag then dag[name] else []
  }

  /** Drop the pending entry of `name` if its trigger came no later than the build began. */
  function Clear(pending: PendingMap, name: Name, buildStart: nat): PendingMap {
    if name in pending && pending[name].triggerAt <= buildStart then pending - {name} else pending
  }

  /** Restart the debounce timer of every dependent. */
  function Arm(pending: PendingMap, deps: seq<Dependent>, now: nat): PendingMap {
    if deps == [] then pending
    else
      var dep := deps[|deps| - 1];
      Arm(pending, deps[..|deps| - 1], now)[dep.name := Pending(now + dep.debounce, dep.timeout, now)]
  }

  function OnPublish(dag: Dag, pending: PendingMap, name: Name, buildStart: nat, now: nat): PendingMap {
    Arm(Clear(pending, name, buildStart), DependentsOf(dag, name), now)
  }

  ghost predicate Lists(deps: seq<Dependent>, d: Name) {
    exists k :: 0 <= k < |deps| && deps[k].name == d
  }

  /** Arming replaces exactly the entries of the listed dependents. */
  lemma {:induction false} ArmEntry(pending: PendingMap, deps: seq<Dependent>, now: nat, d: Name)
    ensures Lists(deps, d) ==> d in Arm(pending, deps, now) && Arm(pending, deps, now)[d].triggerAt == now
    ensures !Lists(deps, d) ==> (d in Arm(pending, deps, now) <==> d in pending)
    ensures !Lists(deps, d) && d in pending ==> Arm(pending, deps, now)[d] == pending[d]
  {
    if deps != [] {
      var n := |deps| - 1;
      ArmEntry(pending, deps[..n], now, d);
      if Lists(deps, d) && deps[n].name != d {
        var k :| 0 <= k < |deps| && deps[k].name == d;
        assert deps[..n][k].name == d;
      }
      if Lists(deps[..n], d) {
        var k :| 0 <= k < n && deps[..n][k].name == d;
        assert deps[k].name == d;
      }
    }
  }

  // --------------------------------------------------------------- the protocol

  /** What happened to a served request; only a publish notifies the engine. */
  datatype Outcome = TimedOut | Failed | Coalesced | Published(buildStart: nat)

  /** The engine's history: messages received and requests emitted. */
  datatype Event = Received(msg: Publish, at: nat) | Emitted(request: Request, at: nat)

  datatype Build = Build(request: Request, since: nat)

  /** `sent`, `log` and `served` are histories; the other fields are the system's queues. */
  datatype State = State(
    now: nat,
    sent: seq<Publish>,
    publishes: seq<Publish>,
    pending: PendingMap,
    requests: seq<Request>,
    building: Option<Build>,
    log: seq<Event>,
    served: seq<Request>)

  /** `Notify` is a publish by any other source: a manual reload, a scheduled tick, a wave. */
  datatype Step =
    | Advance(delta: nat)
    | Notify(name: Name, buildStart: nat)
    | Receive
    | Fire(name: Name)
    | Begin
    | Finish(outcome: Outcome)

  predicate Enabled(s: State, step: Step) {
    match step
    case Advance(_) => true
    case Notify(_, buildStart) => buildStart <= s.now
    case Receive => s.publishes != []
    case Fire(d) => d in s.pending && s.pending[d].fireAt <= s.now
    case Begin => s.requests != [] && s.building.None?
    case Finish(outcome) =>
      && s.building.Some?
      && (outcome.Published? ==> s.building.value.since <= outcome.buildStart <= s.now)
  }

  function Send(s: State, name: Name, buildStart: nat): State {
    var msg := Publish(name, buildStart, s.now);
    s.(sent := s.sent + [msg], publishes := s.publishes + [msg])
  }

  function Apply(dag: Dag, s: State, step: Step): State
    requires Enabled(s, step)
  {
    match step
    case Advance(delta) => s.(now := s.now + delta)
    case Notify(name, buildStart) => Send(s, name, buildStart)
    case Receive =>
      var msg := s.publishes[0];
      s.(publishes := s.publishes[1..],
         pending := OnPublish(dag, s.pending, msg.name, msg.buildStart, s.now),
         log := s.log + [Received(msg, s.now)])
    case Fire(d) =>
      var request := Request(d, s.pending[d].timeout);
      s.(pending := s.pending - {d},
         requests := s.requests + [request],
         log := s.log + [Emitted(request, s.now)])
    case Begin =>
      s.(requests := s.requests[1..], building := Some(Build(s.requests[0], s.now)))
    case Finish(outcome) =>
      var done := s.(building := None, served := s.served + [s.building.value.request]);
      if outcome.Published? then Send(done, s.building.value.request.name, outcome.buildStart) else done
  }

  predicate CanRun(dag: Dag, s: State, steps: seq<Step>)
    decreases steps
  {
    steps == [] || (Enabled(s, steps[0]) && CanRun(dag, Apply(dag, s, steps[0]), steps[1..]))
  }

  function Run(dag: Dag, s: State, steps: seq<Step>): State
    requires CanRun(dag, s, steps)
    decreases steps
  {
    if steps == [] then s else Run(dag, Apply(dag, s, steps[0]), steps[1..])
  }

  lemma RunCons(dag: Dag, s: State, step: Step, rest: seq<Step>)
    requires Enabled(s, step) && CanRun(dag, Apply(dag, s, step), rest)
    ensures CanRun(dag, s, [step] + rest) && Run(dag, s, [step] + rest) == Run(dag, Apply(dag, s, step), rest)
  {
    assert ([step] + rest)[1..] == rest;
  }

  function Initial(now: nat): State {
    State(now, [], [], map[], [], None, [], [])
  }
}
