/** Debounce over whole runs: spacing of the emitted requests, and at most one per burst of
    upstream publishes. */
module CascadeDebounce {
  import opened Wrappers
  import opened Cascade
  import opened CascadeSafety

  ghost predicate WindowIn(deps: seq<Dependent>, d: Name, w: nat) {
    forall k :: 0 <= k < |deps| && deps[k].name == d ==> deps[k].debounce == w
  }

  /** Every mention of `d` in the graph carries the same debounce window `w`. */
  ghost predicate HasWindow(dag: Dag, d: Name, w: nat) {
    forall u :: u in dag ==> WindowIn(dag[u], d, w)
  }

  lemma {:induction false} ArmWindow(pending: PendingMap, deps: seq<Dependent>, now: nat, d: Name, w: nat)
    requires WindowIn(deps, d, w) && Lists(deps, d)
    ensures d in Arm(pending, deps, now) && Arm(pending, deps, now)[d].fireAt == now + w
  {
    var n := |deps| - 1;
    if deps[n].name != d {
      var k :| 0 <= k < |deps| && deps[k].name == d;
      assert deps[..n][k].name == d;
      ArmWindow(pending, deps[..n], now, d, w);
    }
  }

  // --------------------------------------------------------------------- spacing

  /** The entry of `d` fires one window after the latest trigger, which follows every emission. */
  ghost predicate EntryIsLatest(dag: Dag, s: State, d: Name, w: nat) {
    d in s.pending ==>
      && s.pending[d].fireAt == s.pending[d].triggerAt + w
      && forall i :: 0 <= i < |s.log| && (IsTrigger(dag, s.log[i], d) || IsEmission(s.log[i], d)) ==>
           At(s.log[i]) <= s.pending[d].triggerAt
  }

  /** No request for `d` within a window of any earlier trigger or request for `d`. */
  ghost predicate Spaced(dag: Dag, log: seq<Event>, d: Name, w: nat) {
    forall i, j :: 0 <= i < j < |log| && IsEmission(log[j], d)
                   && (IsTrigger(dag, log[i], d) || IsEmission(log[i], d)) ==>
      At(log[i]) + w <= At(log[j])
  }

  lemma LatestReceive(dag: Dag, s: State, d: Name, w: nat)
    requires ClockOk(s) && HasWindow(dag, d, w) && EntryIsLatest(dag, s, d, w) && s.publishes != []
    ensures EntryIsLatest(dag, Apply(dag, s, Receive), d, w)
  {
    var msg := s.publishes[0];
    var deps := DependentsOf(dag, msg.name);
    var cleared := Clear(s.pending, msg.name, msg.buildStart);
    var t := Apply(dag, s, Receive);
    ArmEntry(cleared, deps, s.now, d);
    if Lists(deps, d) { ArmWindow(cleared, deps, s.now, d, w); }
    assert t.log[|s.log|].msg == msg;
  }

  lemma SpacedStep(dag: Dag, s: State, step: Step, d: Name, w: nat)
    requires ClockOk(s) && HasWindow(dag, d, w) && Enabled(s, step)
    requires EntryIsLatest(dag, s, d, w) && Spaced(dag, s.log, d, w)
    ensures var t := Apply(dag, s, step); EntryIsLatest(dag, t, d, w) && Spaced(dag, t.log, d, w)
  {
    match step
    case Receive => LatestReceive(dag, s, d, w);
    case _ =>
  }

  /** Debounce spacing in every run: a request for `d` is emitted only when no upstream publish
      was received in the preceding window, and requests for `d` are at least a window apart. */
  lemma {:induction false} DebounceSpacing(dag: Dag, s: State, steps: seq<Step>, d: Name, w: nat)
    requires CanRun(dag, s, steps) && HasWindow(dag, d, w)
    requires ClockOk(s) && EntryIsLatest(dag, s, d, w) && Spaced(dag, s.log, d, w)
    ensures Spaced(dag, Run(dag, s, steps).log, d, w)
    decreases steps
  {
    if steps != [] {
      ClockStep(dag, s, steps[0]);
      SpacedStep(dag, s, steps[0], d, w);
      DebounceSpacing(dag, Apply(dag, s, steps[0]), steps[1..], d, w);
    }
  }

  // ---------------------------------------------------------------------- bursts

  ghost function LastTrigger(dag: Dag, log: seq<Event>, d: Name): Option<nat> {
    if log == [] then None
    else
      var e := log[|log| - 1];
      if IsTrigger(dag, e, d) then Some(At(e)) else LastTrigger(dag, log[..|log| - 1], d)
  }

  /** A burst starts at a trigger that is the first, or comes a window or more after the last. */
  ghost predicate StartsBurst(dag: Dag, log: seq<Event>, e: Event, d: Name, w: nat) {
    && IsTrigger(dag, e, d)
    && (LastTrigger(dag, log, d).None? || LastTrigger(dag, log, d).value + w <= At(e))
  }

  ghost function Bursts(dag: Dag, log: seq<Event>, d: Name, w: nat): nat {
    if log == [] then 0
    else
      var front, e := log[..|log| - 1], log[|log| - 1];
      Bursts(dag, front, d, w) + if StartsBurst(dag, front, e, d, w) then 1 else 0
  }

  ghost function Requested(log: seq<Event>, d: Name): nat {
    if log == [] then 0
    else Requested(log[..|log| - 1], d) + if IsEmission(log[|log| - 1], d) then 1 else 0
  }

  /** `d` was triggered after its last request. */
  ghost predicate Open(dag: Dag, log: seq<Event>, d: Name) {
    log != [] &&
    var e := log[|log| - 1];
    IsTrigger(dag, e, d) || (!IsEmission(e, d) && Open(dag, log[..|log| - 1], d))
  }

  /** Requests, plus one while `d` is open, stay within the bursts; a pending entry is open and
      carries the last trigger; a closed history's last trigger is a window old. */
  ghost predicate Tallied(requested: nat, open: bool, bursts: nat, last: Option<nat>, pending: PendingMap, d: Name,
          now: nat, w: nat)
  {
    && requested + (if open then 1 else 0) <= bursts
    && (d in pending ==> open && last == Some(pending[d].triggerAt))
    && (!open && last.Some? ==> last.value + w <= now)
  }

  ghost predicate BurstInv(dag: Dag, s: State, d: Name, w: nat) {
    Tallied(Requested(s.log, d), Open(dag, s.log, d), Bursts(dag, s.log, d, w), LastTrigger(dag, s.log, d),
            s.pending, d, s.now, w)
  }

  /** What one more event does to the four summaries of a history. */
  lemma SummariesAppend(dag: Dag, log: seq<Event>, e: Event, d: Name, w: nat)
    ensures Requested(log + [e], d) == Requested(log, d) + if IsEmission(e, d) then 1 else 0
    ensures Open(dag, log + [e], d) <==> IsTrigger(dag, e, d) || (!IsEmission(e, d) && Open(dag, log, d))
    ensures LastTrigger(dag, log + [e], d) == if IsTrigger(dag, e, d) then Some(At(e)) else LastTrigger(dag, log, d)
    ensures Bursts(dag, log + [e], d, w) == Bursts(dag, log, d, w) + if StartsBurst(dag, log, e, d, w) then 1 else 0
  {
    assert (log + [e])[..|log|] == log;
  }

  /** The tally after a message that triggers `d` or leaves it alone. */
  lemma TallyReceive(requested: nat, open: bool, bursts: nat, last: Option<nat>, before: PendingMap, after: PendingMap,
          d: Name, now: nat, w: nat, trigger: bool)
    requires Tallied(requested, open, bursts, last, before, d, now, w)
    requires trigger ==> d in after && after[d].triggerAt == now
    requires !trigger && d in after ==> d in before && after[d] == before[d]
    ensures var starts := trigger && (last.None? || last.value + w <= now);
            Tallied(requested, open || trigger, bursts + if starts then 1 else 0,
                    if trigger then Some(now) else last, after, d, now, w)
  {
  }

  lemma BurstReceive(dag: Dag, s: State, d: Name, w: nat)
    requires BurstInv(dag, s, d, w) && s.publishes != []
    ensures BurstInv(dag, Apply(dag, s, Receive), d, w)
  {
    var msg := s.publishes[0];
    var e, after := Received(msg, s.now), OnPublish(dag, s.pending, msg.name, msg.buildStart, s.now);
    ArmEntry(Clear(s.pending, msg.name, msg.buildStart), DependentsOf(dag, msg.name), s.now, d);
    TallyReceive(Requested(s.log, d), Open(dag, s.log, d), Bursts(dag, s.log, d, w), LastTrigger(dag, s.log, d),
                 s.pending, after, d, s.now, w, IsTrigger(dag, e, d));
    SummariesAppend(dag, s.log, e, d, w);
  }

  lemma BurstFire(dag: Dag, s: State, name: Name, d: Name, w: nat)
    requires BurstInv(dag, s, d, w) && EntryIsLatest(dag, s, d, w) && Enabled(s, Fire(name))
    ensures BurstInv(dag, Apply(dag, s, Fire(name)), d, w)
  {
    SummariesAppend(dag, s.log, Emitted(Request(name, s.pending[name].timeout), s.now), d, w);
  }

  lemma BurstStep(dag: Dag, s: State, step: Step, d: Name, w: nat)
    requires BurstInv(dag, s, d, w) && EntryIsLatest(dag, s, d, w) && Enabled(s, step)
    ensures BurstInv(dag, Apply(dag, s, step), d, w)
  {
    match step
    case Receive => BurstReceive(dag, s, d, w);
    case Fire(name) => BurstFire(dag, s, name, d, w);
    case _ =>
  }

  /** In every run the requests for `d` never outnumber the bursts of triggers it received: upstream
      publishes closer together than the window share one refresh, whatever builds interleave. */
  lemma {:induction false} OneRequestPerBurst(dag: Dag, s: State, steps: seq<Step>, d: Name, w: nat)
    requires CanRun(dag, s, steps) && HasWindow(dag, d, w)
    requires ClockOk(s) && EntryIsLatest(dag, s, d, w) && Spaced(dag, s.log, d, w) && BurstInv(dag, s, d, w)
    ensures var log := Run(dag, s, steps).log; Requested(log, d) <= Bursts(dag, log, d, w)
    decreases steps
  {
    if steps != [] {
      ClockStep(dag, s, steps[0]);
      SpacedStep(dag, s, steps[0], d, w);
      BurstStep(dag, s, steps[0], d, w);
      OneRequestPerBurst(dag, Apply(dag, s, steps[0]), steps[1..], d, w);
    }
  }

  /** Both debounce results for a run of a freshly started engine. */
  lemma DebounceFromStart(dag: Dag, now: nat, steps: seq<Step>, d: Name, w: nat)
    requires CanRun(dag, Initial(now), steps) && HasWindow(dag, d, w)
    ensures var log := Run(dag, Initial(now), steps).log;
            Spaced(dag, log, d, w) && Requested(log, d) <= Bursts(dag, log, d, w)
  {
    DebounceSpacing(dag, Initial(now), steps, d, w);
    OneRequestPerBurst(dag, Initial(now), steps, d, w);
  }

  // --------------------------------------------------------------- a settled burst

  lemma {:induction false} NoRequestNoEmission(log: seq<Event>, d: Name, j: nat)
    requires Requested(log, d) == 0 && j < |log|
    ensures !IsEmission(log[j], d)
  {
    if j < |log| - 1 { NoRequestNoEmission(log[..|log| - 1], d, j); }
  }

  /** A settled wave whose triggers of `d` form one burst requests exactly one refresh of `d`,
      unless builds from other sources already covered every trigger. */
  lemma SettledBurstRefreshesOnce(dag: Dag, now: nat, steps: seq<Step>, d: Name, w: nat)
    requires CanRun(dag, Initial(now), steps) && HasWindow(dag, d, w)
    requires d !in Run(dag, Initial(now), steps).pending
    requires Bursts(dag, Run(dag, Initial(now), steps).log, d, w) == 1
    ensures var log := Run(dag, Initial(now), steps).log;
            || Requested(log, d) == 1
            || (Requested(log, d) == 0
                && forall i :: 0 <= i < |log| && IsTrigger(dag, log[i], d) ==> Covered(log, i, d))
  {
    DebounceFromStart(dag, now, steps, d, w);
    var log := Run(dag, Initial(now), steps).log;
    if Requested(log, d) == 0 {
      forall i | 0 <= i < |log| && IsTrigger(dag, log[i], d) ensures Covered(log, i, d) {
        NoTriggerLost(dag, Initial(now), steps);
        var j :| i < j < |log| && Answers(log[j], d, At(log[i]));
        NoRequestNoEmission(log, d, j);
        assert log[j].Received?;
      }
    }
  }

  /** A later publish of `d` whose build began at or after event `i`. */
  ghost predicate Covered(log: seq<Event>, i: int, d: Name) {
    exists j :: 0 <= i < j < |log| && log[j].Received? && log[j].msg.name == d && At(log[i]) <= log[j].msg.buildStart
  }

  // -------------------------------------------------------------------- timeouts

  ghost predicate TimeoutIn(deps: seq<Dependent>, d: Name, timeout: nat) {
    forall k :: 0 <= k < |deps| && deps[k].name == d ==> deps[k].timeout == timeout
  }

  /** Every mention of `d` in the graph carries the same build timeout. */
  ghost predicate HasTimeout(dag: Dag, d: Name, timeout: nat) {
    forall u :: u in dag ==> TimeoutIn(dag[u], d, timeout)
  }

  lemma {:induction false} ArmTimeout(pending: PendingMap, deps: seq<Dependent>, now: nat, d: Name, timeout: nat)
    requires TimeoutIn(deps, d, timeout) && (d in pending ==> pending[d].timeout == timeout)
    ensures d in Arm(pending, deps, now) ==> Arm(pending, deps, now)[d].timeout == timeout
  {
    if deps != [] { ArmTimeout(pending, deps[..|deps| - 1], now, d, timeout); }
  }

  ghost predicate CarriesTimeout(s: State, d: Name, timeout: nat) {
    && (d in s.pending ==> s.pending[d].timeout == timeout)
    && (forall i :: 0 <= i < |s.log| && IsEmission(s.log[i], d) ==> s.log[i].request.timeout == timeout)
  }

  /** In every run each request for `d` carries the timeout configured for `d`. */
  lemma {:induction false} RequestsCarryTimeout(dag: Dag, s: State, steps: seq<Step>, d: Name, timeout: nat)
    requires CanRun(dag, s, steps) && HasTimeout(dag, d, timeout) && CarriesTimeout(s, d, timeout)
    ensures CarriesTimeout(Run(dag, s, steps), d, timeout)
    decreases steps
  {
    if steps != [] {
      if steps[0].Receive? {
        var msg := s.publishes[0];
        ArmTimeout(Clear(s.pending, msg.name, msg.buildStart), DependentsOf(dag, msg.name), s.now, d, timeout);
      }
      RequestsCarryTimeout(dag, Apply(dag, s, steps[0]), steps[1..], d, timeout);
    }
  }
}
