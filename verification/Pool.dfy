/** The connection pool: checkout and return under a mutex, sleeping on a condition
    variable. Every interleaving is a sequence of atomic steps. */
module Pool {
  import opened Wrappers

  type Caller = nat
  type Conn = nat

  /** `idle` is the shared vector. A caller sleeps on the condition variable, or is woken and
      yet to re-take the lock, or holds a connection, or has pushed one back and still owes the
      notification; otherwise it is outside. */
  datatype State = State(
    idle: seq<Conn>,
    held: map<Caller, Conn>,
    asleep: set<Caller>,
    woken: set<Caller>,
    owing: set<Caller>)

  /** `Get` takes the lock for a new checkout; `Retry` re-takes it after a wake-up. `Notify`
      wakes the given sleeper, which exists unless nobody sleeps. `Spurious` wakes unasked. */
  datatype Step =
    | Get(t: Caller)
    | Retry(t: Caller)
    | Drop(t: Caller)
    | Notify(t: Caller, sleeper: Caller)
    | Spurious(t: Caller)

  predicate Outside(s: State, t: Caller) {
    t !in s.held && t !in s.asleep && t !in s.woken && t !in s.owing
  }

  predicate Enabled(s: State, step: Step) {
    match step
    case Get(t) => Outside(s, t)
    case Retry(t) => t in s.woken
    case Drop(t) => t in s.held
    case Notify(t, sleeper) => t in s.owing && (s.asleep == {} || sleeper in s.asleep)
    case Spurious(t) => t in s.asleep
  }

  /** With the lock held: pop the last idle connection, or go to sleep when there is none. */
  function TakeOrSleep(s: State, t: Caller): State {
    if s.idle == [] then s.(asleep := s.asleep + {t})
    else s.(idle := s.idle[..|s.idle| - 1], held := s.held[t := s.idle[|s.idle| - 1]])
  }

  function Apply(s: State, step: Step): State
    requires Enabled(s, step)
  {
    match step
    case Get(t) => TakeOrSleep(s, t)
    case Retry(t) => TakeOrSleep(s.(woken := s.woken - {t}), t)
    case Drop(t) => s.(idle := s.idle + [s.held[t]], held := s.held - {t}, owing := s.owing + {t})
    case Notify(t, sleeper) =>
      var done := s.(owing := s.owing - {t});
      if s.asleep == {} then done else done.(asleep := s.asleep - {sleeper}, woken := s.woken + {sleeper})
    case Spurious(t) => s.(asleep := s.asleep - {t}, woken := s.woken + {t})
  }

  predicate CanRun(s: State, steps: seq<Step>)
    decreases steps
  {
    steps == [] || (Enabled(s, steps[0]) && CanRun(Apply(s, steps[0]), steps[1..]))
  }

  function Run(s: State, steps: seq<Step>): State
    requires CanRun(s, steps)
    decreases steps
  {
    if steps == [] then s else Run(Apply(s, steps[0]), steps[1..])
  }

  /** The pool as created: all connections idle, nobody inside. */
  function Fresh(conns: seq<Conn>): State {
    State(conns, map[], {}, {}, {})
  }

  // ---------------------------------------------------------------- conservation

  /** A connection is idle or with its only holder. */
  ghost predicate Located(s: State, c: Conn) {
    c in s.idle || exists t :: t in s.held && s.held[t] == c
  }

  ghost predicate NoConnTwice(s: State) {
    && (forall i, j :: 0 <= i < j < |s.idle| ==> s.idle[i] != s.idle[j])
    && (forall t :: t in s.held ==> s.held[t] !in s.idle)
    && (forall t, u :: t in s.held && u in s.held && t != u ==> s.held[t] != s.held[u])
  }

  /** Idle plus held is the pool size, and no connection is anywhere twice. */
  ghost predicate Conserved(s: State, size: nat) {
    |s.idle| + |s.held| == size && NoConnTwice(s)
  }

  /** A caller is in at most one place, so the counts below are of different callers. */
  ghost predicate Places(s: State) {
    && s.held.Keys !! s.asleep && s.held.Keys !! s.woken && s.asleep !! s.woken
    && s.owing !! s.held.Keys && s.owing !! s.asleep && s.owing !! s.woken
  }

  /** Sleepers imply that every idle connection already has a woken or due caller. */
  predicate NoLostWakeup(s: State) {
    s.asleep != {} ==> |s.idle| <= |s.woken| + |s.owing|
  }

  ghost predicate Inv(s: State, size: nat) {
    Conserved(s, size) && Places(s) && NoLostWakeup(s)
  }

  lemma TakeKeeps(s: State, t: Caller, size: nat)
    requires Conserved(s, size) && t !in s.held
    ensures var u := TakeOrSleep(s, t); Conserved(u, size)
    ensures forall c :: Located(s, c) ==> Located(TakeOrSleep(s, t), c)
  {
    var u := TakeOrSleep(s, t);
    if s.idle != [] {
      var c := s.idle[|s.idle| - 1];
      assert u.held.Keys == s.held.Keys + {t};
      assert u.held[t] == c;
      forall d | Located(s, d) ensures Located(u, d) {
        if d in s.idle {
          var i :| 0 <= i < |s.idle| && s.idle[i] == d;
          assert i < |s.idle| - 1 ==> u.idle[i] == d;
        } else {
          var v :| v in s.held && s.held[v] == d;
          assert u.held[v] == d;
        }
      }
    }
  }

  lemma DropKeeps(s: State, t: Caller, size: nat)
    requires Conserved(s, size) && t in s.held
    ensures var u := Apply(s, Drop(t)); Conserved(u, size)
    ensures forall c :: Located(s, c) ==> Located(Apply(s, Drop(t)), c)
  {
    var u := Apply(s, Drop(t));
    assert u.held.Keys == s.held.Keys - {t};
    assert u.idle[|s.idle|] == s.held[t];
    forall d | Located(s, d) ensures Located(u, d) {
      if d !in s.idle {
        var v :| v in s.held && s.held[v] == d;
        assert v != t ==> u.held[v] == d;
      } else {
        assert forall i :: 0 <= i < |s.idle| ==> u.idle[i] == s.idle[i];
      }
    }
  }

  lemma ConservedStep(s: State, step: Step, size: nat)
    requires Conserved(s, size) && Enabled(s, step) && Places(s)
    ensures Conserved(Apply(s, step), size)
    ensures forall c :: Located(s, c) ==> Located(Apply(s, step), c)
  {
    match step
    case Get(t) => TakeKeeps(s, t, size);
    case Retry(t) =>
      var r := s.(woken := s.woken - {t});
      assert forall c :: Located(s, c) ==> Located(r, c);
      TakeKeeps(r, t, size);
    case Drop(t) => DropKeeps(s, t, size);
    case _ =>
      var u := Apply(s, step);
      assert u.idle == s.idle && u.held == s.held;
      assert forall c :: Located(s, c) ==> Located(u, c);
  }

  lemma WakeupStep(s: State, step: Step)
    requires Places(s) && NoLostWakeup(s) && Enabled(s, step)
    ensures NoLostWakeup(Apply(s, step))
  {
  }

  lemma PlacesStep(s: State, step: Step)
    requires Places(s) && Enabled(s, step)
    ensures Places(Apply(s, step))
  {
  }

  /** Every step conserves the connections and loses no wake-up. */
  lemma StepKeeps(s: State, step: Step, size: nat)
    requires Inv(s, size) && Enabled(s, step)
    ensures Inv(Apply(s, step), size)
    ensures forall c :: Located(s, c) ==> Located(Apply(s, step), c)
  {
    ConservedStep(s, step, size);
    PlacesStep(s, step);
    WakeupStep(s, step);
  }

  /** In every interleaving from a fresh pool of distinct connections: idle plus held is the pool
      size, no connection is anywhere twice, none is lost, and whenever someone sleeps the idle
      connections do not outnumber the woken callers plus the notifications still due. */
  lemma {:induction false} PoolSafety(s: State, steps: seq<Step>, size: nat)
    requires Inv(s, size) && CanRun(s, steps)
    ensures Inv(Run(s, steps), size)
    ensures forall c :: Located(s, c) ==> Located(Run(s, steps), c)
    decreases steps
  {
    if steps != [] {
      StepKeeps(s, steps[0], size);
      PoolSafety(Apply(s, steps[0]), steps[1..], size);
    }
  }

  lemma FreshPoolSafety(conns: seq<Conn>, steps: seq<Step>)
    requires forall i, j :: 0 <= i < j < |conns| ==> conns[i] != conns[j]
    requires CanRun(Fresh(conns), steps)
    ensures Inv(Run(Fresh(conns), steps), |conns|)
    ensures forall i :: 0 <= i < |conns| ==> Located(Run(Fresh(conns), steps), conns[i])
  {
    PoolSafety(Fresh(conns), steps, |conns|);
    forall i | 0 <= i < |conns| ensures Located(Run(Fresh(conns), steps), conns[i]) {
      assert Located(Fresh(conns), conns[i]);
    }
  }

  /** A reachable state where the only callers left inside are asleep or holding has no idle
      connection: nobody sleeps forever beside an idle connection, and if all connections have
      been returned then nobody is asleep. */
  lemma NoSleeperBesideIdle(conns: seq<Conn>, steps: seq<Step>)
    requires forall i, j :: 0 <= i < j < |conns| ==> conns[i] != conns[j]
    requires CanRun(Fresh(conns), steps)
    ensures var t := Run(Fresh(conns), steps);
            t.asleep != {} && t.woken == {} && t.owing == {} ==> t.idle == [] && |t.held| == |conns|
  {
    FreshPoolSafety(conns, steps);
  }

  // ------------------------------------------------------------- what becomes of a caller

  /** With a connection idle the caller gets the one returned last; otherwise it sleeps. Nothing else
      changes. */
  lemma TakeExactly(s: State, step: Step)
    requires Enabled(s, step) && (step.Get? || step.Retry?)
    ensures var u, n := Apply(s, step), |s.idle|;
            && u.owing == s.owing && u.woken == (if step.Retry? then s.woken - {step.t} else s.woken)
            && (n > 0 ==>
                  && step.t in u.held && u.held[step.t] == s.idle[n - 1] && u.held - {step.t} == s.held - {step.t}
                  && u.idle == s.idle[..n - 1] && u.asleep == s.asleep)
            && (n == 0 ==> u.held == s.held && u.idle == [] && u.asleep == s.asleep + {step.t})
  {
  }

  /** The caller whose own step this is; a spurious wake-up is nobody's. */
  function Mover(step: Step): Option<Caller> {
    match step
    case Get(t) => Some(t)
    case Retry(t) => Some(t)
    case Drop(t) => Some(t)
    case Notify(t, _) => Some(t)
    case Spurious(_) => None
  }

  /** The last own step of `t`, which was `last` before these steps. */
  function LastOwn(steps: seq<Step>, t: Caller, last: Option<Step>): Option<Step>
    decreases steps
  {
    if steps == [] then last
    else LastOwn(steps[1..], t, if Mover(steps[0]) == Some(t) then Some(steps[0]) else last)
  }

  /** A caller has a connection or waits for one from its checkout to its return, owes the notification
      after it, and is outside otherwise. */
  ghost predicate Placed(s: State, t: Caller, last: Option<Step>) {
    match last
    case Some(Get(_)) => t in s.held || t in s.asleep || t in s.woken
    case Some(Retry(_)) => t in s.held || t in s.asleep || t in s.woken
    case Some(Drop(_)) => t in s.owing
    case _ => Outside(s, t)
  }

  /** A caller's own steps: after a checkout it retries or returns the connection, after that it notifies,
      and only then it checks out again. */
  ghost predicate InOrder(last: Option<Step>, step: Step) {
    match last
    case Some(Get(_)) => step.Retry? || step.Drop?
    case Some(Retry(_)) => step.Retry? || step.Drop?
    case Some(Drop(_)) => step.Notify?
    case _ => step.Get?
  }

  lemma PlacedStep(s: State, step: Step, t: Caller, last: Option<Step>)
    requires Places(s) && Enabled(s, step) && Placed(s, t, last)
    ensures Placed(Apply(s, step), t, if Mover(step) == Some(t) then Some(step) else last)
    ensures Mover(step) == Some(t) ==> InOrder(last, step)
  {
  }

  lemma {:induction false} PlacedRun(s: State, steps: seq<Step>, t: Caller, last: Option<Step>)
    requires Places(s) && CanRun(s, steps) && Placed(s, t, last)
    ensures Placed(Run(s, steps), t, LastOwn(steps, t, last))
    decreases steps
  {
    if steps != [] {
      PlacesStep(s, steps[0]);
      PlacedStep(s, steps[0], t, last);
      PlacedRun(Apply(s, steps[0]), steps[1..], t, if Mover(steps[0]) == Some(t) then Some(steps[0]) else last);
    }
  }

  /** In every interleaving no caller is lost: it is where its last own step put it, in one place. */
  lemma CallersAccounted(conns: seq<Conn>, steps: seq<Step>, t: Caller)
    requires CanRun(Fresh(conns), steps)
    ensures Placed(Run(Fresh(conns), steps), t, LastOwn(steps, t, None)) && Places(Run(Fresh(conns), steps))
  {
    PlacedRun(Fresh(conns), steps, t, None);
    PlacesRun(Fresh(conns), steps);
  }

  lemma {:induction false} PlacesRun(s: State, steps: seq<Step>)
    requires Places(s) && CanRun(s, steps)
    ensures Places(Run(s, steps))
    decreases steps
  {
    if steps != [] {
      PlacesStep(s, steps[0]);
      PlacesRun(Apply(s, steps[0]), steps[1..]);
    }
  }

  /** Its steps come in order, whatever the others do in between. */
  lemma OwnStepsInOrder(conns: seq<Conn>, steps: seq<Step>, k: nat, t: Caller)
    requires CanRun(Fresh(conns), steps) && k < |steps| && Mover(steps[k]) == Some(t)
    ensures InOrder(LastOwn(steps[..k], t, None), steps[k])
  {
    PrefixRuns(Fresh(conns), steps, k);
    CallersAccounted(conns, steps[..k], t);
    PlacedStep(Run(Fresh(conns), steps[..k]), steps[k], t, LastOwn(steps[..k], t, None));
  }

  lemma {:induction false} PrefixRuns(s: State, steps: seq<Step>, k: nat)
    requires CanRun(s, steps) && k < |steps|
    ensures CanRun(s, steps[..k]) && Enabled(Run(s, steps[..k]), steps[k])
    decreases k
  {
    if k > 0 {
      PrefixRuns(Apply(s, steps[0]), steps[1..], k - 1);
      assert steps[..k][1..] == steps[1..][..k - 1];
    }
  }

  // ---------------------------------------------------------------- waiting can end

  /** `steps` leads from `s` to a state where `t` holds a connection, without spurious wake-ups. */
  ghost predicate Serves(s: State, steps: seq<Step>, t: Caller) {
    && CanRun(s, steps) && t in Run(s, steps).held
    && forall k :: 0 <= k < |steps| ==> !steps[k].Spurious?
  }

  lemma ServesOn(s: State, x: Step, steps: seq<Step>, t: Caller)
    requires Enabled(s, x) && !x.Spurious? && Serves(Apply(s, x), steps, t)
    ensures Serves(s, [x] + steps, t)
  {
    assert ([x] + steps)[1..] == steps;
  }

  /** A woken caller retries, once somebody has returned a connection if none is idle. */
  lemma WokenIsServed(s: State, size: nat, t: Caller) returns (steps: seq<Step>)
    requires Inv(s, size) && size >= 1 && t in s.woken
    ensures Serves(s, steps, t)
  {
    if s.idle != [] {
      ServesOn(s, Retry(t), [], t);
      steps := [Retry(t)] + [];
    } else {
      var h :| h in s.held.Keys;
      var u := Apply(s, Drop(h));
      ServesOn(u, Retry(t), [], t);
      ServesOn(s, Drop(h), [Retry(t)] + [], t);
      steps := [Drop(h)] + ([Retry(t)] + []);
    }
  }

  /** A notification that is due wakes the sleeper. */
  lemma NotifiedIsServed(s: State, size: nat, o: Caller, t: Caller) returns (steps: seq<Step>)
    requires Inv(s, size) && size >= 1 && o in s.owing && t in s.asleep
    ensures Serves(s, steps, t)
  {
    StepKeeps(s, Notify(o, t), size);
    steps := WokenIsServed(Apply(s, Notify(o, t)), size, t);
    ServesOn(s, Notify(o, t), steps, t);
    steps := [Notify(o, t)] + steps;
  }

  lemma ReturnedIsServed(s: State, size: nat, h: Caller, t: Caller) returns (steps: seq<Step>)
    requires Inv(s, size) && size >= 1 && h in s.held && t in s.asleep
    ensures Serves(s, steps, t)
  {
    StepKeeps(s, Drop(h), size);
    steps := NotifiedIsServed(Apply(s, Drop(h)), size, h, t);
    ServesOn(s, Drop(h), steps, t);
    steps := [Drop(h)] + steps;
  }

  /** With nobody holding or owing, a sleeper implies a woken caller, which can check out and return. */
  lemma SleeperIsServed(s: State, size: nat, t: Caller) returns (steps: seq<Step>)
    requires Inv(s, size) && size >= 1 && t in s.asleep
    ensures Serves(s, steps, t)
  {
    if s.owing != {} {
      var o :| o in s.owing;
      steps := NotifiedIsServed(s, size, o, t);
    } else if s.held.Keys != {} {
      var h :| h in s.held.Keys;
      steps := ReturnedIsServed(s, size, h, t);
    } else {
      var w :| w in s.woken;
      StepKeeps(s, Retry(w), size);
      steps := ReturnedIsServed(Apply(s, Retry(w)), size, w, t);
      ServesOn(s, Retry(w), steps, t);
      steps := [Retry(w)] + steps;
    }
  }

  /** Nobody is stuck: in every reachable state of a pool with a connection, each caller that waits can
      still be given one, and no spurious wake-up is needed for it. */
  lemma WaitingCanEnd(conns: seq<Conn>, steps: seq<Step>, t: Caller) returns (more: seq<Step>)
    requires conns != [] && (forall i, j :: 0 <= i < j < |conns| ==> conns[i] != conns[j])
    requires CanRun(Fresh(conns), steps)
    requires t in Run(Fresh(conns), steps).asleep || t in Run(Fresh(conns), steps).woken
    ensures Serves(Run(Fresh(conns), steps), more, t)
  {
    FreshPoolSafety(conns, steps);
    var s := Run(Fresh(conns), steps);
    if t in s.woken { more := WokenIsServed(s, |conns|, t); } else { more := SleeperIsServed(s, |conns|, t); }
  }
}
