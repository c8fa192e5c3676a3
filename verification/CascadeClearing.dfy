/** What clearing buys: a dataset whose triggers are all overtaken in time, by its own publish or by a
    later trigger, is never requested, and with a prompt engine no other dataset escapes. */
module CascadeClearing {
  import opened Config
  import opened Cascade
  import opened CascadeReports
  import opened CascadeSafety
  import opened CascadeDebounce
  import opened CascadeSetup
  import opened CascadeRuns
  import opened CascadePaths

  /** The event ends the entry that was armed at `at`, by clearing it or by arming it anew. */
  ghost predicate Overtakes(dag: Dag, e: Event, d: Name, at: nat) {
    IsTrigger(dag, e, d) || (e.Received? && Answers(e, d, at))
  }

  /** A later event overtakes trigger `i` of `d` before `limit`. */
  ghost predicate Overtaken(dag: Dag, log: seq<Event>, d: Name, i: nat, limit: nat)
    requires i < |log|
  {
    exists j :: i < j < |log| && Overtakes(dag, log[j], d, At(log[i])) && At(log[j]) < limit
  }

  /** Every trigger of `d` was overtaken before its window ended, unless that is still open. */
  ghost predicate AllOvertaken(dag: Dag, s: State, d: Name, w: nat) {
    forall i :: 0 <= i < |s.log| && IsTrigger(dag, s.log[i], d) && At(s.log[i]) + w <= s.now ==>
      Overtaken(dag, s.log, d, i, At(s.log[i]) + w)
  }

  // ---------------------------------------------------------------------- histories

  /** A run only adds to the history, and nothing earlier than where it began. */
  lemma {:induction false} LogGrows(dag: Dag, s: State, steps: seq<Step>)
    requires CanRun(dag, s, steps)
    ensures var t := Run(dag, s, steps);
            && s.now <= t.now && |s.log| <= |t.log| && t.log[..|s.log|] == s.log
            && forall k :: |s.log| <= k < |t.log| ==> s.now <= At(t.log[k])
    decreases steps
  {
    if steps != [] {
      var t, u := Run(dag, s, steps), Apply(dag, s, steps[0]);
      LogGrows(dag, u, steps[1..]);
      assert u.log[..|s.log|] == s.log;
      forall k | |s.log| <= k < |t.log| ensures s.now <= At(t.log[k]) {
        if k < |u.log| { assert t.log[k] == u.log[k]; }
      }
    }
  }

  /** Trigger `i` armed the entry of `d`, and nothing has overtaken it. */
  ghost predicate ArmedBy(dag: Dag, s: State, d: Name, w: nat, i: nat) {
    && d in s.pending && i < |s.log| && IsTrigger(dag, s.log[i], d)
    && s.pending[d].triggerAt == At(s.log[i]) && s.pending[d].fireAt == At(s.log[i]) + w
    && forall j :: i < j < |s.log| ==> !Overtakes(dag, s.log[j], d, At(s.log[i]))
  }

  ghost predicate Traced(dag: Dag, s: State, d: Name, w: nat) {
    d in s.pending ==> exists i :: ArmedBy(dag, s, d, w, i)
  }

  /** A receipt arms `d` by itself, or leaves its entry, or clears it. */
  lemma ReceiptArms(dag: Dag, s: State, d: Name, w: nat)
    requires HasWindow(dag, d, w) && s.publishes != []
    ensures var t, n := Apply(dag, s, Receive), |s.log|;
            && (IsTrigger(dag, t.log[n], d) ==> ArmedBy(dag, t, d, w, n))
            && (!IsTrigger(dag, t.log[n], d) && d in t.pending ==>
                  && d in s.pending && t.pending[d] == s.pending[d]
                  && !Overtakes(dag, t.log[n], d, s.pending[d].triggerAt))
            && (d in s.pending && d !in t.pending ==> Overtakes(dag, t.log[n], d, s.pending[d].triggerAt))
  {
    var msg := s.publishes[0];
    var cleared := Clear(s.pending, msg.name, msg.buildStart);
    ArmEntry(cleared, DependentsOf(dag, msg.name), s.now, d);
    if Lists(DependentsOf(dag, msg.name), d) { ArmWindow(cleared, DependentsOf(dag, msg.name), s.now, d, w); }
  }

  lemma TracedStep(dag: Dag, s: State, step: Step, d: Name, w: nat)
    requires HasWindow(dag, d, w) && Traced(dag, s, d, w) && Enabled(s, step)
    ensures Traced(dag, Apply(dag, s, step), d, w)
  {
    var t := Apply(dag, s, step);
    if d in t.pending {
      if step.Receive? { ReceiptArms(dag, s, d, w); }
      if step.Receive? && IsTrigger(dag, t.log[|s.log|], d) {
        assert ArmedBy(dag, t, d, w, |s.log|);
      } else {
        var i :| ArmedBy(dag, s, d, w, i);
        assert ArmedBy(dag, t, d, w, i);
      }
    }
  }

  // -------------------------------------------------------------------- never requested

  /** An entry that fires was not overtaken in time. */
  lemma FiredInTime(dag: Dag, s: State, steps: seq<Step>, d: Name, w: nat)
    requires CanRun(dag, s, steps) && Traced(dag, s, d, w) && Enabled(s, Fire(d))
    ensures !AllOvertaken(dag, Run(dag, s, steps), d, w)
  {
    var t := Run(dag, s, steps);
    var i: nat :| ArmedBy(dag, s, d, w, i);
    LogGrows(dag, s, steps);
    assert t.log[i] == s.log[i];
    forall j | i < j < |t.log| && At(t.log[j]) < At(t.log[i]) + w
      ensures !Overtakes(dag, t.log[j], d, At(t.log[i]))
    {
      assert j < |s.log| && t.log[j] == s.log[j];
    }
    assert !Overtaken(dag, t.log, d, i, At(t.log[i]) + w);
  }

  lemma {:induction false} OvertakenRun(dag: Dag, s: State, steps: seq<Step>, d: Name, w: nat)
    requires CanRun(dag, s, steps) && HasWindow(dag, d, w) && Traced(dag, s, d, w)
    requires AllOvertaken(dag, Run(dag, s, steps), d, w)
    ensures Requested(Run(dag, s, steps).log, d) == Requested(s.log, d)
    decreases steps
  {
    if steps != [] {
      var step := steps[0];
      if step == Fire(d) { FiredInTime(dag, s, steps, d, w); }
      TracedStep(dag, s, step, d, w);
      OvertakenRun(dag, Apply(dag, s, step), steps[1..], d, w);
      if step.Receive? { RequestedAppend(s.log, Received(s.publishes[0], s.now), d); }
      if step.Fire? {
        RequestedAppend(s.log, Emitted(Request(step.name, s.pending[step.name].timeout), s.now), d);
      }
    }
  }

  /** In every run: when each upstream publish of `d` is followed within the window by another one, or
      by a publish of `d` whose build began after it was received, `d` is never requested. The messages
      are those that the run's steps report. */
  lemma OvertakenNeverRequested(dag: Dag, now: nat, steps: seq<Step>, d: Name, w: nat)
    requires CanRun(dag, Initial(now), steps) && HasWindow(dag, d, w)
    requires AllOvertaken(dag, Run(dag, Initial(now), steps), d, w)
    ensures Requested(Run(dag, Initial(now), steps).log, d) == 0
    ensures var t := Run(dag, Initial(now), steps); Messages(t.log) + t.publishes == Reports(now, steps)
  {
    OvertakenRun(dag, Initial(now), steps, d, w);
    ReceivedIsReported(dag, now, steps);
  }

  // ------------------------------------------------------------------- otherwise requested

  /** Trigger `i` was overtaken by the end of its window, or its entry is still pending on time. */
  ghost predicate Accounted(dag: Dag, s: State, d: Name, w: nat, i: nat)
    requires i < |s.log|
  {
    || Overtaken(dag, s.log, d, i, At(s.log[i]) + w + 1)
    || (ArmedBy(dag, s, d, w, i) && s.now <= At(s.log[i]) + w)
  }

  ghost predicate AllAccounted(dag: Dag, s: State, d: Name, w: nat) {
    Requested(s.log, d) == 0 ==>
      forall i :: 0 <= i < |s.log| && IsTrigger(dag, s.log[i], d) ==> Accounted(dag, s, d, w, i)
  }

  lemma OvertakenStays(dag: Dag, log: seq<Event>, more: seq<Event>, d: Name, i: nat, limit: nat)
    requires i < |log| && Overtaken(dag, log, d, i, limit)
    ensures Overtaken(dag, log + more, d, i, limit)
  {
    var j :| i < j < |log| && Overtakes(dag, log[j], d, At(log[i])) && At(log[j]) < limit;
    assert (log + more)[j] == log[j];
  }

  lemma AccountedReceive(dag: Dag, s: State, d: Name, w: nat, i: nat)
    requires HasWindow(dag, d, w) && s.publishes != [] && i < |s.log| && Accounted(dag, s, d, w, i)
    ensures Accounted(dag, Apply(dag, s, Receive), d, w, i)
  {
    var t, n := Apply(dag, s, Receive), |s.log|;
    if Overtaken(dag, s.log, d, i, At(s.log[i]) + w + 1) {
      OvertakenStays(dag, s.log, t.log[n..], d, i, At(s.log[i]) + w + 1);
      assert t.log == s.log + t.log[n..];
    } else {
      ReceiptArms(dag, s, d, w);
      if Overtakes(dag, t.log[n], d, At(s.log[i])) {
        assert Overtaken(dag, t.log, d, i, At(t.log[i]) + w + 1);
      } else {
        assert ArmedBy(dag, t, d, w, i);
      }
    }
  }

  lemma AccountedFire(dag: Dag, s: State, name: Name, d: Name, w: nat, i: nat)
    requires Enabled(s, Fire(name)) && name != d && i < |s.log| && Accounted(dag, s, d, w, i)
    ensures Accounted(dag, Apply(dag, s, Fire(name)), d, w, i)
  {
    var t, n := Apply(dag, s, Fire(name)), |s.log|;
    assert t.log == s.log + t.log[n..];
    if Overtaken(dag, s.log, d, i, At(s.log[i]) + w + 1) {
      OvertakenStays(dag, s.log, t.log[n..], d, i, At(s.log[i]) + w + 1);
    } else {
      assert ArmedBy(dag, t, d, w, i);
    }
  }

  lemma AccountedStep(dag: Dag, s: State, step: Step, d: Name, w: nat)
    requires HasWindow(dag, d, w) && AllAccounted(dag, s, d, w) && Enabled(s, step) && EngineOnTime(s, step)
    ensures AllAccounted(dag, Apply(dag, s, step), d, w)
  {
    var t := Apply(dag, s, step);
    if step.Receive? { RequestedAppend(s.log, Received(s.publishes[0], s.now), d); }
    if step.Fire? { RequestedAppend(s.log, Emitted(Request(step.name, s.pending[step.name].timeout), s.now), d); }
    if Requested(t.log, d) == 0 {
      forall i | 0 <= i < |t.log| && IsTrigger(dag, t.log[i], d) ensures Accounted(dag, t, d, w, i) {
        if i == |s.log| {
          ReceiptArms(dag, s, d, w);
        } else if step.Receive? {
          AccountedReceive(dag, s, d, w, i);
        } else if step.Fire? {
          AccountedFire(dag, s, step.name, d, w, i);
        } else {
          assert Accounted(dag, s, d, w, i);
        }
      }
    }
  }

  lemma {:induction false} AccountedRun(dag: Dag, s: State, steps: seq<Step>, d: Name, w: nat)
    requires CanRun(dag, s, steps) && EngineRun(dag, s, steps) && HasWindow(dag, d, w) && AllAccounted(dag, s, d, w)
    ensures AllAccounted(dag, Run(dag, s, steps), d, w)
    decreases steps
  {
    if steps != [] {
      AccountedStep(dag, s, steps[0], d, w);
      AccountedRun(dag, Apply(dag, s, steps[0]), steps[1..], d, w);
    }
  }

  /** With a prompt engine nothing else keeps `d` from being requested: a trigger that was not overtaken
      by the end of its window has brought a request. */
  lemma RequestedUnlessOvertaken(dag: Dag, now: nat, steps: seq<Step>, d: Name, w: nat, i: nat)
    requires CanRun(dag, Initial(now), steps) && EngineRun(dag, Initial(now), steps) && HasWindow(dag, d, w)
    requires var t := Run(dag, Initial(now), steps);
             i < |t.log| && IsTrigger(dag, t.log[i], d) && At(t.log[i]) + w < t.now
    ensures var t := Run(dag, Initial(now), steps);
            Requested(t.log, d) >= 1 || Overtaken(dag, t.log, d, i, At(t.log[i]) + w + 1)
  {
    AccountedRun(dag, Initial(now), steps, d, w);
  }

  // -------------------------------------------------------------------- a wave from outside

  /** Every following dataset was published in time after its upstreams. */
  ghost predicate ReloadedInTime(ds: seq<Dataset>, t: State) {
    forall i :: 0 <= i < |ds| && Follows(ds[i]) ==>
      AllOvertaken(CascadeDag(ds), t, ds[i].name, ds[i].refresh.value.debounce)
  }

  lemma {:induction false} NothingEmitted(log: seq<Event>)
    requires forall x :: Requested(log, x) == 0
    ensures Emissions(log) == []
  {
    if log != [] {
      var front, e := log[..|log| - 1], log[|log| - 1];
      forall x ensures Requested(front, x) == 0 && !IsEmission(e, x) { assert Requested(log, x) == 0; }
      NothingEmitted(front);
      if e.Emitted? { assert IsEmission(e, e.request.name); }
    }
  }

  /** A wave of outside publishes, such as a reload of all datasets in build order, in which every
      dataset follows its upstreams within its window, causes no cascade refresh at all. */
  lemma ReloadCausesNoCascade(ds: seq<Dataset>, now: nat, steps: seq<Step>)
    requires UniqueNames(ds) && CanRun(CascadeDag(ds), Initial(now), steps)
    requires ReloadedInTime(ds, Run(CascadeDag(ds), Initial(now), steps))
    ensures Emissions(Run(CascadeDag(ds), Initial(now), steps).log) == []
  {
    var dag, t := CascadeDag(ds), Run(CascadeDag(ds), Initial(now), steps);
    forall x ensures Requested(t.log, x) == 0 {
      if i :| 0 <= i < |ds| && Follows(ds[i]) && ds[i].name == x {
        AcceptedWindow(ds, i);
        OvertakenNeverRequested(dag, now, steps, x, ds[i].refresh.value.debounce);
      } else {
        NobodyTriggers(ds, x);
        OvertakenNeverRequested(dag, now, steps, x, 0);
      }
    }
    NothingEmitted(t.log);
  }

  lemma NobodyTriggers(ds: seq<Dataset>, x: Name)
    requires forall i :: 0 <= i < |ds| && Follows(ds[i]) ==> ds[i].name != x
    ensures HasWindow(CascadeDag(ds), x, 0) && forall e :: !IsTrigger(CascadeDag(ds), e, x)
  {
    var dag: Dag := CascadeDag(ds);
    forall u, k | u in dag && 0 <= k < |dag[u]| ensures dag[u][k].name != x {
      var i := EntryHasFollower(ds, u, k);
    }
  }
}
