/** Diamonds on time, exactly: which windows and timeouts let one outside publish refresh the tip
    once, request it once, and let it wait for both siblings. */
module CascadeDiamondLaws {
  import opened Cascade
  import opened CascadeDebounce
  import opened CascadeTermination
  import opened CascadeSettles
  import opened CascadeRuns
  import opened CascadePaths
  import opened CascadeWaves
  import opened CascadeRefreshes
  import opened CascadePrompt
  import opened CascadeDiamond
  import opened CascadeDiamondBuilds
  import opened CascadeDiamondRuns

  /** No prompt wave refreshes `d` twice. */
  ghost predicate NeverRefreshedTwice(dag: Dag, a: Name, d: Name) {
    forall now: nat, steps :: IsPromptWave(dag, now, steps, a) ==>
      Publications(Run(dag, Initial(now), steps).sent, d) <= 1
  }

  /** Every prompt wave run to rest, its builds all publishing, refreshes `d` exactly once. */
  ghost predicate RefreshedOncePrompt(dag: Dag, a: Name, d: Name) {
    forall now: nat, steps :: IsPromptWave(dag, now, steps, a) && FullWave(dag, now, steps, a) ==>
      Publications(Run(dag, Initial(now), steps).sent, d) == 1
  }

  /** No prompt wave requests `d` twice. */
  ghost predicate NeverRequestedTwice(dag: Dag, a: Name, d: Name) {
    forall now: nat, steps :: IsPromptWave(dag, now, steps, a) ==>
      Requested(Run(dag, Initial(now), steps).log, d) <= 1
  }

  /** In every prompt wave whose builds all publish, `d` waits for its upstreams. */
  ghost predicate WaitsInFullRuns(dag: Dag, a: Name, d: Name) {
    forall now: nat, steps :: IsPromptWave(dag, now, steps, a) && Publishes(steps) ==>
      Waited(dag, a, d, Run(dag, Initial(now), steps))
  }

  // ------------------------------------------------------------------ where it begins

  lemma StartArmed(dag: Dag, a: Name, b: Dependent, c: Dependent, d: Dependent)
    requires IsDiamond(dag, a, b, c, d)
    ensures BothArmed(AfterPublish(dag, 0, a), a, b, c, d, 0) && BothArmed(AfterPublish(dag, 0, a), a, c, b, d, 0)
  {
    TopArmsBoth(dag, Apply(dag, Initial(0), Notify(a, 0)), a, b, c, d);
    TopArmsBoth(dag, Apply(dag, Initial(0), Notify(a, 0)), a, c, b, d);
  }

  lemma SiblingReached(dag: Dag, a: Name, b: Dependent, c: Dependent, d: Dependent, x: Dependent)
    requires IsDiamond(dag, a, b, c, d) && (x == b || x == c)
    ensures UpstreamInWave(dag, a, d.name, x.name) && Reaches(dag, a, d.name)
  {
    assert Triggers(dag, x.name, d.name) by { assert DependentsOf(dag, x.name)[0] == d; }
    assert Triggers(dag, a, x.name) by { assert x in DependentsOf(dag, a); }
    assert IsPath(dag, [a, x.name], a, x.name);
    ReachesOn(dag, a, x.name, d.name);
  }

  /** The siblings in the order in which they fall due, when the window misses the end of the second. */
  predicate Misses(x: Dependent, y: Dependent, d: Dependent) {
    !FollowsInWindow(x, y, d, true)
  }

  /** The second one does not even begin in time. */
  predicate BeginsLate(x: Dependent, y: Dependent, d: Dependent) {
    x.debounce < y.debounce && x.debounce + d.debounce <= y.debounce
  }

  /** The tip is requested while the second sibling has not published. */
  lemma TipRequestedEarly(dag: Dag, a: Name, x: Dependent, y: Dependent, d: Dependent)
    returns (steps: seq<Step>, t: State)
    requires IsDiamond(dag, a, x, y, d) && Misses(x, y, d)
    ensures FullLeads(dag, AfterPublish(dag, 0, a), steps, t)
    ensures if BeginsLate(x, y, d) then TipBefore(t, x, y, d) else TipDuring(t, x, y, d) && y.debounce <= t.now
  {
    var s := AfterPublish(dag, 0, a);
    StartArmed(dag, a, x, y, d);
    if BeginsLate(x, y, d) {
      var lead, u := PublishFirst(dag, s, a, x, y, d);
      var rest;
      if x.debounce + d.debounce < y.debounce {
        rest, t := RequestBefore(dag, u, x, y, d);
      } else {
        rest, t := RequestTogether(dag, u, x, y, d);
      }
      FullJoin(dag, s, lead, u, rest, t);
      steps := lead + rest;
    } else {
      steps, t := RequestDuring(dag, s, a, x, y, d);
    }
  }

  // --------------------------------------------------------------------- once or twice

  /** A prompt run continued to rest, all builds publishing. */
  lemma FullToRest(dag: Dag, order: seq<Name>, a: Name, d: Name, lead: seq<Step>, u: State, n: nat)
    returns (wave: seq<Step>)
    requires Respects(dag, order) && a != d && FullLeads(dag, AfterPublish(dag, 0, a), lead, u)
    requires Ahead(dag, order, d, u, n) && u.building.None?
    ensures IsPromptWave(dag, 0, wave, a) && FullWave(dag, 0, wave, a)
    ensures Publications(Run(dag, Initial(0), wave).sent, d) > n
  {
    var rest, t := SettleSelected(dag, order, u, x => true, a);
    AheadRun(dag, order, d, u, rest, n, a);
    assert t.pending.Keys == {};
    FullJoin(dag, AfterPublish(dag, 0, a), lead, u, rest, t);
    wave := PromptWave(dag, 0, a, lead + rest, t);
    assert wave[0].Notify?;
  }

  lemma TwiceInOrder(dag: Dag, order: seq<Name>, a: Name, x: Dependent, y: Dependent, d: Dependent)
    returns (wave: seq<Step>)
    requires Respects(dag, order) && IsDiamond(dag, a, x, y, d) && Misses(x, y, d)
    requires BeginsLate(x, y, d) || d.debounce <= d.timeout
    ensures IsPromptWave(dag, 0, wave, a) && FullWave(dag, 0, wave, a)
    ensures Publications(Run(dag, Initial(0), wave).sent, d.name) >= 2
  {
    var lead, u := TipRequestedEarly(dag, a, x, y, d);
    var rest, v;
    if BeginsLate(x, y, d) {
      rest, v := TwiceAfter(dag, order, u, a, x, y, d);
    } else {
      rest, v := TwiceDuring(dag, order, u, a, x, y, d);
    }
    FullJoin(dag, AfterPublish(dag, 0, a), lead, u, rest, v);
    wave := FullToRest(dag, order, a, d.name, lead + rest, v, 1);
  }

  /** Otherwise a prompt wave that comes to rest, every build of it publishing, refreshes the tip twice. */
  lemma DiamondMayRefreshTwice(dag: Dag, order: seq<Name>, a: Name, b: Dependent, c: Dependent, d: Dependent)
    returns (wave: seq<Step>)
    requires Respects(dag, order) && IsDiamond(dag, a, b, c, d) && !SharesBuild(b, c, d)
    ensures IsPromptWave(dag, 0, wave, a) && FullWave(dag, 0, wave, a)
    ensures Publications(Run(dag, Initial(0), wave).sent, d.name) >= 2
  {
    if Misses(b, c, d) && (BeginsLate(b, c, d) || d.debounce <= d.timeout) {
      wave := TwiceInOrder(dag, order, a, b, c, d);
    } else {
      wave := TwiceInOrder(dag, order, a, c, b, d);
    }
  }

  /** The documented promise for a diamond, whatever else hangs on its tip: one outside publish refreshes
      the tip exactly once per settled wave, and never twice, exactly when both siblings share a build. */
  lemma DiamondRefreshedOnceExactly(dag: Dag, order: seq<Name>, a: Name, b: Dependent, c: Dependent, d: Dependent)
    requires Respects(dag, order) && IsDiamond(dag, a, b, c, d)
    ensures NeverRefreshedTwice(dag, a, d.name) <==> SharesBuild(b, c, d)
    ensures RefreshedOncePrompt(dag, a, d.name) <==> SharesBuild(b, c, d)
  {
    if SharesBuild(b, c, d) {
      forall now: nat, steps | IsPromptWave(dag, now, steps, a)
        ensures Publications(Run(dag, Initial(now), steps).sent, d.name) <= 1
        ensures FullWave(dag, now, steps, a) ==> Publications(Run(dag, Initial(now), steps).sent, d.name) == 1
      {
        RefreshedAtMostOnce(dag, order, a, b, c, d, now, steps);
        SiblingReached(dag, a, b, c, d, b);
        if FullWave(dag, now, steps, a) { FullWaveRefreshes(dag, order, now, steps, a, d.name); }
      }
    } else {
      var wave := DiamondMayRefreshTwice(dag, order, a, b, c, d);
    }
  }

  // -------------------------------------------------------------------------- requests

  lemma RequestedTwiceInOrder(dag: Dag, order: seq<Name>, a: Name, x: Dependent, y: Dependent, d: Dependent)
    returns (wave: seq<Step>)
    requires Respects(dag, order) && IsDiamond(dag, a, x, y, d) && Misses(x, y, d)
    ensures IsPromptWave(dag, 0, wave, a) && Requested(Run(dag, Initial(0), wave).log, d.name) >= 2
  {
    if BeginsLate(x, y, d) {
      wave := TwiceInOrder(dag, order, a, x, y, d);
      RefreshesAndRequests(dag, 0, wave, a, d.name);
    } else {
      var lead, u := TipRequestedEarly(dag, a, x, y, d);
      var rest, t := RequestedTwice(dag, u, a, x, y, d);
      PromptJoin(dag, AfterPublish(dag, 0, a), lead, u, rest, t);
      wave := PromptWave(dag, 0, a, lead + rest, t);
    }
  }

  /** Requests, builds that fail counted too: at most one for the tip exactly when its window outlasts
      the siblings' builds. */
  lemma DiamondOnceExactly(dag: Dag, order: seq<Name>, a: Name, b: Dependent, c: Dependent, d: Dependent)
    requires Respects(dag, order) && IsDiamond(dag, a, b, c, d)
    ensures NeverRequestedTwice(dag, a, d.name) <==> Merges(b, c, d)
  {
    if Merges(b, c, d) {
      forall now: nat, steps | IsPromptWave(dag, now, steps, a)
        ensures Requested(Run(dag, Initial(now), steps).log, d.name) <= 1
      {
        RequestedOnce(dag, order, a, b, c, d, now, steps);
      }
    } else if Misses(b, c, d) {
      var wave := RequestedTwiceInOrder(dag, order, a, b, c, d);
    } else {
      var wave := RequestedTwiceInOrder(dag, order, a, c, b, d);
    }
  }

  /** When the window outlasts the siblings' builds, a prompt wave that has come to rest requested the tip
      once, or not at all when neither sibling published. */
  lemma DiamondSettlesOnce(dag: Dag, order: seq<Name>, a: Name, b: Dependent, c: Dependent, d: Dependent, now: nat,
          steps: seq<Step>)
    requires Respects(dag, order) && IsDiamond(dag, a, b, c, d) && Merges(b, c, d)
    requires IsPromptWave(dag, now, steps, a) && AtRest(Run(dag, Initial(now), steps))
    ensures var t := Run(dag, Initial(now), steps);
            Requested(t.log, d.name) == if UpstreamPublished(dag, t, d.name) then 1 else 0
  {
    SettledRequestsExactly(dag, now, steps, a, d.name);
    RequestedOnce(dag, order, a, b, c, d, now, steps);
  }

  // ------------------------------------------------------------- waiting for the siblings

  ghost predicate MessagesSent(s: State) {
    forall i :: 0 <= i < |s.publishes| ==> Sent(s.sent, s.publishes[i].name)
  }

  /** A sibling has published or still will, if its build publishes. */
  ghost predicate Attended(s: State, x: Dependent) {
    Live(s, x) || Sent(s.sent, x.name)
  }

  lemma SentKept(dag: Dag, s: State, step: Step, x: Name)
    requires Enabled(s, step) && Sent(s.sent, x)
    ensures Sent(Apply(dag, s, step).sent, x)
  {
    var i :| 0 <= i < |s.sent| && s.sent[i].name == x;
    assert Apply(dag, s, step).sent[i].name == x;
  }

  lemma MessagesStep(dag: Dag, s: State, step: Step)
    requires MessagesSent(s) && Enabled(s, step)
    ensures MessagesSent(Apply(dag, s, step))
  {
    var t := Apply(dag, s, step);
    forall i | 0 <= i < |t.publishes| ensures Sent(t.sent, t.publishes[i].name) {
      if i < |s.publishes| && !step.Receive? {
        SentKept(dag, s, step, s.publishes[i].name);
      } else if step.Receive? {
        SentKept(dag, s, step, s.publishes[i + 1].name);
      } else {
        assert t.sent[|s.sent|].name == t.publishes[i].name;
      }
    }
  }

  /** A live sibling stays live until it has published. */
  lemma LiveStep(dag: Dag, s: State, x: Dependent, step: Step)
    requires Live(s, x) && MessagesSent(s) && Enabled(s, step) && (step.Finish? ==> step.outcome.Published?)
    requires x.name in s.pending ==> s.pending[x.name].timeout == x.timeout
    ensures Attended(Apply(dag, s, step), x)
  {
    var t := Apply(dag, s, step);
    match step
    case Receive =>
      var msg := s.publishes[0];
      ArmEntry(Clear(s.pending, msg.name, msg.buildStart), DependentsOf(dag, msg.name), s.now, x.name);
      if msg.name == x.name { SentKept(dag, s, step, x.name); }
    case Fire(name) => if name == x.name { assert t.requests[|s.requests|] == Request(x.name, x.timeout); }
    case Finish(_) => if Serving(s, x) { assert t.sent[|s.sent|].name == x.name; }
    case _ =>
  }

  /** The tip was not requested and no sibling is lost, or both have published. */
  ghost predicate Patient(s: State, b: Dependent, c: Dependent, d: Dependent, start: nat) {
    || (Early(s, b, c, d, start, true) && MessagesSent(s) && Attended(s, b) && Attended(s, c))
    || (Sent(s.sent, b.name) && Sent(s.sent, c.name))
  }

  lemma AttendedStep(dag: Dag, s: State, x: Dependent, step: Step)
    requires Attended(s, x) && MessagesSent(s) && Enabled(s, step) && (step.Finish? ==> step.outcome.Published?)
    requires x.name in s.pending ==> s.pending[x.name].timeout == x.timeout
    ensures Attended(Apply(dag, s, step), x)
  {
    if Sent(s.sent, x.name) {
      SentKept(dag, s, step, x.name);
    } else {
      LiveStep(dag, s, x, step);
    }
  }

  lemma PatientStep(dag: Dag, s: State, a: Name, b: Dependent, c: Dependent, d: Dependent, start: nat, step: Step)
    requires IsDiamond(dag, a, b, c, d) && Merges(b, c, d) && Patient(s, b, c, d, start)
    requires Enabled(s, step) && OnTime(s, step) && !step.Notify? && (step.Finish? ==> step.outcome.Published?)
    ensures Patient(Apply(dag, s, step), b, c, d, start)
  {
    if Sent(s.sent, b.name) && Sent(s.sent, c.name) {
      SentKept(dag, s, step, b.name);
      SentKept(dag, s, step, c.name);
    } else if step == Fire(d.name) {
      TipDue(s, b, c, d, start, true);
    } else {
      EarlyStep(dag, s, a, b, c, d, start, true, step);
      MessagesStep(dag, s, step);
      AttendedStep(dag, s, b, step);
      AttendedStep(dag, s, c, step);
    }
  }

  lemma {:induction false} PatientRun(dag: Dag, s: State, a: Name, b: Dependent, c: Dependent, d: Dependent, start: nat,
          steps: seq<Step>)
    requires IsDiamond(dag, a, b, c, d) && Merges(b, c, d) && Patient(s, b, c, d, start)
    requires Quiet(steps) && CanRun(dag, s, steps) && PromptRun(dag, s, steps) && Publishes(steps)
    ensures Patient(Run(dag, s, steps), b, c, d, start)
    decreases steps
  {
    if steps != [] {
      PatientStep(dag, s, a, b, c, d, start, steps[0]);
      assert forall i :: 0 <= i < |steps| - 1 ==> steps[1..][i] == steps[i + 1];
      PatientRun(dag, Apply(dag, s, steps[0]), a, b, c, d, start, steps[1..]);
    }
  }

  /** A wave reaches the tip through its siblings alone. */
  lemma UpstreamIsSibling(dag: Dag, order: seq<Name>, a: Name, b: Dependent, c: Dependent, d: Dependent, u: Name)
    requires Respects(dag, order) && IsDiamond(dag, a, b, c, d) && UpstreamInWave(dag, a, d.name, u)
    ensures IsSibling(u, b, c)
  {
    var p :| IsPath(dag, p, a, u);
    if |p| > 1 {
      PathRest(dag, p, a, u);
      assert IsSibling(p[1], b, c);
      if |p| > 2 {
        PathRest(dag, p[1..], p[1], u);
        assert p[2] == d.name;
        PathRanksUp(dag, order, p[1..][1..], p[2], u, u);
        TriggersRankUp(dag, order, u, d.name);
      }
    }
  }

  lemma PatientWaits(dag: Dag, order: seq<Name>, a: Name, b: Dependent, c: Dependent, d: Dependent, now: nat,
          steps: seq<Step>)
    requires Respects(dag, order) && IsDiamond(dag, a, b, c, d) && Merges(b, c, d)
    requires IsPromptWave(dag, now, steps, a) && Publishes(steps)
    ensures Waited(dag, a, d.name, Run(dag, Initial(now), steps))
  {
    var u, post := WaveSplits(dag, Initial(now), a, b, c, d, steps);
    var t := Run(dag, Initial(now), steps);
    if !Untouched(t, a, d) {
      ArmedIsEarly(u, a, b, c, d, u.now, true);
      PatientRun(dag, u, a, b, c, d, u.now, post);
      forall v | UpstreamInWave(dag, a, d.name, v) ensures IsSibling(v, b, c) {
        UpstreamIsSibling(dag, order, a, b, c, d, v);
      }
    }
  }

  lemma {:induction false} SentCounts(sent: seq<Publish>, i: nat)
    requires i < |sent|
    ensures Publications(sent, sent[i].name) >= 1
  {
    if i < |sent| - 1 { SentCounts(sent[..|sent| - 1], i); }
  }

  lemma ImpatientInOrder(dag: Dag, a: Name, x: Dependent, y: Dependent, d: Dependent)
    requires IsDiamond(dag, a, x, y, d) && Misses(x, y, d)
    ensures !WaitsInFullRuns(dag, a, d.name)
  {
    var steps, t := TipRequestedEarly(dag, a, x, y, d);
    var wave := PromptWave(dag, 0, a, steps, t);
    if Sent(t.sent, y.name) {
      var i :| 0 <= i < |t.sent| && t.sent[i].name == y.name;
      SentCounts(t.sent, i);
    }
    SiblingReached(dag, a, x, y, d, y);
    assert Publishes(wave) && !Waited(dag, a, d.name, t);
  }

  /** When builds publish, the tip waits for both siblings exactly when its window outlasts their builds. */
  lemma DiamondWaitsExactly(dag: Dag, order: seq<Name>, a: Name, b: Dependent, c: Dependent, d: Dependent)
    requires Respects(dag, order) && IsDiamond(dag, a, b, c, d)
    ensures WaitsInFullRuns(dag, a, d.name) <==> Merges(b, c, d)
  {
    if Merges(b, c, d) {
      forall now: nat, steps | IsPromptWave(dag, now, steps, a) && Publishes(steps)
        ensures Waited(dag, a, d.name, Run(dag, Initial(now), steps))
      {
        PatientWaits(dag, order, a, b, c, d, now, steps);
      }
    } else if Misses(b, c, d) {
      ImpatientInOrder(dag, a, b, c, d);
    } else {
      ImpatientInOrder(dag, a, c, b, d);
    }
  }

  /** When builds may fail, no window helps: on every diamond a prompt run requests the tip although a
      sibling never publishes. */
  lemma TipMayPrecedeSibling(dag: Dag, order: seq<Name>, a: Name, b: Dependent, c: Dependent, d: Dependent)
    requires Respects(dag, order) && IsDiamond(dag, a, b, c, d)
    ensures !WaitsForWave(dag, a, d.name)
  {
    SiblingReached(dag, a, b, c, d, b);
    SiblingReached(dag, a, b, c, d, c);
    WaitsExactly(dag, order, a, d.name);
  }
}
