/** Diamonds on time: when siblings and tip share a build of the tip, every prompt wave refreshes the
    tip at most once, because its publish clears what a late sibling armed. */
module CascadeDiamondBuilds {
  import opened Cascade
  import opened CascadePotential
  import opened CascadeTermination
  import opened CascadeRuns
  import opened CascadePaths
  import opened CascadePrompt
  import opened CascadeDiamond

  /** The tip was requested while a sibling is still building. */
  ghost predicate Behind(s: State, b: Dependent, c: Dependent, d: Dependent) {
    && s.pending == map[] && s.publishes == [] && s.requests == [Request(d.name, d.timeout)]
    && s.building.Some? && IsSibling(s.building.value.request.name, b, c)
    && Publications(s.sent, d.name) == 0
  }

  /** The tip's request waits, is being built, or was published by a build that began at `at` or later;
      in the last case the publish is `own`. */
  ghost predicate Tip(s: State, d: Dependent, at: nat, own: seq<Publish>) {
    && (own == [] ==>
          && Publications(s.sent, d.name) == 0
          && if s.building.None? then s.now == at && s.requests == [Request(d.name, d.timeout)]
             else s.requests == [] && s.building.value == Build(Request(d.name, d.timeout), at))
    && (own != [] ==>
          && Publications(s.sent, d.name) == 1 && s.building.None? && s.requests == []
          && |own| == 1 && own[0].name == d.name && at <= own[0].buildStart)
    && s.now <= at + d.timeout
  }

  /** The last sibling's publish waits for the engine, or has armed the tip again, at `at` both. */
  ghost predicate Trigger(s: State, b: Dependent, c: Dependent, d: Dependent, at: nat, own: seq<Publish>) {
    || (s.pending == map[] && s.now == at && s.publishes != [] && IsSibling(s.publishes[0].name, b, c)
        && s.publishes[1..] == own)
    || (s.pending.Keys == {d.name} && s.pending[d.name].triggerAt == at
        && s.pending[d.name].fireAt == at + d.debounce && s.publishes == own)
  }

  /** A sibling published as the tip's build began: the build ends before the window does. */
  ghost predicate Race(s: State, b: Dependent, c: Dependent, d: Dependent, at: nat, own: seq<Publish>) {
    Tip(s, d, at, own) && Trigger(s, b, c, d, at, own)
  }

  /** No more than one refresh of the tip can come of this state. */
  ghost predicate Single(dag: Dag, order: seq<Name>, s: State, b: Dependent, c: Dependent, d: Dependent, start: nat,
          whole: bool)
  {
    || (Early(s, b, c, d, start, whole) && Publications(s.sent, d.name) == 0)
    || (!whole && Behind(s, b, c, d))
    || (!whole && exists at, own :: Race(s, b, c, d, at, own))
    || Coming(dag, order, d.name, s) <= 1
  }

  // -------------------------------------------------------------- the request of the tip

  lemma SiblingPath(dag: Dag, order: seq<Name>, a: Name, b: Dependent, c: Dependent, d: Dependent, x: Name)
    requires Respects(dag, order) && IsDiamond(dag, a, b, c, d) && IsSibling(x, b, c)
    ensures Paths(dag, order, d.name, x) == 1 && Paths(dag, order, d.name, d.name) == 0
  {
    NoPathsBack(dag, order, d.name);
    var deps := DependentsOf(dag, x);
    assert deps == [d] && !Lists(deps[..0], d.name);
    assert Walks(dag, order, d.name, d.name) == 1;
    assert Onward(dag, order, d.name, x, 1) == Onward(dag, order, d.name, x, 0) + 1;
  }

  /** Nothing is left but one request of the tip. */
  lemma LastRequest(dag: Dag, order: seq<Name>, s: State, d: Dependent)
    requires Respects(dag, order) && s.pending == map[] && s.publishes == [] && s.building.None?
    requires s.requests == [Request(d.name, d.timeout)] && Publications(s.sent, d.name) == 0
    ensures Coming(dag, order, d.name, s) == 1
  {
    NoPathsBack(dag, order, d.name);
    var f := From(dag, order, d.name);
    assert s.requests[1..] == [] && s.pending.Keys == {};
    assert RequestSum(f, s.requests) == f(d.name);
  }

  lemma TipRequested(dag: Dag, order: seq<Name>, s: State, a: Name, b: Dependent, c: Dependent, d: Dependent,
          start: nat, whole: bool)
    requires Respects(dag, order) && IsDiamond(dag, a, b, c, d)
    requires Early(s, b, c, d, start, whole) && Publications(s.sent, d.name) == 0 && Enabled(s, Fire(d.name))
    ensures Single(dag, order, Apply(dag, s, Fire(d.name)), b, c, d, start, whole)
  {
    var t := Apply(dag, s, Fire(d.name));
    TipDue(s, b, c, d, start, whole);
    assert t.pending.Keys == {};
    assert t.pending == map[] && t.requests == [Request(d.name, d.timeout)];
    if t.publishes != [] {
      assert Race(t, b, c, d, t.now, []);
    } else if t.building.None? {
      LastRequest(dag, order, t, d);
    }
  }

  lemma BehindPublishes(dag: Dag, s: State, a: Name, b: Dependent, c: Dependent, d: Dependent, buildStart: nat)
    requires IsDiamond(dag, a, b, c, d) && Behind(s, b, c, d) && Enabled(s, Finish(Published(buildStart)))
    ensures Race(Apply(dag, s, Finish(Published(buildStart))), b, c, d, s.now, [])
  {
    PublicationsAppend(s.sent, Publish(s.building.value.request.name, buildStart, s.now), d.name);
  }

  lemma BehindStep(dag: Dag, order: seq<Name>, s: State, a: Name, b: Dependent, c: Dependent, d: Dependent, start: nat,
          step: Step)
    requires Respects(dag, order) && IsDiamond(dag, a, b, c, d)
    requires Behind(s, b, c, d) && Enabled(s, step) && !step.Notify?
    ensures Single(dag, order, Apply(dag, s, step), b, c, d, start, false)
  {
    var t := Apply(dag, s, step);
    match step
    case Advance(_) => assert Behind(t, b, c, d);
    case Finish(outcome) =>
      if outcome.Published? {
        BehindPublishes(dag, s, a, b, c, d, outcome.buildStart);
      } else {
        LastRequest(dag, order, t, d);
      }
  }

  // ------------------------------------------------------------- the trigger that it covers

  lemma RaceReceive(dag: Dag, order: seq<Name>, s: State, a: Name, b: Dependent, c: Dependent, d: Dependent, at: nat,
          own: seq<Publish>)
    requires Respects(dag, order) && IsDiamond(dag, a, b, c, d)
    requires Race(s, b, c, d, at, own) && s.publishes != []
    ensures var t := Apply(dag, s, Receive); Race(t, b, c, d, at, own) || Coming(dag, order, d.name, t) <= 1
  {
    var msg, t := s.publishes[0], Apply(dag, s, Receive);
    if s.pending == map[] {
      assert DependentsOf(dag, msg.name) == [d];
      ArmOne(s.pending, d, s.now);
      assert t.pending == map[d.name := Pending(s.now + d.debounce, d.timeout, s.now)];
    } else {
      OwnReceived(dag, order, s, d, at, own);
    }
  }

  /** The tip's own publish clears the trigger. */
  lemma OwnReceived(dag: Dag, order: seq<Name>, s: State, d: Dependent, at: nat, own: seq<Publish>)
    requires Respects(dag, order) && Tip(s, d, at, own) && own != [] && s.publishes == own
    requires s.pending.Keys == {d.name} && s.pending[d.name].triggerAt == at
    ensures Coming(dag, order, d.name, Apply(dag, s, Receive)) <= 1
  {
    var u := s.(pending := map[]);
    assert (s.pending - {d.name}).Keys == {};
    assert s.pending - {d.name} == map[];
    assert Apply(dag, s, Receive) == Apply(dag, u, Receive);
    NoPathsBack(dag, order, d.name);
    assert own[1..] == [];
    ComingReceive(dag, order, d.name, u);
  }

  lemma RacePublishes(dag: Dag, s: State, b: Dependent, c: Dependent, d: Dependent, at: nat, own: seq<Publish>,
          buildStart: nat)
    returns (own': seq<Publish>)
    requires Race(s, b, c, d, at, own) && Enabled(s, Finish(Published(buildStart)))
    ensures Race(Apply(dag, s, Finish(Published(buildStart))), b, c, d, at, own')
  {
    var msg := Publish(d.name, buildStart, s.now);
    PublicationsAppend(s.sent, msg, d.name);
    own' := [msg];
    assert s.publishes + [msg] == own' || (s.publishes + [msg])[1..] == own';
  }

  /** Two refreshes at most lie ahead of the tip's build, its own one of them. */
  lemma RaceAhead(dag: Dag, order: seq<Name>, s: State, a: Name, b: Dependent, c: Dependent, d: Dependent, at: nat)
    requires Respects(dag, order) && IsDiamond(dag, a, b, c, d) && Race(s, b, c, d, at, []) && s.building.Some?
    ensures Coming(dag, order, d.name, s) <= 2
  {
    var f := From(dag, order, d.name);
    NoPathsBack(dag, order, d.name);
    if s.pending == map[] {
      SiblingPath(dag, order, a, b, c, d, s.publishes[0].name);
      assert s.publishes[1..] == [] && s.pending.Keys == {};
      assert PublishSum(Beyond(dag, order, d.name), s.publishes) == 1;
    } else {
      SetRemove(f, s.pending.Keys, d.name);
      assert s.pending.Keys - {d.name} == {};
      assert SetSum(f, s.pending.Keys) == f(d.name);
    }
    assert RequestSum(f, s.requests) == 0;
  }

  lemma RaceFails(dag: Dag, order: seq<Name>, s: State, a: Name, b: Dependent, c: Dependent, d: Dependent, at: nat,
          own: seq<Publish>, outcome: Outcome)
    requires Respects(dag, order) && IsDiamond(dag, a, b, c, d)
    requires Race(s, b, c, d, at, own) && Enabled(s, Finish(outcome)) && !outcome.Published?
    ensures Coming(dag, order, d.name, Apply(dag, s, Finish(outcome))) <= 1
  {
    RaceAhead(dag, order, s, a, b, c, d, at);
    LevelFinish(dag, ToPublish(dag, order, d.name), s, outcome);
  }

  lemma RaceStep(dag: Dag, order: seq<Name>, s: State, a: Name, b: Dependent, c: Dependent, d: Dependent, at: nat,
          own: seq<Publish>, step: Step)
    returns (own': seq<Publish>)
    requires Respects(dag, order) && IsDiamond(dag, a, b, c, d) && d.timeout < d.debounce
    requires Race(s, b, c, d, at, own) && Enabled(s, step) && OnTime(s, step) && !step.Notify?
    ensures var t := Apply(dag, s, step); Race(t, b, c, d, at, own') || Coming(dag, order, d.name, t) <= 1
  {
    own' := own;
    match step
    case Receive => RaceReceive(dag, order, s, a, b, c, d, at, own);
    case Finish(outcome) =>
      if outcome.Published? {
        own' := RacePublishes(dag, s, b, c, d, at, own, outcome.buildStart);
      } else {
        RaceFails(dag, order, s, a, b, c, d, at, own, outcome);
      }
    case _ =>
  }

  // ---------------------------------------------------------------------- every wave

  lemma EarlyUnpublished(dag: Dag, s: State, b: Dependent, c: Dependent, d: Dependent, start: nat, whole: bool,
          step: Step)
    requires b.name != d.name && c.name != d.name && Early(s, b, c, d, start, whole) && Enabled(s, step)
    requires Publications(s.sent, d.name) == 0 && !step.Notify?
    ensures Publications(Apply(dag, s, step).sent, d.name) == 0
  {
    if step.Finish? && step.outcome.Published? {
      PublicationsAppend(s.sent, Publish(s.building.value.request.name, step.outcome.buildStart, s.now), d.name);
    }
  }

  lemma SingleStep(dag: Dag, order: seq<Name>, s: State, a: Name, b: Dependent, c: Dependent, d: Dependent, start: nat,
          whole: bool, step: Step)
    requires Respects(dag, order) && IsDiamond(dag, a, b, c, d)
    requires Spread(b, c, d, whole) && (whole || d.timeout < d.debounce)
    requires Single(dag, order, s, b, c, d, start, whole) && Enabled(s, step) && OnTime(s, step) && !step.Notify?
    ensures Single(dag, order, Apply(dag, s, step), b, c, d, start, whole)
  {
    if Coming(dag, order, d.name, s) <= 1 {
      ComingStep(dag, order, d.name, s, step);
    } else if !whole && Behind(s, b, c, d) {
      BehindStep(dag, order, s, a, b, c, d, start, step);
    } else if !whole && exists at, own :: Race(s, b, c, d, at, own) {
      var at, own :| Race(s, b, c, d, at, own);
      var own' := RaceStep(dag, order, s, a, b, c, d, at, own, step);
    } else if step == Fire(d.name) {
      TipRequested(dag, order, s, a, b, c, d, start, whole);
    } else {
      EarlyStep(dag, s, a, b, c, d, start, whole, step);
      EarlyUnpublished(dag, s, b, c, d, start, whole, step);
    }
  }

  lemma {:induction false} SingleRun(dag: Dag, order: seq<Name>, s: State, a: Name, b: Dependent, c: Dependent,
          d: Dependent, start: nat, whole: bool, steps: seq<Step>)
    requires Respects(dag, order) && IsDiamond(dag, a, b, c, d)
    requires Spread(b, c, d, whole) && (whole || d.timeout < d.debounce)
    requires Single(dag, order, s, b, c, d, start, whole)
    requires Quiet(steps) && CanRun(dag, s, steps) && PromptRun(dag, s, steps)
    ensures Single(dag, order, Run(dag, s, steps), b, c, d, start, whole)
    decreases steps
  {
    if steps != [] {
      SingleStep(dag, order, s, a, b, c, d, start, whole, steps[0]);
      assert forall i :: 0 <= i < |steps| - 1 ==> steps[1..][i] == steps[i + 1];
      SingleRun(dag, order, Apply(dag, s, steps[0]), a, b, c, d, start, whole, steps[1..]);
    }
  }

  lemma {:induction false} NoneOfTip(sent: seq<Publish>, a: Name, d: Name)
    requires a != d && forall i :: 0 <= i < |sent| ==> sent[i].name == a
    ensures Publications(sent, d) == 0
  {
    if sent != [] { NoneOfTip(sent[..|sent| - 1], a, d); }
  }

  /** When the windows and timeouts let both siblings share a build, no prompt wave refreshes the tip
      twice, whether its builds publish or fail. */
  lemma RefreshedAtMostOnce(dag: Dag, order: seq<Name>, a: Name, b: Dependent, c: Dependent, d: Dependent, now: nat,
          steps: seq<Step>)
    requires Respects(dag, order) && IsDiamond(dag, a, b, c, d) && SharesBuild(b, c, d)
    requires CanRun(dag, Initial(now), steps) && PromptRun(dag, Initial(now), steps) && OneWave(steps, a)
    ensures Publications(Run(dag, Initial(now), steps).sent, d.name) <= 1
  {
    var u, post := WaveSplits(dag, Initial(now), a, b, c, d, steps);
    var t := Run(dag, Initial(now), steps);
    if Untouched(t, a, d) {
      NoneOfTip(t.sent, a, d.name);
    } else {
      NoneOfTip(u.sent, a, d.name);
      var whole := Merges(b, c, d);
      ArmedIsEarly(u, a, b, c, d, u.now, whole);
      SingleRun(dag, order, u, a, b, c, d, u.now, whole, post);
      SingleBound(dag, order, t, b, c, d, u.now, whole);
    }
  }

  lemma SingleBound(dag: Dag, order: seq<Name>, t: State, b: Dependent, c: Dependent, d: Dependent, start: nat,
          whole: bool)
    requires Single(dag, order, t, b, c, d, start, whole)
    ensures Publications(t.sent, d.name) <= 1
  {
  }
}
