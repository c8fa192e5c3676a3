/** Diamonds on time: a prompt wave until it requests the tip, and a window long enough that it does
    so only once. */
module CascadeDiamond {
  import opened Cascade
  import opened CascadeDebounce
  import opened CascadePotential
  import opened CascadeTermination
  import opened CascadeRuns
  import opened CascadePaths
  import opened CascadePrompt

  /** `d` is triggered by `b` and `c`, and both by `a`. What `d` triggers is left open. */
  ghost predicate IsDiamond(dag: Dag, a: Name, b: Dependent, c: Dependent, d: Dependent) {
    && a != b.name && a != c.name && a != d.name && b.name != c.name && b.name != d.name && c.name != d.name
    && (DependentsOf(dag, a) == [b, c] || DependentsOf(dag, a) == [c, b])
    && DependentsOf(dag, b.name) == [d] && DependentsOf(dag, c.name) == [d]
  }

  /** When `x` is due no later than `y`: a build of `y` begins, or if `whole` even ends, within the
      tip's window after `x` is due. */
  predicate FollowsInWindow(x: Dependent, y: Dependent, d: Dependent, whole: bool) {
    x.debounce <= y.debounce ==> y.debounce - x.debounce + Span(y, whole) < d.debounce
  }

  function Span(x: Dependent, whole: bool): nat {
    if whole then x.timeout else 0
  }

  predicate Spread(b: Dependent, c: Dependent, d: Dependent, whole: bool) {
    FollowsInWindow(b, c, d, whole) && FollowsInWindow(c, b, d, whole)
  }

  /** The tip's window outlasts the siblings' builds, so that both share one request. */
  predicate Merges(b: Dependent, c: Dependent, d: Dependent) {
    Spread(b, c, d, true)
  }

  /** Both siblings begin within the tip's window, and they end within it too or else the tip's own
      build does: then a first build of the tip begins after both, and covers both. */
  predicate SharesBuild(b: Dependent, c: Dependent, d: Dependent) {
    Spread(b, c, d, false) && (Merges(b, c, d) || d.timeout < d.debounce)
  }

  // ----------------------------------------------------- before the tip is requested

  predicate Waiting(s: State, x: Dependent) {
    x.name in s.pending
  }

  predicate Queued(s: State, x: Dependent) {
    Request(x.name, x.timeout) in s.requests
  }

  predicate Serving(s: State, x: Dependent) {
    s.building.Some? && s.building.value.request == Request(x.name, x.timeout)
  }

  predicate Live(s: State, x: Dependent) {
    Waiting(s, x) || Queued(s, x) || Serving(s, x)
  }

  /** A sibling is in one place at most, and got there on time after the wave began at `start`. */
  predicate InPlace(s: State, x: Dependent, start: nat) {
    && (Waiting(s, x) ==>
          && s.pending[x.name].fireAt == start + x.debounce && s.pending[x.name].timeout == x.timeout
          && s.now <= start + x.debounce && !Queued(s, x) && !Serving(s, x))
    && (Queued(s, x) ==> start + x.debounce <= s.now && !Serving(s, x))
    && (Serving(s, x) ==> start + x.debounce <= s.now)
  }

  /** Requests are served in the order in which they fell due. */
  predicate InOrder(s: State, x: Dependent, y: Dependent) {
    && (Serving(s, x) && Queued(s, y) ==> x.debounce <= y.debounce)
    && (s.requests == [Request(x.name, x.timeout), Request(y.name, y.timeout)] ==> x.debounce <= y.debounce)
  }

  /** What a live sibling still does begins, or if `whole` is over, before `limit`. */
  predicate OverBefore(s: State, x: Dependent, start: nat, limit: nat, whole: bool) {
    && (Waiting(s, x) ==> start + x.debounce + Span(x, whole) < limit)
    && (Queued(s, x) ==> s.now + Span(x, whole) < limit)
    && (Serving(s, x) && whole ==> s.building.value.since + x.timeout < limit)
  }

  /** Once a sibling has published, the other is caught by the tip's window. */
  predicate Caught(s: State, x: Dependent, d: Dependent, start: nat, whole: bool) {
    && (d.name in s.pending ==> OverBefore(s, x, start, s.pending[d.name].fireAt, whole))
    && (s.publishes != [] ==> OverBefore(s, x, start, s.now + d.debounce, whole))
  }

  predicate QueueFits(requests: seq<Request>, x: Request, y: Request) {
    requests == [] || requests == [x] || requests == [y] || requests == [x, y] || requests == [y, x]
  }

  /** Each sibling is live, or has its publish under way, or has armed the tip: together at most two. */
  predicate TwoAtMost(s: State, b: Dependent, c: Dependent, d: Dependent) {
    (if Live(s, b) then 1 else 0) + (if Live(s, c) then 1 else 0)
    + |s.publishes| + (if d.name in s.pending then 1 else 0) <= 2
  }

  predicate IsSibling(x: Name, b: Dependent, c: Dependent) {
    x == b.name || x == c.name
  }

  /** A state of the wave in which the tip was not requested yet. */
  ghost predicate Early(s: State, b: Dependent, c: Dependent, d: Dependent, start: nat, whole: bool) {
    && Requested(s.log, d.name) == 0
    && s.pending.Keys <= {b.name, c.name, d.name}
    && (d.name in s.pending ==> s.pending[d.name].timeout == d.timeout)
    && QueueFits(s.requests, Request(b.name, b.timeout), Request(c.name, c.timeout))
    && (s.building.Some? ==>
          && (Serving(s, b) || Serving(s, c))
          && s.building.value.since <= s.now <= s.building.value.since + s.building.value.request.timeout)
    && (forall i :: 0 <= i < |s.publishes| ==> IsSibling(s.publishes[i].name, b, c))
    && InPlace(s, b, start) && InPlace(s, c, start) && InOrder(s, b, c) && InOrder(s, c, b)
    && Caught(s, b, d, start, whole) && Caught(s, c, d, start, whole) && TwoAtMost(s, b, c, d)
    && (whole && d.name in s.pending && s.publishes != [] ==> s.now < s.pending[d.name].fireAt)
  }

  lemma EarlyAdvance(dag: Dag, s: State, b: Dependent, c: Dependent, d: Dependent, start: nat, whole: bool, delta: nat)
    requires b.name != c.name && Early(s, b, c, d, start, whole) && OnTime(s, Advance(delta))
    ensures Early(Apply(dag, s, Advance(delta)), b, c, d, start, whole)
  {
  }

  lemma EarlySwap(s: State, b: Dependent, c: Dependent, d: Dependent, start: nat, whole: bool)
    requires Early(s, b, c, d, start, whole)
    ensures Early(s, c, b, d, start, whole)
  {
  }

  /** A sibling is due and moves from the pending map to the end of the queue. */
  ghost predicate Requests(s: State, t: State, x: Dependent) {
    && Waiting(s, x) && s.pending[x.name].fireAt <= s.now
    && t.now == s.now && t.publishes == s.publishes && t.building == s.building
    && t.pending == s.pending - {x.name} && t.requests == s.requests + [Request(x.name, x.timeout)]
  }

  /** It comes behind the other sibling if that is queued. */
  lemma EarlyRequests(s: State, t: State, b: Dependent, c: Dependent, d: Dependent, start: nat, whole: bool)
    requires b.name != c.name && b.name != d.name && c.name != d.name
    requires Early(s, b, c, d, start, whole) && Requests(s, t, b) && Requested(t.log, d.name) == 0
    ensures Early(t, b, c, d, start, whole)
  {
    var rb, rc := Request(b.name, b.timeout), Request(c.name, c.timeout);
    QueueWithout(s.requests, rb, rc);
    QueueAppend(s.requests, rb, rc);
    assert s.now == start + b.debounce;
    assert Queued(t, b) && (Queued(t, c) <==> Queued(s, c));
  }

  lemma EarlyFire(dag: Dag, s: State, b: Dependent, c: Dependent, d: Dependent, start: nat, whole: bool)
    requires b.name != c.name && b.name != d.name && c.name != d.name
    requires Early(s, b, c, d, start, whole) && Enabled(s, Fire(b.name))
    ensures Early(Apply(dag, s, Fire(b.name)), b, c, d, start, whole)
  {
    RequestedAppend(s.log, Emitted(Request(b.name, b.timeout), s.now), d.name);
    EarlyRequests(s, Apply(dag, s, Fire(b.name)), b, c, d, start, whole);
  }

  lemma QueueWithout(requests: seq<Request>, x: Request, y: Request)
    requires QueueFits(requests, x, y) && x !in requests
    ensures requests == [] || requests == [y]
  {
    assert x in [x] && x in [x, y] && x in [y, x];
  }

  lemma QueueAppend(requests: seq<Request>, x: Request, y: Request)
    requires x != y && (requests == [] || requests == [y])
    ensures QueueFits(requests + [x], x, y) && requests + [x] != [x, y]
    ensures requests + [x] == [y, x] ==> y in requests
  {
    assert requests == [y] ==> (requests + [x])[0] == y;
  }

  lemma EarlyBegin(dag: Dag, s: State, b: Dependent, c: Dependent, d: Dependent, start: nat, whole: bool)
    requires b.name != c.name && Early(s, b, c, d, start, whole) && Enabled(s, Begin)
    ensures Early(Apply(dag, s, Begin), b, c, d, start, whole)
  {
    if s.requests[0].name == b.name {
      EarlyBegins(dag, s, b, c, d, start, whole);
    } else {
      EarlySwap(s, b, c, d, start, whole);
      EarlyBegins(dag, s, c, b, d, start, whole);
      EarlySwap(Apply(dag, s, Begin), c, b, d, start, whole);
    }
  }

  lemma EarlyBegins(dag: Dag, s: State, b: Dependent, c: Dependent, d: Dependent, start: nat, whole: bool)
    requires b.name != c.name && Early(s, b, c, d, start, whole) && Enabled(s, Begin)
    requires s.requests[0].name == b.name
    ensures Early(Apply(dag, s, Begin), b, c, d, start, whole)
  {
    var rb, rc := Request(b.name, b.timeout), Request(c.name, c.timeout);
    assert s.requests == [rb] || s.requests == [rb, rc];
    assert s.requests[1..] == [] || s.requests[1..] == [rc];
  }

  /** The build of a sibling ends, and the sibling may have published. */
  ghost predicate Ends(s: State, t: State, x: Dependent) {
    && Serving(s, x) && t.now == s.now && t.pending == s.pending && t.requests == s.requests && t.building.None?
    && t.log == s.log
    && (t.publishes == s.publishes
        || (|t.publishes| == |s.publishes| + 1 && t.publishes[..|s.publishes|] == s.publishes
            && t.publishes[|s.publishes|].name == x.name))
  }

  lemma EarlyEnds(s: State, t: State, b: Dependent, c: Dependent, d: Dependent, start: nat, whole: bool)
    requires b.name != c.name && Spread(b, c, d, whole) && Early(s, b, c, d, start, whole) && Ends(s, t, b)
    ensures Early(t, b, c, d, start, whole)
  {
    EndsCaught(s, t, b, c, d, start, whole);
    assert forall i :: 0 <= i < |s.publishes| ==> t.publishes[..|s.publishes|][i] == s.publishes[i];
  }

  /** The other sibling is caught by the window that this publish will open. */
  lemma EndsCaught(s: State, t: State, b: Dependent, c: Dependent, d: Dependent, start: nat, whole: bool)
    requires b.name != c.name && Spread(b, c, d, whole) && Early(s, b, c, d, start, whole) && Ends(s, t, b)
    ensures Caught(t, b, d, start, whole) && Caught(t, c, d, start, whole)
  {
    assert !Live(t, b) && !Serving(t, c);
  }

  lemma EarlyFinish(dag: Dag, s: State, b: Dependent, c: Dependent, d: Dependent, start: nat, whole: bool,
          outcome: Outcome)
    requires b.name != c.name && Spread(b, c, d, whole)
    requires Early(s, b, c, d, start, whole) && Enabled(s, Finish(outcome))
    ensures Early(Apply(dag, s, Finish(outcome)), b, c, d, start, whole)
  {
    var t := Apply(dag, s, Finish(outcome));
    if Serving(s, b) {
      EarlyEnds(s, t, b, c, d, start, whole);
    } else {
      EarlySwap(s, b, c, d, start, whole);
      EarlyEnds(s, t, c, b, d, start, whole);
      EarlySwap(t, c, b, d, start, whole);
    }
  }

  /** The tip's timer restarts and other entries stay, but for one that the publish clears. */
  ghost predicate TipArmed(s: State, t: State, d: Dependent) {
    && t.now == s.now && t.requests == s.requests && t.building == s.building
    && s.publishes != [] && t.publishes == s.publishes[1..]
    && d.name in t.pending && t.pending[d.name].fireAt == s.now + d.debounce && t.pending[d.name].timeout == d.timeout
    && forall x :: x in t.pending && x != d.name ==> x in s.pending && t.pending[x] == s.pending[x]
  }

  lemma EarlyTipArmed(s: State, t: State, b: Dependent, c: Dependent, d: Dependent, start: nat, whole: bool)
    requires b.name != d.name && c.name != d.name && Spread(b, c, d, whole)
    requires Early(s, b, c, d, start, whole) && TipArmed(s, t, d)
    requires Requested(t.log, d.name) == 0
    ensures Early(t, b, c, d, start, whole)
  {
    forall x | x in t.pending ensures x in {b.name, c.name, d.name} {
      if x != d.name { assert x in s.pending.Keys; }
    }
  }

  lemma EarlyReceive(dag: Dag, s: State, a: Name, b: Dependent, c: Dependent, d: Dependent, start: nat, whole: bool)
    requires IsDiamond(dag, a, b, c, d) && Spread(b, c, d, whole)
    requires Early(s, b, c, d, start, whole) && s.publishes != []
    ensures Early(Apply(dag, s, Receive), b, c, d, start, whole)
  {
    var msg := s.publishes[0];
    RequestedAppend(s.log, Received(msg, s.now), d.name);
    assert DependentsOf(dag, msg.name) == [d];
    ReceiveArms(dag, s, d);
    EarlyTipArmed(s, Apply(dag, s, Receive), b, c, d, start, whole);
  }

  lemma ReceiveArms(dag: Dag, s: State, d: Dependent)
    requires s.publishes != [] && DependentsOf(dag, s.publishes[0].name) == [d]
    ensures TipArmed(s, Apply(dag, s, Receive), d)
  {
    ArmOne(Clear(s.pending, s.publishes[0].name, s.publishes[0].buildStart), d, s.now);
  }

  lemma ArmOne(pending: PendingMap, d: Dependent, now: nat)
    ensures Arm(pending, [d], now) == pending[d.name := Pending(now + d.debounce, d.timeout, now)]
  {
    assert [d][..0] == [];
  }

  lemma EarlyStep(dag: Dag, s: State, a: Name, b: Dependent, c: Dependent, d: Dependent, start: nat, whole: bool,
          step: Step)
    requires IsDiamond(dag, a, b, c, d) && Spread(b, c, d, whole) && Early(s, b, c, d, start, whole)
    requires Enabled(s, step) && OnTime(s, step) && !step.Notify? && step != Fire(d.name)
    ensures Early(Apply(dag, s, step), b, c, d, start, whole)
  {
    match step
    case Advance(delta) => EarlyAdvance(dag, s, b, c, d, start, whole, delta);
    case Receive => EarlyReceive(dag, s, a, b, c, d, start, whole);
    case Begin => EarlyBegin(dag, s, b, c, d, start, whole);
    case Finish(outcome) => EarlyFinish(dag, s, b, c, d, start, whole, outcome);
    case Fire(name) =>
      assert name in s.pending.Keys;
      if name == b.name {
        EarlyFire(dag, s, b, c, d, start, whole);
      } else {
        EarlySwap(s, b, c, d, start, whole);
        EarlyFire(dag, s, c, b, d, start, whole);
        EarlySwap(Apply(dag, s, step), c, b, d, start, whole);
      }
  }

  // ---------------------------------------------------------- how every wave begins

  ghost predicate NothingQueued(s: State) {
    s.pending == map[] && s.requests == [] && s.building.None?
  }

  /** Nothing concerns the tip yet, and no sibling has published. */
  ghost predicate Untouched(s: State, a: Name, d: Dependent) {
    Requested(s.log, d.name) == 0 && forall i :: 0 <= i < |s.sent| ==> s.sent[i].name == a
  }

  /** Both siblings are armed, and nothing else has happened. */
  ghost predicate BothArmed(t: State, a: Name, b: Dependent, c: Dependent, d: Dependent, now: nat) {
    && t.now == now && Idle(t) && Untouched(t, a, d)
    && t.pending == map[b.name := Pending(now + b.debounce, b.timeout, now),
                        c.name := Pending(now + c.debounce, c.timeout, now)]
  }

  lemma ArmedIsEarly(t: State, a: Name, b: Dependent, c: Dependent, d: Dependent, now: nat, whole: bool)
    requires b.name != c.name && b.name != d.name && c.name != d.name && BothArmed(t, a, b, c, d, now)
    ensures Early(t, b, c, d, now, whole)
  {
  }

  /** The publish of `a` is received. */
  lemma TopArmsBoth(dag: Dag, s: State, a: Name, b: Dependent, c: Dependent, d: Dependent)
    requires IsDiamond(dag, a, b, c, d) && NothingQueued(s) && Untouched(s, a, d)
    requires |s.publishes| == 1 && s.publishes[0].name == a
    ensures BothArmed(Apply(dag, s, Receive), a, b, c, d, s.now)
  {
    var msg := s.publishes[0];
    RequestedAppend(s.log, Received(msg, s.now), d.name);
    assert Clear(s.pending, msg.name, msg.buildStart) == map[];
    if DependentsOf(dag, a) == [b, c] { ArmTwo(b, c, s.now); } else { ArmTwo(c, b, s.now); }
  }

  lemma ArmTwo(x: Dependent, y: Dependent, now: nat)
    requires x.name != y.name
    ensures Arm(map[], [x, y], now)
         == map[x.name := Pending(now + x.debounce, x.timeout, now),
                y.name := Pending(now + y.debounce, y.timeout, now)]
  {
    assert [x, y][..1] == [x];
    ArmOne(map[], x, now);
  }

  /** A quiet prompt run from a state in which both siblings are armed. */
  ghost predicate Continues(dag: Dag, u: State, post: seq<Step>, t: State, a: Name, b: Dependent, c: Dependent,
          d: Dependent)
  {
    && BothArmed(u, a, b, c, d, u.now) && Quiet(post) && CanRun(dag, u, post) && PromptRun(dag, u, post)
    && Run(dag, u, post) == t
  }

  lemma {:induction false} TopSplits(dag: Dag, s: State, a: Name, b: Dependent, c: Dependent, d: Dependent,
          steps: seq<Step>)
    returns (u: State, post: seq<Step>)
    requires IsDiamond(dag, a, b, c, d) && NothingQueued(s) && Untouched(s, a, d)
    requires |s.publishes| == 1 && s.publishes[0].name == a
    requires Quiet(steps) && CanRun(dag, s, steps) && PromptRun(dag, s, steps)
    ensures Untouched(Run(dag, s, steps), a, d) || Continues(dag, u, post, Run(dag, s, steps), a, b, c, d)
    ensures Publishes(steps) ==> Publishes(post)
    decreases steps
  {
    u, post := s, [];
    if steps != [] {
      var t := Apply(dag, s, steps[0]);
      assert forall i :: 0 <= i < |steps| - 1 ==> steps[1..][i] == steps[i + 1];
      if steps[0].Receive? {
        TopArmsBoth(dag, s, a, b, c, d);
        u, post := t, steps[1..];
      } else {
        u, post := TopSplits(dag, t, a, b, c, d, steps[1..]);
      }
    }
  }

  /** Every prompt wave is one that has not begun, or continues from both siblings armed. */
  lemma {:induction false} WaveSplits(dag: Dag, s: State, a: Name, b: Dependent, c: Dependent, d: Dependent,
          steps: seq<Step>)
    returns (u: State, post: seq<Step>)
    requires IsDiamond(dag, a, b, c, d) && NothingQueued(s) && Untouched(s, a, d) && s.publishes == []
    requires OneWave(steps, a) && CanRun(dag, s, steps) && PromptRun(dag, s, steps)
    ensures Untouched(Run(dag, s, steps), a, d) || Continues(dag, u, post, Run(dag, s, steps), a, b, c, d)
    ensures Publishes(steps) ==> Publishes(post)
    decreases steps
  {
    u, post := s, [];
    if steps != [] {
      var t := Apply(dag, s, steps[0]);
      assert forall i :: 0 <= i < |steps| - 1 ==> steps[1..][i] == steps[i + 1];
      if steps[0].Notify? {
        u, post := TopSplits(dag, t, a, b, c, d, steps[1..]);
      } else {
        u, post := WaveSplits(dag, t, a, b, c, d, steps[1..]);
      }
    }
  }

  // --------------------------------------------------------------- at most one request

  /** When the tip falls due no sibling waits to begin, and if the window caught whole builds none is live. */
  lemma TipDue(s: State, b: Dependent, c: Dependent, d: Dependent, start: nat, whole: bool)
    requires b.name != d.name && c.name != d.name
    requires Early(s, b, c, d, start, whole) && Enabled(s, Fire(d.name))
    ensures s.pending.Keys == {d.name} && s.requests == [] && |s.publishes| <= 1
    ensures s.building.Some? ==> s.publishes == [] && !whole
    ensures whole ==> s.publishes == [] && !Live(s, b) && !Live(s, c)
  {
    assert !Waiting(s, b) && !Waiting(s, c) && !Queued(s, b) && !Queued(s, c);
    QueueWithout(s.requests, Request(b.name, b.timeout), Request(c.name, c.timeout));
    assert Request(c.name, c.timeout) in [Request(c.name, c.timeout)];
    forall x | x in s.pending ensures x == d.name { assert x in s.pending.Keys; }
    assert s.pending.Keys == {d.name};
  }

  lemma NoPathsBack(dag: Dag, order: seq<Name>, x: Name)
    requires Respects(dag, order)
    ensures Paths(dag, order, x, x) == 0
  {
    if Paths(dag, order, x, x) >= 1 {
      var p := SomePath(dag, order, x, x, |DependentsOf(dag, x)|);
      NoPathBack(dag, order, p, x);
    }
  }

  /** When the tip is requested the wave has nothing else left. */
  lemma EarlyTip(dag: Dag, order: seq<Name>, s: State, a: Name, b: Dependent, c: Dependent, d: Dependent, start: nat)
    requires Respects(dag, order) && IsDiamond(dag, a, b, c, d)
    requires Early(s, b, c, d, start, true) && Enabled(s, Fire(d.name))
    ensures Outlook(dag, order, d.name, Apply(dag, s, Fire(d.name))) <= 1
  {
    TipDue(s, b, c, d, start, true);
    LevelFire(dag, ToCome(dag, order, d.name), s, d.name);
    RequestedAppend(s.log, Emitted(Request(d.name, s.pending[d.name].timeout), s.now), d.name);
    NoPathsBack(dag, order, d.name);
    SetRemove(From(dag, order, d.name), s.pending.Keys, d.name);
  }

  /** The tip was not requested yet, or nothing more can bring about a second request. */
  ghost predicate Fine(dag: Dag, order: seq<Name>, s: State, b: Dependent, c: Dependent, d: Dependent, start: nat) {
    Early(s, b, c, d, start, true) || Outlook(dag, order, d.name, s) <= 1
  }

  lemma FineStep(dag: Dag, order: seq<Name>, s: State, a: Name, b: Dependent, c: Dependent, d: Dependent, start: nat,
          step: Step)
    requires Respects(dag, order) && IsDiamond(dag, a, b, c, d) && Merges(b, c, d)
    requires Fine(dag, order, s, b, c, d, start) && Enabled(s, step) && OnTime(s, step) && !step.Notify?
    ensures Fine(dag, order, Apply(dag, s, step), b, c, d, start)
  {
    if !Early(s, b, c, d, start, true) {
      OutlookStep(dag, order, d.name, s, step);
    } else if step == Fire(d.name) {
      EarlyTip(dag, order, s, a, b, c, d, start);
    } else {
      EarlyStep(dag, s, a, b, c, d, start, true, step);
    }
  }

  lemma {:induction false} FineRun(dag: Dag, order: seq<Name>, s: State, a: Name, b: Dependent, c: Dependent,
          d: Dependent, start: nat, steps: seq<Step>)
    requires Respects(dag, order) && IsDiamond(dag, a, b, c, d) && Merges(b, c, d)
    requires Fine(dag, order, s, b, c, d, start) && Quiet(steps) && CanRun(dag, s, steps) && PromptRun(dag, s, steps)
    ensures Fine(dag, order, Run(dag, s, steps), b, c, d, start)
    decreases steps
  {
    if steps != [] {
      FineStep(dag, order, s, a, b, c, d, start, steps[0]);
      assert forall i :: 0 <= i < |steps| - 1 ==> steps[1..][i] == steps[i + 1];
      FineRun(dag, order, Apply(dag, s, steps[0]), a, b, c, d, start, steps[1..]);
    }
  }

  /** When the tip's window outlasts the siblings' builds, every prompt wave requests the tip at most once. */
  lemma RequestedOnce(dag: Dag, order: seq<Name>, a: Name, b: Dependent, c: Dependent, d: Dependent, now: nat,
          steps: seq<Step>)
    requires Respects(dag, order) && IsDiamond(dag, a, b, c, d) && Merges(b, c, d)
    requires CanRun(dag, Initial(now), steps) && PromptRun(dag, Initial(now), steps) && OneWave(steps, a)
    ensures Requested(Run(dag, Initial(now), steps).log, d.name) <= 1
  {
    var u, post := WaveSplits(dag, Initial(now), a, b, c, d, steps);
    var t := Run(dag, Initial(now), steps);
    if !Untouched(t, a, d) {
      ArmedIsEarly(u, a, b, c, d, u.now, true);
      FineRun(dag, order, u, a, b, c, d, u.now, post);
    }
  }
}
