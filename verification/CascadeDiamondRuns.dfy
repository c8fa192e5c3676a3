/** Diamonds on time, the runs that go wrong: prompt runs, firing in batches, in which the tip is
    requested before a sibling has published, and then again. */
module CascadeDiamondRuns {
  import opened Wrappers
  import opened Cascade
  import opened CascadeDebounce
  import opened CascadePotential
  import opened CascadeTermination
  import opened CascadeRuns
  import opened CascadePaths
  import opened CascadeRefreshes
  import opened CascadePrompt
  import opened CascadeDiamond
  import opened CascadeDiamondBuilds

  /** A prompt run from `s` to `t` whose builds all publish. */
  ghost predicate FullLeads(dag: Dag, s: State, steps: seq<Step>, t: State) {
    PromptLeads(dag, s, steps, t) && Publishes(steps)
  }

  lemma FullOn(dag: Dag, s: State, x: Step, t: State, steps: seq<Step>, u: State)
    requires Enabled(s, x) && OnTime(s, x) && t == Apply(dag, s, x) && !x.Notify? && FullLeads(dag, t, steps, u)
    requires (x.Fire? && SomeDue(t) ==> steps != [] && steps[0].Fire?) && (x.Finish? ==> x.outcome.Published?)
    ensures FullLeads(dag, s, [x] + steps, u)
  {
    PromptOn(dag, s, x, t, steps, u);
  }

  lemma FullJoin(dag: Dag, s: State, x: seq<Step>, t: State, y: seq<Step>, u: State)
    requires FullLeads(dag, s, x, t) && FullLeads(dag, t, y, u)
    ensures FullLeads(dag, s, x + y, u)
  {
    PromptJoin(dag, s, x, t, y, u);
  }

  // ---------------------------------------------------------------------- short runs

  /** From `s` to `t` only `name` published, and once, and nothing was requested. */
  ghost predicate OnePublished(s: State, t: State, name: Name) {
    && (forall x :: Requested(t.log, x) == Requested(s.log, x))
    && (forall x :: Publications(t.sent, x) == Publications(s.sent, x) + Only(name)(x))
  }

  /** The running build publishes, and the engine receives it. */
  lemma Conclude(dag: Dag, s: State) returns (steps: seq<Step>, t: State)
    requires s.publishes == [] && s.building.Some? && s.building.value.since <= s.now
    ensures FullLeads(dag, s, steps, t) && t.now == s.now && t.publishes == [] && t.building.None?
    ensures t.requests == s.requests
    ensures t.pending == OnPublish(dag, s.pending, s.building.value.request.name, s.now, s.now)
    ensures OnePublished(s, t, s.building.value.request.name)
  {
    var msg := Publish(s.building.value.request.name, s.now, s.now);
    var u := Apply(dag, s, Finish(Published(s.now)));
    assert u.publishes == [msg];
    t := Apply(dag, u, Receive);
    FullOn(dag, u, Receive, t, [], t);
    FullOn(dag, s, Finish(Published(s.now)), u, [Receive] + [], t);
    steps := [Finish(Published(s.now))] + ([Receive] + []);
    forall x ensures Requested(t.log, x) == Requested(s.log, x) { RequestedAppend(s.log, Received(msg, s.now), x); }
    forall x ensures Publications(t.sent, x) == Publications(s.sent, x) + Only(msg.name)(x) {
      PublicationsAppend(s.sent, msg, x);
    }
  }

  /** The first request is served at once. */
  lemma ServeFirst(dag: Dag, s: State) returns (steps: seq<Step>, t: State)
    requires s.publishes == [] && s.building.None? && s.requests != []
    ensures FullLeads(dag, s, steps, t) && t.now == s.now && Idle(t.(requests := [])) && t.requests == s.requests[1..]
    ensures t.pending == OnPublish(dag, s.pending, s.requests[0].name, s.now, s.now)
    ensures OnePublished(s, t, s.requests[0].name)
  {
    var u := Apply(dag, s, Begin);
    steps, t := Conclude(dag, u);
    FullOn(dag, s, Begin, u, steps, t);
    steps := [Begin] + steps;
  }

  /** Time passes until `x` is due, and `x` is requested, alone. */
  lemma FireAlone(dag: Dag, s: State, x: Name) returns (steps: seq<Step>, t: State)
    requires x in s.pending && s.now <= s.pending[x].fireAt && s.publishes == []
    requires forall y :: y in s.pending && y != x ==> s.pending[x].fireAt < s.pending[y].fireAt
    requires s.pending[x].fireAt == s.now || s.requests == [] || s.building.Some?
    requires s.building.Some? ==> s.pending[x].fireAt <= s.building.value.since + s.building.value.request.timeout
    ensures FullLeads(dag, s, steps, t)
    ensures t == s.(now := s.pending[x].fireAt, pending := s.pending - {x},
                    requests := s.requests + [Request(x, s.pending[x].timeout)],
                    log := s.log + [Emitted(Request(x, s.pending[x].timeout), s.pending[x].fireAt)])
  {
    var wait := Advance(s.pending[x].fireAt - s.now);
    var u := Apply(dag, s, wait);
    t := Apply(dag, u, Fire(x));
    FullOn(dag, u, Fire(x), t, [], t);
    FullOn(dag, s, wait, u, [Fire(x)] + [], t);
    steps := [wait] + ([Fire(x)] + []);
  }

  /** Two entries fall due together, and are requested in the one order or the other. */
  lemma FireBoth(dag: Dag, s: State, x: Name, y: Name) returns (steps: seq<Step>, t: State)
    requires x != y && s.pending.Keys == {x, y} && s.pending[x].fireAt == s.pending[y].fireAt
    requires s.now <= s.pending[x].fireAt && Idle(s)
    ensures FullLeads(dag, s, steps, t) && t.now == s.pending[x].fireAt && t.pending == map[]
    ensures t.publishes == [] && t.building.None? && t.sent == s.sent
    ensures t.requests == [Request(x, s.pending[x].timeout), Request(y, s.pending[y].timeout)]
    ensures forall z :: Requested(t.log, z) == Requested(s.log, z) + if z == x || z == y then 1 else 0
  {
    var at := s.pending[x].fireAt;
    var u := Apply(dag, s, Advance(at - s.now));
    var v := Apply(dag, u, Fire(x));
    t := Apply(dag, v, Fire(y));
    assert t.pending.Keys == {};
    FullOn(dag, v, Fire(y), t, [], t);
    FullOn(dag, u, Fire(x), v, [Fire(y)] + [], t);
    FullOn(dag, s, Advance(at - s.now), u, [Fire(x)] + ([Fire(y)] + []), t);
    steps := [Advance(at - s.now)] + ([Fire(x)] + ([Fire(y)] + []));
    BothEmitted(s.log, Request(x, s.pending[x].timeout), Request(y, s.pending[y].timeout), at);
  }

  lemma BothEmitted(log: seq<Event>, x: Request, y: Request, at: nat)
    requires x.name != y.name
    ensures forall z :: Requested(log + [Emitted(x, at)] + [Emitted(y, at)], z)
                     == Requested(log, z) + if z == x.name || z == y.name then 1 else 0
  {
    forall z ensures Requested(log + [Emitted(x, at)] + [Emitted(y, at)], z)
                  == Requested(log, z) + if z == x.name || z == y.name then 1 else 0
    {
      RequestedAppend(log, Emitted(x, at), z);
      RequestedAppend(log + [Emitted(x, at)], Emitted(y, at), z);
    }
  }

  // ------------------------------------------------------- the tip before a sibling

  /** The tip was requested and has published so often, and `y` never published. */
  ghost predicate Tally(s: State, y: Dependent, d: Dependent, requested: nat, published: nat) {
    && Requested(s.log, d.name) == requested && Publications(s.sent, d.name) == published
    && Publications(s.sent, y.name) == 0
  }

  /** The entry of `x` when armed at `at`. */
  function Timer(x: Dependent, at: nat): Pending {
    Pending(at + x.debounce, x.timeout, at)
  }

  /** The sibling that is due first has published and armed the tip, the other one is still pending. */
  ghost predicate FirstPublished(t: State, x: Dependent, y: Dependent, d: Dependent) {
    && t.now == x.debounce && Idle(t) && Tally(t, y, d, 0, 0)
    && t.pending == map[y.name := Timer(y, 0), d.name := Timer(d, x.debounce)]
  }

  /** The other one is building as the tip's window runs. */
  ghost predicate Overlaps(t: State, x: Dependent, y: Dependent, d: Dependent) {
    && t.now == y.debounce && t.publishes == [] && t.requests == [] && Tally(t, y, d, 0, 0)
    && t.building == Some(Build(Request(y.name, y.timeout), y.debounce))
    && t.pending == map[d.name := Timer(d, x.debounce)]
  }

  lemma ArmedTally(t: State, a: Name, x: Dependent, y: Dependent, d: Dependent)
    requires a != y.name && a != d.name && Untouched(t, a, d)
    ensures Tally(t, y, d, 0, 0)
  {
    NoneOfTip(t.sent, a, d.name);
    NoneOfTip(t.sent, a, y.name);
  }

  lemma PublishFirst(dag: Dag, s: State, a: Name, x: Dependent, y: Dependent, d: Dependent)
    returns (steps: seq<Step>, t: State)
    requires IsDiamond(dag, a, x, y, d) && BothArmed(s, a, x, y, d, 0) && x.debounce < y.debounce
    ensures FullLeads(dag, s, steps, t) && FirstPublished(t, x, y, d)
  {
    var fire, u := FireAlone(dag, s, x.name);
    RequestedAppend(s.log, Emitted(Request(x.name, x.timeout), x.debounce), d.name);
    ArmedTally(s, a, x, y, d);
    assert u.pending == map[y.name := Timer(y, 0)];
    var serve;
    serve, t := ServeFirst(dag, u);
    ArmOne(u.pending, d, x.debounce);
    FullJoin(dag, s, fire, u, serve, t);
    steps := fire + serve;
  }

  /** Both fall due together, and one of them is served. */
  lemma OverlapAtOnce(dag: Dag, s: State, a: Name, x: Dependent, y: Dependent, d: Dependent)
    returns (steps: seq<Step>, t: State)
    requires IsDiamond(dag, a, x, y, d) && BothArmed(s, a, x, y, d, 0) && x.debounce == y.debounce
    ensures FullLeads(dag, s, steps, t) && Overlaps(t, x, y, d)
  {
    var fire, u := FireBoth(dag, s, x.name, y.name);
    ArmedTally(s, a, x, y, d);
    var serve, v := ServeFirst(dag, u);
    ArmOne(u.pending, d, x.debounce);
    t := Apply(dag, v, Begin);
    FullOn(dag, v, Begin, t, [], t);
    FullJoin(dag, u, serve, v, [Begin] + [], t);
    FullJoin(dag, s, fire, u, serve + ([Begin] + []), t);
    steps := fire + (serve + ([Begin] + []));
  }

  lemma Overlap(dag: Dag, s: State, a: Name, x: Dependent, y: Dependent, d: Dependent)
    returns (steps: seq<Step>, t: State)
    requires IsDiamond(dag, a, x, y, d) && BothArmed(s, a, x, y, d, 0)
    requires x.debounce == y.debounce || x.debounce < y.debounce < x.debounce + d.debounce
    ensures FullLeads(dag, s, steps, t) && Overlaps(t, x, y, d)
  {
    if x.debounce == y.debounce {
      steps, t := OverlapAtOnce(dag, s, a, x, y, d);
    } else {
      var first, u := PublishFirst(dag, s, a, x, y, d);
      var fire, v := FireAlone(dag, u, y.name);
      RequestedAppend(u.log, Emitted(Request(y.name, y.timeout), y.debounce), d.name);
      t := Apply(dag, v, Begin);
      assert v.requests == [Request(y.name, y.timeout)];
      assert v.pending == map[d.name := Timer(d, x.debounce)];
      FullOn(dag, v, Begin, t, [], t);
      FullJoin(dag, u, fire, v, [Begin] + [], t);
      FullJoin(dag, s, first, u, fire + ([Begin] + []), t);
      steps := first + (fire + ([Begin] + []));
    }
  }

  /** The tip is requested while the other sibling builds. */
  ghost predicate TipDuring(t: State, x: Dependent, y: Dependent, d: Dependent) {
    && t.now == x.debounce + d.debounce && Tally(t, y, d, 1, 0)
    && t.pending == map[] && t.publishes == [] && t.requests == [Request(d.name, d.timeout)]
    && t.building == Some(Build(Request(y.name, y.timeout), y.debounce))
  }

  /** The tip is requested while the other sibling is pending, or together with it. */
  ghost predicate TipBefore(t: State, x: Dependent, y: Dependent, d: Dependent) {
    && t.now == x.debounce + d.debounce && Tally(t, y, d, 1, 0) && t.publishes == [] && t.building.None?
    && t.requests != [] && t.requests[0] == Request(d.name, d.timeout)
    && d.name !in t.pending && (y.name in t.pending || t.requests[1..] == [Request(y.name, y.timeout)])
  }

  lemma RequestDuring(dag: Dag, s: State, a: Name, x: Dependent, y: Dependent, d: Dependent)
    returns (steps: seq<Step>, t: State)
    requires IsDiamond(dag, a, x, y, d) && BothArmed(s, a, x, y, d, 0)
    requires x.debounce == y.debounce || x.debounce < y.debounce < x.debounce + d.debounce
    requires x.debounce + d.debounce <= y.debounce + y.timeout
    ensures FullLeads(dag, s, steps, t) && TipDuring(t, x, y, d)
  {
    var lead, u := Overlap(dag, s, a, x, y, d);
    var fire;
    fire, t := FireAlone(dag, u, d.name);
    RequestedAppend(u.log, Emitted(Request(d.name, d.timeout), t.now), d.name);
    assert t.pending == map[];
    FullJoin(dag, s, lead, u, fire, t);
    steps := lead + fire;
  }

  lemma RequestBefore(dag: Dag, s: State, x: Dependent, y: Dependent, d: Dependent)
    returns (steps: seq<Step>, t: State)
    requires x.name != y.name && y.name != d.name && FirstPublished(s, x, y, d)
    requires x.debounce + d.debounce < y.debounce
    ensures FullLeads(dag, s, steps, t) && TipBefore(t, x, y, d)
  {
    assert s.pending[d.name] == Timer(d, x.debounce);
    steps, t := FireAlone(dag, s, d.name);
    RequestedAppend(s.log, Emitted(Request(d.name, d.timeout), t.now), d.name);
    assert t.requests == [Request(d.name, d.timeout)] && t.pending == map[y.name := Timer(y, 0)];
  }

  lemma RequestTogether(dag: Dag, s: State, x: Dependent, y: Dependent, d: Dependent)
    returns (steps: seq<Step>, t: State)
    requires x.name != y.name && y.name != d.name && FirstPublished(s, x, y, d)
    requires x.debounce + d.debounce == y.debounce
    ensures FullLeads(dag, s, steps, t) && TipBefore(t, x, y, d)
  {
    steps, t := FireBoth(dag, s, d.name, y.name);
  }

  // ------------------------------------------------------------------ the tip again

  /** A publish of the tip leaves what else is pending, and arms only what it triggers. */
  lemma TipDone(dag: Dag, order: seq<Name>, t: State, pending: PendingMap, d: Dependent, requests: seq<Request>)
    requires t.publishes == [] && Publications(t.sent, d.name) == 1 && t.requests == requests
    requires d.name !in pending && t.pending == OnPublish(dag, pending, d.name, t.now, t.now)
    requires SetSum(From(dag, order, d.name), pending.Keys) + RequestSum(From(dag, order, d.name), requests) >= 1
    ensures Ahead(dag, order, d.name, t, 1)
  {
    ArmCovers(From(dag, order, d.name), pending, DependentsOf(dag, d.name), t.now);
  }

  /** The other sibling comes too late for the tip's first build. */
  lemma TwiceAfter(dag: Dag, order: seq<Name>, s: State, a: Name, x: Dependent, y: Dependent, d: Dependent)
    returns (steps: seq<Step>, t: State)
    requires Respects(dag, order) && IsDiamond(dag, a, x, y, d) && TipBefore(s, x, y, d)
    ensures FullLeads(dag, s, steps, t) && Ahead(dag, order, d.name, t, 1) && t.building.None?
  {
    var f := From(dag, order, d.name);
    SiblingPath(dag, order, a, x, y, d, y.name);
    if y.name in s.pending {
      SetRemove(f, s.pending.Keys, y.name);
    } else {
      assert s.requests[1..] == [Request(y.name, y.timeout)];
      assert RequestSum(f, s.requests[1..]) >= f(y.name);
    }
    steps, t := ServeFirst(dag, s);
    TipDone(dag, order, t, s.pending, d, s.requests[1..]);
  }

  /** The sibling publishes and arms the tip again before the tip's request is served. */
  lemma ArmedAgain(dag: Dag, s: State, a: Name, x: Dependent, y: Dependent, d: Dependent)
    returns (steps: seq<Step>, t: State)
    requires IsDiamond(dag, a, x, y, d) && TipDuring(s, x, y, d) && y.debounce <= s.now
    ensures FullLeads(dag, s, steps, t) && t.now == s.now && t.publishes == [] && t.requests == []
    ensures t.building == Some(Build(Request(d.name, d.timeout), s.now))
    ensures t.pending == map[d.name := Timer(d, s.now)]
    ensures Requested(t.log, d.name) == 1 && Publications(t.sent, d.name) == 0
  {
    var serve, u := Conclude(dag, s);
    ArmOne(s.pending, d, s.now);
    t := Apply(dag, u, Begin);
    FullOn(dag, u, Begin, t, [], t);
    FullJoin(dag, s, serve, u, [Begin] + [], t);
    steps := serve + ([Begin] + []);
  }

  /** The build of the tip outlasts its window, and the tip is requested again. */
  lemma TwiceDuring(dag: Dag, order: seq<Name>, s: State, a: Name, x: Dependent, y: Dependent, d: Dependent)
    returns (steps: seq<Step>, t: State)
    requires Respects(dag, order) && IsDiamond(dag, a, x, y, d) && TipDuring(s, x, y, d) && y.debounce <= s.now
    requires d.debounce <= d.timeout
    ensures FullLeads(dag, s, steps, t) && Ahead(dag, order, d.name, t, 1) && t.building.None?
  {
    var arm, u := ArmedAgain(dag, s, a, x, y, d);
    var fire, v := FireAlone(dag, u, d.name);
    var serve;
    serve, t := Conclude(dag, v);
    FullJoin(dag, u, fire, v, serve, t);
    FullJoin(dag, s, arm, u, fire + serve, t);
    steps := arm + (fire + serve);
    var f := From(dag, order, d.name);
    assert v.requests == [Request(d.name, d.timeout)];
    assert RequestSum(f, v.requests) >= f(d.name);
    TipDone(dag, order, t, v.pending, d, v.requests);
  }

  /** The build of the tip fails, so that nothing clears the second trigger. */
  lemma RequestedTwice(dag: Dag, s: State, a: Name, x: Dependent, y: Dependent, d: Dependent)
    returns (steps: seq<Step>, t: State)
    requires IsDiamond(dag, a, x, y, d) && TipDuring(s, x, y, d) && y.debounce <= s.now
    ensures PromptLeads(dag, s, steps, t) && Requested(t.log, d.name) == 2
  {
    var arm, u := ArmedAgain(dag, s, a, x, y, d);
    var v := Apply(dag, u, Finish(Failed));
    var fire;
    fire, t := FireAlone(dag, v, d.name);
    RequestedAppend(v.log, Emitted(Request(d.name, d.timeout), t.now), d.name);
    PromptOn(dag, u, Finish(Failed), v, fire, t);
    PromptJoin(dag, s, arm, u, [Finish(Failed)] + fire, t);
    steps := arm + ([Finish(Failed)] + fire);
  }
}
