/** The cascade engine's task: its pending map and request channel, updated in place. */
module CascadeEngine {
  import opened Wrappers
  import opened Cascade

  ghost predicate Distinct(names: seq<Name>) {
    forall a, b :: 0 <= a < b < |names| ==> names[a] != names[b]
  }

  function RequestsFor(pending: PendingMap, names: seq<Name>): seq<Request>
    requires forall n :: n in names ==> n in pending
  {
    if names == [] then []
    else
      var k := |names| - 1;
      RequestsFor(pending, names[..k]) + [Request(names[k], pending[names[k]].timeout)]
  }

  function Without(pending: PendingMap, names: seq<Name>): PendingMap {
    pending - (set n | n in names)
  }

  /** `fired` lists the entries due at `now`, each once. */
  ghost predicate IsDueList(pending: PendingMap, now: nat, fired: seq<Name>) {
    && Distinct(fired)
    && forall n :: n in fired <==> n in pending && pending[n].fireAt <= now
  }

  class Engine {
    const dag: Dag
    var pending: PendingMap
    var requests: seq<Request>

    constructor (dag: Dag)
      ensures this.dag == dag && pending == map[] && requests == []
    {
      this.dag := dag;
      pending := map[];
      requests := [];
    }

    /** React to a publish of `name` whose build began at `buildStart`. */
    method HandlePublish(name: Name, buildStart: nat, now: nat)
      modifies this`pending
      ensures pending == OnPublish(dag, old(pending), name, buildStart, now)
    {
      if name in pending && pending[name].triggerAt <= buildStart {
        pending := pending - {name};
      }
      if name in dag {
        var deps := dag[name];
        ghost var cleared := pending;
        for k := 0 to |deps|
          invariant pending == Arm(cleared, deps[..k], now)
        {
          assert deps[..k + 1][..k] == deps[..k];
          pending := pending[deps[k].name := Pending(now + deps[k].debounce, deps[k].timeout, now)];
        }
        assert deps[..|deps|] == deps;
      }
    }

    /** The instant the engine sleeps until: the earliest pending fire. */
    method NextFire() returns (next: Option<nat>)
      ensures next.None? <==> pending == map[]
      ensures next.Some? ==> exists n :: n in pending && pending[n].fireAt == next.value
      ensures next.Some? ==> forall n :: n in pending ==> next.value <= pending[n].fireAt
    {
      next := None;
      var left := pending.Keys;
      ghost var seen: set<Name> := {};
      while left != {}
        invariant left + seen == pending.Keys
        invariant next.None? <==> seen == {}
        invariant next.Some? ==> exists n :: n in seen && pending[n].fireAt == next.value
        invariant next.Some? ==> forall n :: n in seen ==> next.value <= pending[n].fireAt
        decreases left
      {
        var n :| n in left;
        if next.None? || pending[n].fireAt < next.value { next := Some(pending[n].fireAt); }
        left, seen := left - {n}, seen + {n};
      }
    }

    /** Emit a request for every entry due at `now`, in some order, and forget those entries. */
    method FireDue(now: nat) returns (fired: seq<Name>)
      modifies this
      ensures IsDueList(old(pending), now, fired)
      ensures pending == Without(old(pending), fired)
      ensures requests == old(requests) + RequestsFor(old(pending), fired)
    {
      fired := CollectDue(now);
      ghost var before := pending;
      for k := 0 to |fired|
        invariant pending == Without(before, fired[..k])
        invariant requests == old(requests) + RequestsFor(before, fired[..k])
      {
        assert fired[..k + 1][..k] == fired[..k];
        assert fired[k] in fired && fired[k] !in fired[..k];
        requests := requests + [Request(fired[k], pending[fired[k]].timeout)];
        pending := pending - {fired[k]};
        assert fired[..k + 1] == fired[..k] + [fired[k]];
      }
      assert fired[..|fired|] == fired;
    }

    method CollectDue(now: nat) returns (fired: seq<Name>)
      ensures IsDueList(pending, now, fired)
    {
      fired := [];
      var left := pending.Keys;
      while left != {}
        invariant left <= pending.Keys && Distinct(fired)
        invariant forall n :: n in fired <==> n in pending && n !in left && pending[n].fireAt <= now
        decreases left
      {
        var n :| n in left;
        left := left - {n};
        if pending[n].fireAt <= now { fired := fired + [n]; }
      }
    }
  }

  // ------------------------------------------------- a batch is a run of fire steps

  function Fires(names: seq<Name>): seq<Step> {
    if names == [] then [] else [Fire(names[0])] + Fires(names[1..])
  }

  ghost predicate AllDue(pending: PendingMap, now: nat, names: seq<Name>) {
    Distinct(names) && forall n :: n in names ==> n in pending && pending[n].fireAt <= now
  }

  lemma DueAfterFirst(pending: PendingMap, now: nat, names: seq<Name>)
    requires names != [] && AllDue(pending, now, names)
    ensures names[0] in pending && pending[names[0]].fireAt <= now
    ensures AllDue(pending - {names[0]}, now, names[1..])
    ensures Without(pending, names) == Without(pending - {names[0]}, names[1..])
  {
    assert names == [names[0]] + names[1..];
    assert names[0] in names;
  }

  /** Firing a due list one by one is a run of the protocol, and ends where `FireDue` ends. */
  lemma {:induction false} BatchIsRun(dag: Dag, s: State, fired: seq<Name>)
    requires AllDue(s.pending, s.now, fired)
    ensures CanRun(dag, s, Fires(fired))
    ensures Run(dag, s, Fires(fired)).pending == Without(s.pending, fired)
    ensures Run(dag, s, Fires(fired)).requests == s.requests + RequestsFor(s.pending, fired)
    decreases fired
  {
    if fired == [] {
      assert Without(s.pending, fired) == s.pending;
    } else {
      DueAfterFirst(s.pending, s.now, fired);
      var next := Apply(dag, s, Fire(fired[0]));
      BatchIsRun(dag, next, fired[1..]);
      RunCons(dag, s, Fire(fired[0]), Fires(fired[1..]));
      RequestsForRest(s.pending, fired);
      var first := [Request(fired[0], s.pending[fired[0]].timeout)];
      var others := RequestsFor(next.pending, fired[1..]);
      assert (s.requests + first) + others == s.requests + (first + others);
    }
  }

  lemma {:induction false} RequestsForRest(pending: PendingMap, names: seq<Name>)
    requires names != [] && Distinct(names) && forall n :: n in names ==> n in pending
    ensures RequestsFor(pending, names)
            == [Request(names[0], pending[names[0]].timeout)] + RequestsFor(pending - {names[0]}, names[1..])
  {
    var k := |names| - 1;
    if k > 0 {
      RequestsForRest(pending, names[..k]);
      assert names[..k][1..] == names[1..][..k - 1];
    }
  }
}
