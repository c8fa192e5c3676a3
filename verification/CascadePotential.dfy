/** Potentials over the cascade's queues: what each kind of step does to a sum with one share per
    queued publish, pending entry, queued request and running build. */
module CascadePotential {
  import opened Cascade

  /** The share of a dataset name by where it is queued. */
  datatype Potential = Potential(publish: Name -> nat, pending: Name -> nat, request: Name -> nat, build: Name -> nat)

  ghost function PublishSum(f: Name -> nat, q: seq<Publish>): nat {
    if q == [] then 0 else f(q[0].name) + PublishSum(f, q[1..])
  }

  ghost function RequestSum(f: Name -> nat, q: seq<Request>): nat {
    if q == [] then 0 else f(q[0].name) + RequestSum(f, q[1..])
  }

  ghost function SetSum(f: Name -> nat, names: set<Name>): nat {
    if names == {} then 0
    else
      var x :| x in names;
      f(x) + SetSum(f, names - {x})
  }

  ghost function Level(p: Potential, s: State): nat {
    PublishSum(p.publish, s.publishes) + SetSum(p.pending, s.pending.Keys) + RequestSum(p.request, s.requests)
    + if s.building.None? then 0 else p.build(s.building.value.request.name)
  }

  /** The shares of the listed dependents, each name once. */
  ghost function FollowersSum(f: Name -> nat, deps: seq<Dependent>): nat {
    if deps == [] then 0
    else
      var n := |deps| - 1;
      FollowersSum(f, deps[..n]) + if Lists(deps[..n], deps[n].name) then 0 else f(deps[n].name)
  }

  lemma {:induction false} PublishAppend(f: Name -> nat, q: seq<Publish>, m: Publish)
    ensures PublishSum(f, q + [m]) == PublishSum(f, q) + f(m.name)
  {
    if q != [] {
      assert (q + [m])[1..] == q[1..] + [m];
      PublishAppend(f, q[1..], m);
    }
  }

  lemma {:induction false} RequestAppend(f: Name -> nat, q: seq<Request>, r: Request)
    ensures RequestSum(f, q + [r]) == RequestSum(f, q) + f(r.name)
  {
    if q != [] {
      assert (q + [r])[1..] == q[1..] + [r];
      RequestAppend(f, q[1..], r);
    }
  }

  lemma {:induction false} SetRemove(f: Name -> nat, names: set<Name>, x: Name)
    requires x in names
    ensures SetSum(f, names) == f(x) + SetSum(f, names - {x})
  {
    var y :| y in names && SetSum(f, names) == f(y) + SetSum(f, names - {y});
    if x != y {
      SetRemove(f, names - {y}, x);
      SetRemove(f, names - {x}, y);
      assert names - {x} - {y} == names - {y} - {x};
    }
  }

  lemma ClearLowers(f: Name -> nat, pending: PendingMap, name: Name, buildStart: nat)
    ensures SetSum(f, Clear(pending, name, buildStart).Keys) <= SetSum(f, pending.Keys)
  {
    if name in pending && pending[name].triggerAt <= buildStart {
      assert (pending - {name}).Keys == pending.Keys - {name};
      SetRemove(f, pending.Keys, name);
    }
  }

  lemma {:induction false} ArmRaises(f: Name -> nat, pending: PendingMap, deps: seq<Dependent>, now: nat)
    ensures SetSum(f, Arm(pending, deps, now).Keys) <= SetSum(f, pending.Keys) + FollowersSum(f, deps)
  {
    if deps != [] {
      var n := |deps| - 1;
      ArmRaises(f, pending, deps[..n], now);
      var before, d := Arm(pending, deps[..n], now).Keys, deps[n].name;
      assert Arm(pending, deps, now).Keys == before + {d};
      if d in before {
        assert before + {d} == before;
      } else {
        ArmEntry(pending, deps[..n], now, d);
        assert before + {d} - {d} == before;
        SetRemove(f, before + {d}, d);
      }
    }
  }

  /** Armed from nothing, the followers' shares are the whole sum. */
  lemma {:induction false} ArmExactly(f: Name -> nat, deps: seq<Dependent>, now: nat)
    ensures SetSum(f, Arm(map[], deps, now).Keys) == FollowersSum(f, deps)
  {
    if deps != [] {
      var n := |deps| - 1;
      ArmExactly(f, deps[..n], now);
      var before, d := Arm(map[], deps[..n], now).Keys, deps[n].name;
      ArmEntry(map[], deps[..n], now, d);
      assert Arm(map[], deps, now).Keys == before + {d};
      if d in before {
        assert before + {d} == before;
      } else {
        assert before + {d} - {d} == before;
        SetRemove(f, before + {d}, d);
      }
    }
  }

  lemma {:induction false} SetMore(f: Name -> nat, some: set<Name>, more: set<Name>)
    requires some <= more
    ensures SetSum(f, some) <= SetSum(f, more)
    decreases some
  {
    if some != {} {
      var x :| x in some;
      SetRemove(f, some, x);
      SetRemove(f, more, x);
      SetMore(f, some - {x}, more - {x});
    }
  }

  /** Arming keeps all shares, and has those of all it lists. */
  lemma ArmCovers(f: Name -> nat, pending: PendingMap, deps: seq<Dependent>, now: nat)
    ensures SetSum(f, Arm(pending, deps, now).Keys) >= SetSum(f, pending.Keys)
    ensures SetSum(f, Arm(pending, deps, now).Keys) >= FollowersSum(f, deps)
  {
    var after, listed := Arm(pending, deps, now), Arm(map[], deps, now);
    forall x | x in pending || x in listed ensures x in after {
      ArmEntry(pending, deps, now, x);
      ArmEntry(map[], deps, now, x);
    }
    SetMore(f, pending.Keys, after.Keys);
    SetMore(f, listed.Keys, after.Keys);
    ArmExactly(f, deps, now);
  }

  lemma ClearKeeps(f: Name -> nat, pending: PendingMap, name: Name, buildStart: nat)
    requires f(name) == 0
    ensures SetSum(f, Clear(pending, name, buildStart).Keys) == SetSum(f, pending.Keys)
  {
    if name in pending && pending[name].triggerAt <= buildStart {
      assert (pending - {name}).Keys == pending.Keys - {name};
      SetRemove(f, pending.Keys, name);
    }
  }

  // ----------------------------------------------------------------------- steps

  lemma LevelReceive(dag: Dag, p: Potential, s: State)
    requires s.publishes != []
    ensures var x := s.publishes[0].name;
            Level(p, Apply(dag, s, Receive)) + p.publish(x)
            <= Level(p, s) + FollowersSum(p.pending, DependentsOf(dag, x))
  {
    var msg := s.publishes[0];
    ClearLowers(p.pending, s.pending, msg.name, msg.buildStart);
    ArmRaises(p.pending, Clear(s.pending, msg.name, msg.buildStart), DependentsOf(dag, msg.name), s.now);
  }

  lemma LevelReceiveExactly(dag: Dag, p: Potential, s: State)
    requires s.publishes != [] && s.pending == map[]
    ensures var x := s.publishes[0].name;
            Level(p, Apply(dag, s, Receive)) + p.publish(x)
            == Level(p, s) + FollowersSum(p.pending, DependentsOf(dag, x))
  {
    var msg := s.publishes[0];
    assert Clear(s.pending, msg.name, msg.buildStart) == map[];
    ArmExactly(p.pending, DependentsOf(dag, msg.name), s.now);
  }

  lemma LevelReceiveArms(dag: Dag, p: Potential, s: State)
    requires s.publishes != []
    ensures Level(p, Apply(dag, s, Receive)) >= FollowersSum(p.pending, DependentsOf(dag, s.publishes[0].name))
  {
    var msg := s.publishes[0];
    ArmCovers(p.pending, Clear(s.pending, msg.name, msg.buildStart), DependentsOf(dag, msg.name), s.now);
  }

  /** Clearing loses nothing when the cleared dataset has no share. */
  lemma LevelReceiveKeeps(dag: Dag, p: Potential, s: State)
    requires s.publishes != [] && p.pending(s.publishes[0].name) == 0
    ensures Level(p, Apply(dag, s, Receive)) + p.publish(s.publishes[0].name) >= Level(p, s)
  {
    var msg := s.publishes[0];
    ClearKeeps(p.pending, s.pending, msg.name, msg.buildStart);
    ArmCovers(p.pending, Clear(s.pending, msg.name, msg.buildStart), DependentsOf(dag, msg.name), s.now);
  }

  lemma LevelFire(dag: Dag, p: Potential, s: State, d: Name)
    requires Enabled(s, Fire(d))
    ensures Level(p, Apply(dag, s, Fire(d))) + p.pending(d) == Level(p, s) + p.request(d)
  {
    assert (s.pending - {d}).Keys == s.pending.Keys - {d};
    SetRemove(p.pending, s.pending.Keys, d);
    RequestAppend(p.request, s.requests, Request(d, s.pending[d].timeout));
  }

  lemma LevelBegin(dag: Dag, p: Potential, s: State)
    requires Enabled(s, Begin)
    ensures var x := s.requests[0].name; Level(p, Apply(dag, s, Begin)) + p.request(x) == Level(p, s) + p.build(x)
  {
  }

  lemma LevelFinish(dag: Dag, p: Potential, s: State, outcome: Outcome)
    requires Enabled(s, Finish(outcome))
    ensures var x := s.building.value.request.name;
            Level(p, Apply(dag, s, Finish(outcome))) + p.build(x)
            == Level(p, s) + if outcome.Published? then p.publish(x) else 0
  {
    if outcome.Published? {
      PublishAppend(p.publish, s.publishes, Publish(s.building.value.request.name, outcome.buildStart, s.now));
    }
  }

  lemma LevelNotify(dag: Dag, p: Potential, s: State, name: Name, buildStart: nat)
    requires Enabled(s, Notify(name, buildStart))
    ensures Level(p, Apply(dag, s, Notify(name, buildStart))) == Level(p, s) + p.publish(name)
  {
    PublishAppend(p.publish, s.publishes, Publish(name, buildStart, s.now));
  }
}
