/** Generation storage of one query dataset on the local backend: each build writes a directory
    named by its identifier, points the view at it, seals it with a manifest, then removes all
    but the newest two sealed directories. */
module Generations {
  import opened Wrappers
  import opened Text
  import opened Listings

  /** What a generation directory holds: its parquet file, and the manifest that seals it. */
  datatype Generation = Generation(data: bool, manifest: bool)

  type Dirs = map<string, Generation>

  datatype Store = Store(dirs: Dirs, view: Option<string>)

  /** Where a build ends. All but `InMemory` and `Spilled` are failures; a failed rename may or
      may not have dropped the old view first. The collection after a spill leaves the `stuck`
      directories, whose removal fails, as they are. */
  datatype Fate =
    | TempFails
    | InMemory
    | RenameFails(dropped: bool)
    | CopyFails
    | ViewFails
    | SchemaFails
    | ManifestFails
    | Spilled(stuck: set<string>)

  // ----------------------------------------------------------------- specification

  predicate Sealed(dirs: Dirs, x: string) {
    x in dirs && dirs[x].manifest
  }

  /** The sealed generations with a greater identifier than `x`. */
  function Newer(dirs: Dirs, x: string): set<string> {
    set y | y in dirs && dirs[y].manifest && Less(x, y)
  }

  /** Collection keeps the sealed generations that fewer than two others outrank, and what it
      fails to remove. */
  ghost function Collected(dirs: Dirs, stuck: set<string>): Dirs {
    map x | x in dirs && (x in stuck || (dirs[x].manifest && |Newer(dirs, x)| < 2)) :: dirs[x]
  }

  /** The store after a build of generation `id`, before any collection. */
  function Written(s: Store, id: string, fate: Fate): Store {
    match fate
    case TempFails => s
    case InMemory => s.(view := None)
    case RenameFails(dropped) => if dropped then s.(view := None) else s
    case CopyFails => s.(dirs := s.dirs[id := Generation(false, false)])
    case ViewFails => s.(dirs := s.dirs[id := Generation(true, false)])
    case SchemaFails => Store(s.dirs[id := Generation(true, false)], Some(id))
    case ManifestFails => Store(s.dirs[id := Generation(true, false)], Some(id))
    case Spilled(_) => Store(s.dirs[id := Generation(true, true)], Some(id))
  }

  ghost function Built(s: Store, id: string, fate: Fate): Store {
    var w := Written(s, id, fate);
    if fate.Spilled? then w.(dirs := Collected(w.dirs, fate.stuck)) else w
  }

  // --------------------------------------------------------------------- the class

  ghost predicate Sorted(ids: seq<string>) {
    forall i, j :: 0 <= i < j < |ids| ==> Less(ids[i], ids[j])
  }

  function Insert(x: string, ids: seq<string>): seq<string> {
    if ids == [] || Less(x, ids[0]) then [x] + ids else [ids[0]] + Insert(x, ids[1..])
  }

  lemma {:induction false} InsertMembers(x: string, ids: seq<string>, y: string)
    ensures y in Insert(x, ids) <==> y == x || y in ids
  {
    if ids != [] && !Less(x, ids[0]) {
      InsertMembers(x, ids[1..], y);
      assert ids == [ids[0]] + ids[1..];
    }
  }

  lemma {:induction false} InsertSorted(x: string, ids: seq<string>)
    requires Sorted(ids) && x !in ids
    ensures Sorted(Insert(x, ids))
  {
    if ids != [] {
      if Less(x, ids[0]) {
        forall j | 0 <= j < |ids| ensures Less(x, ids[j]) {
          if j > 0 { LessTransitive(x, ids[0], ids[j]); }
        }
      } else {
        LessTotal(x, ids[0]);
        var rest := Insert(x, ids[1..]);
        InsertSorted(x, ids[1..]);
        forall j | 0 <= j < |rest| ensures Less(ids[0], rest[j]) {
          InsertMembers(x, ids[1..], rest[j]);
          if rest[j] != x {
            var k :| 0 <= k < |ids| - 1 && ids[1..][k] == rest[j];
            assert Less(ids[0], ids[k + 1]);
          }
        }
      }
    }
  }

  class GenerationStore {
    var dirs: Dirs
    var view: Option<string>

    function State(): Store
      reads this
    {
      Store(dirs, view)
    }

    constructor ()
      ensures State() == Store(map[], None)
    {
      dirs, view := map[], None;
    }

    /** The sealed generations in identifier order. */
    method ListComplete() returns (ids: seq<string>)
      ensures Sorted(ids)
      ensures forall x :: x in ids <==> Sealed(dirs, x)
    {
      ids := [];
      var left := dirs.Keys;
      while left != {}
        invariant left <= dirs.Keys && Sorted(ids)
        invariant forall x :: x in ids <==> Sealed(dirs, x) && x !in left
        decreases left
      {
        var x :| x in left;
        left := left - {x};
        if dirs[x].manifest {
          InsertSorted(x, ids);
          forall y ensures y in Insert(x, ids) <==> y == x || y in ids { InsertMembers(x, ids, y); }
          ids := Insert(x, ids);
        }
      }
    }

    /** Remove every directory that has no manifest or is not listed; a failure is logged and left. */
    method Remove(keep: seq<string>, stuck: set<string>)
      modifies this`dirs
      ensures dirs == map x | x in old(dirs) && (x in stuck || (old(dirs)[x].manifest && x in keep)) :: old(dirs)[x]
    {
      ghost var before := dirs;
      var left := dirs.Keys;
      while left != {}
        invariant left <= before.Keys
        invariant forall x :: x in dirs <==>
          x in before && (x in left || x in stuck || (before[x].manifest && x in keep))
        invariant forall x :: x in dirs ==> dirs[x] == before[x]
        decreases left
      {
        var x :| x in left;
        left := left - {x};
        if !dirs[x].manifest || x !in keep {
          if x !in stuck { dirs := dirs - {x}; }
        }
      }
    }

    method Collect(stuck: set<string>)
      modifies this`dirs
      ensures dirs == Collected(old(dirs), stuck)
    {
      var ids := ListComplete();
      var from := if |ids| <= 2 then 0 else |ids| - 2;
      var keep := ids[from..];
      NewestTwo(dirs, ids, keep);
      Remove(keep, stuck);
    }

    method Build(id: string, fate: Fate)
      modifies this
      ensures State() == Built(old(State()), id, fate)
    {
      if fate.TempFails? { return; }
      if fate.InMemory? || fate.RenameFails? {
        if fate.InMemory? || fate.dropped { view := None; }
        return;
      }
      dirs := dirs[id := Generation(false, false)];
      if fate.CopyFails? { return; }
      dirs := dirs[id := Generation(true, false)];
      assert dirs == old(dirs)[id := Generation(true, false)];
      if fate.ViewFails? { return; }
      view := Some(id);
      if fate.SchemaFails? || fate.ManifestFails? { return; }
      dirs := dirs[id := Generation(true, true)];
      assert dirs == old(dirs)[id := Generation(true, true)];
      Collect(fate.stuck);
    }
  }

  lemma {:induction false} NewerInSorted(dirs: Dirs, ids: seq<string>, k: nat)
    requires Sorted(ids) && (forall x :: x in ids <==> Sealed(dirs, x)) && k < |ids|
    ensures Newer(dirs, ids[k]) == Elems(ids[k + 1..])
    ensures |Newer(dirs, ids[k])| == |ids| - 1 - k
  {
    var after := Elems(ids[k + 1..]);
    forall y ensures y in Newer(dirs, ids[k]) <==> y in after {
      if y in ids {
        var j :| 0 <= j < |ids| && ids[j] == y;
        if j > k {
          assert ids[k + 1..][j - k - 1] == y;
        } else {
          NotLess(ids, j, k);
        }
      }
    }
    SortedSize(ids[k + 1..]);
  }

  lemma NotLess(ids: seq<string>, j: nat, k: nat)
    requires Sorted(ids) && j <= k < |ids|
    ensures !Less(ids[k], ids[j]) && ids[j] !in ids[k + 1..]
  {
    LessIrreflexive(ids[j]);
    if j < k && Less(ids[k], ids[j]) {
      LessTransitive(ids[j], ids[k], ids[j]);
    }
  }

  lemma {:induction false} SortedSize(ids: seq<string>)
    requires Sorted(ids)
    ensures |Elems(ids)| == |ids|
  {
    if ids != [] {
      SortedSize(ids[1..]);
      NotLess(ids, 0, 0);
      assert Elems(ids) == {ids[0]} + Elems(ids[1..]);
    }
  }

  /** The last two of the sorted listing are the sealed generations outranked by fewer than two. */
  lemma NewestTwo(dirs: Dirs, ids: seq<string>, keep: seq<string>)
    requires Sorted(ids) && forall x :: x in ids <==> Sealed(dirs, x)
    requires keep == ids[if |ids| <= 2 then 0 else |ids| - 2..]
    ensures forall x :: Sealed(dirs, x) ==> (x in keep <==> |Newer(dirs, x)| < 2)
  {
    var from := if |ids| <= 2 then 0 else |ids| - 2;
    forall x | Sealed(dirs, x) ensures x in keep <==> |Newer(dirs, x)| < 2 {
      var k :| 0 <= k < |ids| && ids[k] == x;
      NewerInSorted(dirs, ids, k);
      if k >= from {
        assert keep[k - from] == x;
      } else {
        NotLess(ids, k, from - 1);
        assert ids[from - 1 + 1..] == keep;
      }
    }
  }

  // ------------------------------------------------------------- safety over runs

  /** The view reads a generation whose file is there and that no sealed one outranks, and a
      sealed generation has its file. */
  ghost predicate Safe(s: Store) {
    && (forall x :: x in s.dirs && s.dirs[x].manifest ==> s.dirs[x].data)
    && (s.view.Some? ==>
          && s.view.value in s.dirs && s.dirs[s.view.value].data
          && (forall y :: Sealed(s.dirs, y) ==> !Less(s.view.value, y)))
  }

  ghost predicate After(s: Store, id: string) {
    forall x :: x in s.dirs ==> Less(x, id)
  }

  lemma NewIdIsNew(s: Store, id: string)
    requires After(s, id)
    ensures id !in s.dirs && forall x :: x in s.dirs ==> !Less(id, x)
  {
    LessIrreflexive(id);
    forall x | x in s.dirs ensures !Less(id, x) {
      if Less(id, x) { LessTransitive(id, x, id); }
    }
  }

  /** Sealing a generation outranks by one more exactly those below it. */
  lemma NewerAfterSeal(dirs: Dirs, id: string, x: string)
    requires id !in dirs
    ensures Newer(dirs[id := Generation(true, true)], x) == Newer(dirs, x) + if Less(x, id) then {id} else {}
  {
  }

  /** A spill keeps its own generation exactly when fewer than two sealed ones have greater
      identifiers, or its removal fails; a clock that ran backwards twice would delete what the
      view reads. */
  lemma SpillSurvivesExactly(s: Store, id: string, stuck: set<string>)
    requires id !in s.dirs
    ensures Built(s, id, Spilled(stuck)).view == Some(id)
    ensures id in Built(s, id, Spilled(stuck)).dirs <==> |Newer(s.dirs, id)| < 2 || id in stuck
  {
    NewerAfterSeal(s.dirs, id, id);
    LessIrreflexive(id);
    assert Newer(s.dirs, id) + {} == Newer(s.dirs, id);
  }

  /** After a spill under a new identifier exactly these remain: the new generation, the newest of
      the sealed ones, and what could not be removed, whatever failed builds had left. */
  lemma SpillKeepsNewestTwo(s: Store, id: string, stuck: set<string>)
    requires Safe(s) && After(s, id)
    ensures var t := Built(s, id, Spilled(stuck));
            forall x :: x in t.dirs
              <==> x == id || (Sealed(s.dirs, x) && Newer(s.dirs, x) == {}) || (x in s.dirs && x in stuck)
    ensures var t := Built(s, id, Spilled(stuck));
            forall x :: x in t.dirs ==> t.dirs[x] == if x == id then Generation(true, true) else s.dirs[x]
  {
    NewIdIsNew(s, id);
    var w := s.dirs[id := Generation(true, true)];
    forall x | x in w && x !in stuck
      ensures x in Collected(w, stuck) <==> x == id || (Sealed(s.dirs, x) && Newer(s.dirs, x) == {})
    {
      NewerAfterSeal(s.dirs, id, x);
      if x == id {
        LessIrreflexive(id);
        assert Newer(s.dirs, id) == {};
      } else {
        assert |Newer(s.dirs, x) + {id}| == |Newer(s.dirs, x)| + 1;
      }
    }
    NewestIsKept(s, id, stuck);
  }

  /** The new generation is kept whether or not its removal would fail. */
  lemma NewestIsKept(s: Store, id: string, stuck: set<string>)
    requires After(s, id)
    ensures id in Built(s, id, Spilled(stuck)).dirs
  {
    NewIdIsNew(s, id);
    NewerAfterSeal(s.dirs, id, id);
    LessIrreflexive(id);
    assert Newer(s.dirs, id) == {};
  }

  lemma {:induction false} NewestExists(dirs: Dirs, x: string) returns (y: string)
    requires Sealed(dirs, x)
    ensures Sealed(dirs, y) && Newer(dirs, y) == {}
    decreases |Newer(dirs, x)|
  {
    if Newer(dirs, x) == {} {
      y := x;
    } else {
      var z :| z in Newer(dirs, x);
      forall v | v in Newer(dirs, z) ensures v in Newer(dirs, x) { LessTransitive(x, z, v); }
      LessIrreflexive(z);
      Fewer(Newer(dirs, z), Newer(dirs, x), z);
      y := NewestExists(dirs, z);
    }
  }

  lemma Fewer(a: set<string>, b: set<string>, z: string)
    requires a <= b && z in b && z !in a
    ensures |a| < |b|
  {
    assert b == a + (b - a);
    assert z in b - a;
  }

  /** So there are two directories, or one when nothing was sealed before, if all removals succeed. */
  lemma SpillCount(s: Store, id: string)
    requires Safe(s) && After(s, id)
    ensures |Built(s, id, Spilled({})).dirs| == if exists x :: Sealed(s.dirs, x) then 2 else 1
  {
    SpillKeepsNewestTwo(s, id, {});
    NewIdIsNew(s, id);
    var t := Built(s, id, Spilled({}));
    if x :| Sealed(s.dirs, x) {
      var y := NewestExists(s.dirs, x);
      OnlyNewest(s.dirs, y);
      assert t.dirs.Keys == {id, y};
    } else {
      assert t.dirs.Keys == {id};
    }
  }

  lemma OnlyNewest(dirs: Dirs, y: string)
    requires Sealed(dirs, y) && Newer(dirs, y) == {}
    ensures forall z :: Sealed(dirs, z) && Newer(dirs, z) == {} ==> z == y
  {
    forall z | Sealed(dirs, z) && Newer(dirs, z) == {} ensures z == y {
      LessTotal(y, z);
      assert z !in Newer(dirs, y) && y !in Newer(dirs, z);
    }
  }

  /** Readers still on the previous view keep their generation through the next spill exactly
      when that generation had been sealed, or could not be removed. */
  lemma PreviousSurvivesExactly(s: Store, id: string, stuck: set<string>)
    requires Safe(s) && After(s, id) && s.view.Some?
    ensures s.view.value in Built(s, id, Spilled(stuck)).dirs
      <==> s.dirs[s.view.value].manifest || s.view.value in stuck
  {
    SpillKeepsNewestTwo(s, id, stuck);
    NewIdIsNew(s, id);
  }

  lemma BuildKeepsSafe(s: Store, id: string, fate: Fate)
    requires Safe(s) && After(s, id)
    ensures Safe(Built(s, id, fate))
    ensures forall x :: x in Built(s, id, fate).dirs ==> x == id || x in s.dirs
  {
    NewIdIsNew(s, id);
    LessIrreflexive(id);
    if fate.Spilled? { SpillKeepsNewestTwo(s, id, fate.stuck); }
  }

  /** A build attempt: the identifier drawn for it and how it ended. */
  datatype Attempt = Attempt(id: string, fate: Fate)

  ghost function RunBuilds(builds: seq<Attempt>): Store
    decreases builds
  {
    if builds == [] then Store(map[], None)
    else
      var last := builds[|builds| - 1];
      Built(RunBuilds(builds[..|builds| - 1]), last.id, last.fate)
  }

  ghost predicate Increasing(builds: seq<Attempt>) {
    forall i, j :: 0 <= i < j < |builds| ==> Less(builds[i].id, builds[j].id)
  }

  ghost predicate Drew(builds: seq<Attempt>, x: string) {
    exists i :: 0 <= i < |builds| && builds[i].id == x
  }

  ghost predicate OnlyDrawn(s: Store, builds: seq<Attempt>) {
    forall x :: x in s.dirs ==> Drew(builds, x)
  }

  lemma DrewBefore(builds: seq<Attempt>, x: string)
    requires builds != [] && (Drew(builds[..|builds| - 1], x) || x == builds[|builds| - 1].id)
    ensures Drew(builds, x)
  {
    if Drew(builds[..|builds| - 1], x) {
      var i :| 0 <= i < |builds| - 1 && builds[..|builds| - 1][i].id == x;
      assert builds[i].id == x;
    }
  }

  /** Over every run of builds that succeed or fail at any step, with increasing identifiers, the
      generation the view reads is there with its file, and so is every sealed generation's. */
  lemma {:induction false} GenerationsSafe(builds: seq<Attempt>)
    requires Increasing(builds)
    ensures Safe(RunBuilds(builds))
    ensures OnlyDrawn(RunBuilds(builds), builds)
    decreases builds
  {
    if builds != [] {
      var front, last := builds[..|builds| - 1], builds[|builds| - 1];
      GenerationsSafe(front);
      LastIsAfter(builds);
      BuildKeepsSafe(RunBuilds(front), last.id, last.fate);
      forall x | x in RunBuilds(builds).dirs ensures Drew(builds, x) { DrewBefore(builds, x); }
    }
  }

  lemma LastIsAfter(builds: seq<Attempt>)
    requires Increasing(builds) && builds != []
    requires OnlyDrawn(RunBuilds(builds[..|builds| - 1]), builds[..|builds| - 1])
    ensures After(RunBuilds(builds[..|builds| - 1]), builds[|builds| - 1].id)
  {
    var front := builds[..|builds| - 1];
    forall x | x in RunBuilds(front).dirs ensures Less(x, builds[|builds| - 1].id) {
      var i :| 0 <= i < |front| && front[i].id == x;
      assert builds[i].id == x;
    }
  }

  // ----------------------------------------------------- what is on disk, by history

  /** The identifiers of the builds that spilled, oldest first. */
  ghost function Spills(builds: seq<Attempt>): seq<string> {
    if builds == [] then []
    else
      var front, last := Spills(builds[..|builds| - 1]), builds[|builds| - 1];
      if last.fate.Spilled? then front + [last.id] else front
  }

  ghost predicate AmongLastTwo(ids: seq<string>, x: string) {
    (|ids| >= 1 && x == ids[|ids| - 1]) || (|ids| >= 2 && x == ids[|ids| - 2])
  }

  lemma {:induction false} SpillsAreDrawn(builds: seq<Attempt>, k: nat)
    requires k < |Spills(builds)|
    ensures Drew(builds, Spills(builds)[k])
  {
    var front := builds[..|builds| - 1];
    if k < |Spills(front)| { SpillsAreDrawn(front, k); }
    DrewBefore(builds, Spills(builds)[k]);
  }

  lemma {:induction false} SpillsIncrease(builds: seq<Attempt>, j: nat, k: nat)
    requires Increasing(builds) && j < k < |Spills(builds)|
    ensures Less(Spills(builds)[j], Spills(builds)[k])
  {
    var front := builds[..|builds| - 1];
    if k < |Spills(front)| {
      SpillsIncrease(front, j, k);
    } else {
      SpillsAreDrawn(front, j);
      var i :| 0 <= i < |front| && front[i].id == Spills(front)[j];
      assert builds[i].id == Spills(builds)[j];
    }
  }

  /** The directories that the last spill failed to remove. */
  ghost function LastStuck(builds: seq<Attempt>): set<string> {
    if builds == [] then {}
    else
      var last := builds[|builds| - 1];
      if last.fate.Spilled? then last.fate.stuck else LastStuck(builds[..|builds| - 1])
  }

  /** The last two spills are sealed; any other sealed generation was a spill and got stuck. */
  ghost predicate SealedByHistory(dirs: Dirs, ids: seq<string>, stuck: set<string>) {
    && (forall y :: AmongLastTwo(ids, y) ==> Sealed(dirs, y))
    && (forall y :: Sealed(dirs, y) ==> y in ids && (AmongLastTwo(ids, y) || y in stuck))
  }

  ghost predicate LastIsGreatest(ids: seq<string>) {
    ids != [] ==> forall y :: y in ids ==> y == ids[|ids| - 1] || Less(y, ids[|ids| - 1])
  }

  lemma LastSpillIsGreatest(builds: seq<Attempt>)
    requires Increasing(builds)
    ensures LastIsGreatest(Spills(builds))
  {
    var ids := Spills(builds);
    forall y | y in ids ensures y == ids[|ids| - 1] || Less(y, ids[|ids| - 1]) {
      var k :| 0 <= k < |ids| && ids[k] == y;
      if k < |ids| - 1 { SpillsIncrease(builds, k, |ids| - 1); }
    }
  }

  /** Of the sealed generations the last spill has the greatest identifier. */
  lemma NewestIsLastSpill(dirs: Dirs, ids: seq<string>, stuck: set<string>, x: string)
    requires ids != [] && SealedByHistory(dirs, ids, stuck) && LastIsGreatest(ids)
    ensures Sealed(dirs, x) && Newer(dirs, x) == {} <==> x == ids[|ids| - 1]
  {
    var last := ids[|ids| - 1];
    LessIrreflexive(last);
    assert AmongLastTwo(ids, last) && Sealed(dirs, last);
    forall y ensures y !in Newer(dirs, last) {
      if Sealed(dirs, y) && Less(last, y) { LessAsymmetric(last, y); }
    }
    if Sealed(dirs, x) && x != last { assert last in Newer(dirs, x); }
  }

  /** Over every run with increasing identifiers, the sealed generations on disk are those of the last
      two builds that spilled and, beside them, only spills that the last collection failed to remove. */
  lemma {:induction false} SealedAreLastTwoSpills(builds: seq<Attempt>)
    requires Increasing(builds)
    ensures SealedByHistory(RunBuilds(builds).dirs, Spills(builds), LastStuck(builds))
    decreases builds
  {
    if builds != [] {
      var front, last := builds[..|builds| - 1], builds[|builds| - 1];
      SealedAreLastTwoSpills(front);
      GenerationsSafe(front);
      LastIsAfter(builds);
      LastSpillIsGreatest(front);
      if last.fate.Spilled? {
        SpillHistory(RunBuilds(front), Spills(front), LastStuck(front), last.id, last.fate.stuck);
      } else {
        NoSpillHistory(RunBuilds(front), Spills(front), LastStuck(front), last);
      }
    }
  }

  lemma NoSpillHistory(s: Store, ids: seq<string>, stuck: set<string>, last: Attempt)
    requires After(s, last.id) && SealedByHistory(s.dirs, ids, stuck) && !last.fate.Spilled?
    ensures SealedByHistory(Built(s, last.id, last.fate).dirs, ids, stuck)
  {
    NewIdIsNew(s, last.id);
    var dirs := Built(s, last.id, last.fate).dirs;
    assert forall y :: Sealed(dirs, y) <==> Sealed(s.dirs, y);
  }

  lemma SpillHistory(s: Store, ids: seq<string>, before: set<string>, id: string, stuck: set<string>)
    requires Safe(s) && After(s, id) && SealedByHistory(s.dirs, ids, before) && LastIsGreatest(ids)
    ensures SealedByHistory(Built(s, id, Spilled(stuck)).dirs, ids + [id], stuck)
  {
    SpillKeepsNewestTwo(s, id, stuck);
    var dirs, longer := Built(s, id, Spilled(stuck)).dirs, ids + [id];
    forall y ensures AmongLastTwo(longer, y) ==> Sealed(dirs, y)
             ensures Sealed(dirs, y) ==> y in longer && (AmongLastTwo(longer, y) || y in stuck)
    {
      assert Sealed(dirs, y) <==> y in dirs && (y == id || Sealed(s.dirs, y));
      if ids != [] { NewestIsLastSpill(s.dirs, ids, before, y); }
    }
  }

  /** Right after a spill whose removals all succeeded nothing else is left on disk. */
  lemma SpillLeavesOnlySealed(builds: seq<Attempt>, x: string)
    requires Increasing(builds) && builds != [] && builds[|builds| - 1].fate == Spilled({})
    ensures x in RunBuilds(builds).dirs <==> AmongLastTwo(Spills(builds), x)
  {
    var front, last := builds[..|builds| - 1], builds[|builds| - 1];
    GenerationsSafe(front);
    LastIsAfter(builds);
    SpillKeepsNewestTwo(RunBuilds(front), last.id, {});
    SealedAreLastTwoSpills(builds);
    assert x in RunBuilds(builds).dirs <==> Sealed(RunBuilds(builds).dirs, x);
  }

  // ------------------------------------------------------- what the view reads, by history

  /** A build that got as far as replacing the view. */
  predicate Shows(fate: Fate) {
    fate.SchemaFails? || fate.ManifestFails? || fate.Spilled?
  }

  /** A build that dropped the view: its result stays in memory, or its rename failed after the drop. */
  predicate Hides(fate: Fate) {
    fate.InMemory? || (fate.RenameFails? && fate.dropped)
  }

  /** Build `k` was the last to touch the view. */
  ghost predicate LastToTouch(builds: seq<Attempt>, k: int) {
    && 0 <= k < |builds| && (Shows(builds[k].fate) || Hides(builds[k].fate))
    && forall j :: k < j < |builds| ==> !Shows(builds[j].fate) && !Hides(builds[j].fate)
  }

  /** Over every run the view reads the generation of the last build that replaced it, unless a later one
      dropped it; failures before that point leave it alone. */
  lemma {:induction false} ViewIsLastShown(builds: seq<Attempt>, k: nat)
    ensures LastToTouch(builds, k) ==>
      RunBuilds(builds).view == if Shows(builds[k].fate) then Some(builds[k].id) else None
    ensures (forall j :: 0 <= j < |builds| ==> !Shows(builds[j].fate) && !Hides(builds[j].fate)) ==>
      RunBuilds(builds).view == None
    decreases builds
  {
    if builds != [] {
      var front := builds[..|builds| - 1];
      ViewIsLastShown(front, k);
      assert LastToTouch(builds, k) && k < |front| ==> LastToTouch(front, k);
    }
  }

  /** A build that got as far as making its directory, and failed. */
  predicate Strands(fate: Fate) {
    fate.CopyFails? || fate.ViewFails? || fate.SchemaFails? || fate.ManifestFails?
  }

  /** Until the next spill the directories of failed builds stay, with their file if it was written and
      without a manifest; builds that ended before that leave none. */
  lemma {:induction false} LeftUntilSpill(builds: seq<Attempt>, k: nat)
    requires Increasing(builds) && k < |builds| && forall j :: k <= j < |builds| ==> !builds[j].fate.Spilled?
    ensures var dirs := RunBuilds(builds).dirs;
            && (builds[k].id in dirs <==> Strands(builds[k].fate))
            && (builds[k].id in dirs ==> dirs[builds[k].id] == Generation(!builds[k].fate.CopyFails?, false))
    decreases builds
  {
    var front, n := builds[..|builds| - 1], |builds| - 1;
    GenerationsSafe(front);
    LastIsAfter(builds);
    NewIdIsNew(RunBuilds(front), builds[n].id);
    if k < n {
      LeftUntilSpill(front, k);
      LessIrreflexive(builds[k].id);
    }
  }
}
