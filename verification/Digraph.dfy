/** Finite directed graphs given by successor lists, and when they have no closed walk. */
module Digraph {
  import opened Listings

  /** `g[i]` lists the successors of node `i`, repeats allowed. */
  type Graph = seq<seq<nat>>

  ghost predicate Closed(g: Graph) {
    forall i, j :: 0 <= i < |g| && j in g[i] ==> 0 <= j < |g|
  }

  predicate Edge(g: Graph, i: int, j: int) {
    0 <= i < |g| && j in g[i]
  }

  ghost predicate IsWalk(g: Graph, p: seq<nat>) {
    forall k :: 0 <= k < |p| - 1 ==> Edge(g, p[k], p[k + 1])
  }

  ghost predicate IsClosedWalk(g: Graph, p: seq<nat>) {
    && |p| >= 2
    && p[0] == p[|p| - 1]
    && IsWalk(g, p)
  }

  ghost predicate Acyclic(g: Graph) {
    !exists p :: IsClosedWalk(g, p)
  }

  ghost predicate SuccessorsFirst(g: Graph, order: seq<nat>) {
    forall k, j :: 0 <= k < |order| && Edge(g, order[k], j) ==> j in order[..k]
  }

  /** Every node once, successors before their predecessors. */
  ghost predicate IsBuildOrder(g: Graph, order: seq<nat>) {
    && |order| == |g|
    && NoDuplicates(order)
    && (forall i: nat :: i < |g| ==> i in order)
    && SuccessorsFirst(g, order)
  }

  // ------------------------------------------------- acyclicity by two routes

  /** Any listing of the nodes that have successors, successors first, rules out closed walks. */
  ghost predicate Ranks(g: Graph, f: seq<nat>) {
    && (forall i: nat :: i < |g| && g[i] != [] ==> i in f)
    && (forall k, j :: 0 <= k < |f| && Edge(g, f[k], j) && j < |g| && g[j] != [] ==> j in f[..k])
  }

  lemma RankedIsAcyclic(g: Graph, f: seq<nat>)
    requires Ranks(g, f)
    ensures Acyclic(g)
  {
    if p :| IsClosedWalk(g, p) {
      RankDescends(g, f, p, |p| - 1);
      assert false;
    }
  }

  lemma {:induction false} RankDescends(g: Graph, f: seq<nat>, p: seq<nat>, k: nat)
    requires Ranks(g, f)
    requires IsClosedWalk(g, p) && 0 < k < |p|
    ensures p[0] in f && p[k] in f && IndexOf(f, p[k]) < IndexOf(f, p[0])
  {
    assert Edge(g, p[0], p[1]);
    assert Edge(g, p[k - 1], p[k]);
    if k < |p| - 1 { assert Edge(g, p[k], p[k + 1]); }
    var at := IndexOf(f, p[k - 1]);
    assert p[k] in f[..at];
    if k > 1 { RankDescends(g, f, p, k - 1); }
  }

  ghost predicate HasSuccessor(g: Graph, left: set<nat>, i: int) {
    exists j :: j in left && Edge(g, i, j)
  }

  ghost predicate NoSink(g: Graph, left: set<nat>) {
    forall i {:trigger HasSuccessor(g, left, i)} :: i in left ==> HasSuccessor(g, left, i)
  }

  lemma SuccessorIn(g: Graph, left: set<nat>, i: int) returns (j: nat)
    requires NoSink(g, left) && i in left
    ensures j in left && Edge(g, i, j)
  {
    assert HasSuccessor(g, left, i);
    j :| j in left && Edge(g, i, j);
  }

  /** An edge from the end of a walk back into it closes a walk. */
  lemma CloseAt(g: Graph, p: seq<nat>, next: nat)
    requires p != [] && IsWalk(g, p) && next in p && Edge(g, p[|p| - 1], next)
    ensures IsClosedWalk(g, p[IndexOf(p, next)..] + [next])
    ensures !Acyclic(g)
  {
    var at := IndexOf(p, next);
    var q := p[at..] + [next];
    forall k | 0 <= k < |q| - 1 ensures Edge(g, q[k], q[k + 1]) {
      assert k + 1 < |q| - 1 ==> Edge(g, p[at + k], p[at + k + 1]);
    }
    assert IsClosedWalk(g, q);
  }

  lemma ExtendWalk(g: Graph, p: seq<nat>, next: nat)
    requires p != [] && NoDuplicates(p) && IsWalk(g, p) && next !in p && Edge(g, p[|p| - 1], next)
    ensures NoDuplicates(p + [next]) && IsWalk(g, p + [next]) && Elems(p + [next]) == Elems(p) + {next}
  {
    var q := p + [next];
    forall k | 0 <= k < |q| - 1 ensures Edge(g, q[k], q[k + 1]) {
      assert k < |p| - 1 ==> Edge(g, p[k], p[k + 1]);
    }
    ElemsAppend(p, next);
  }

  /** A non-empty set every member of which has a successor inside it contains a closed walk. */
  lemma {:induction false} ClosedSetIsCyclic(g: Graph, left: set<nat>, p: seq<nat>)
    requires NoSink(g, left)
    requires p != [] && NoDuplicates(p) && IsWalk(g, p) && Elems(p) <= left
    ensures !Acyclic(g)
    decreases |left - Elems(p)|
  {
    assert p[|p| - 1] in Elems(p);
    var next := SuccessorIn(g, left, p[|p| - 1]);
    if next in p {
      CloseAt(g, p, next);
    } else {
      ExtendWalk(g, p, next);
      assert left - Elems(p + [next]) == (left - Elems(p)) - {next};
      ClosedSetIsCyclic(g, left, p + [next]);
    }
  }

  // -------------------------------------------------------- counting successors

  ghost function Count(s: seq<nat>, x: nat): nat {
    if |s| == 0 then 0 else Count(s[..|s| - 1], x) + if s[|s| - 1] == x then 1 else 0
  }

  lemma CountAppend(s: seq<nat>, y: nat)
    ensures forall x: nat :: Count(s + [y], x) == Count(s, x) + if y == x then 1 else 0
  {
    assert (s + [y])[..|s|] == s;
  }

  ghost function Repeat(x: nat, times: nat): seq<nat> {
    if times == 0 then [] else Repeat(x, times - 1) + [x]
  }

  /** The predecessors of `j` among the first `n` nodes, each once per edge. */
  ghost function Predecessors(g: Graph, n: nat, j: nat): seq<nat>
    requires n <= |g|
  {
    if n == 0 then [] else Predecessors(g, n - 1, j) + Repeat(n - 1, Count(g[n - 1], j))
  }

  lemma {:induction false} CountRepeat(s: seq<nat>, y: nat, times: nat, x: nat)
    ensures Count(s + Repeat(y, times), x) == Count(s, x) + if x == y then times else 0
    ensures forall z :: z in s + Repeat(y, times) ==> z in s || z == y
  {
    if times == 0 {
      assert s + Repeat(y, times) == s;
    } else {
      CountRepeat(s, y, times - 1, x);
      assert s + Repeat(y, times) == s + Repeat(y, times - 1) + [y];
      CountAppend(s + Repeat(y, times - 1), y);
    }
  }

  lemma {:induction false} CountPredecessors(g: Graph, n: nat, j: nat, x: nat)
    requires n <= |g|
    ensures Count(Predecessors(g, n, j), x) == if x < n then Count(g[x], j) else 0
    ensures forall z :: z in Predecessors(g, n, j) ==> 0 <= z < n
  {
    if n > 0 {
      CountPredecessors(g, n - 1, j, x);
      CountRepeat(Predecessors(g, n - 1, j), n - 1, Count(g[n - 1], j), x);
    }
  }

  /** How many entries of `s` are not done yet. */
  ghost function Remaining(s: seq<nat>, done: set<nat>): nat {
    if s == [] then 0 else Remaining(s[..|s| - 1], done) + if s[|s| - 1] in done then 0 else 1
  }

  lemma RemainingAfter(s: seq<nat>, done: set<nat>, x: nat)
    requires x !in done
    ensures Remaining(s, done) == Remaining(s, done + {x}) + Count(s, x)
  {
  }

  lemma {:induction false} RemainingZero(s: seq<nat>, done: set<nat>)
    ensures Remaining(s, done) == 0 <==> forall x :: x in s ==> x in done
    ensures done == {} ==> Remaining(s, done) == |s|
  {
    if s != [] {
      RemainingZero(s[..|s| - 1], done);
      assert s == s[..|s| - 1] + [s[|s| - 1]];
    }
  }

  lemma {:induction false} CountPrefix(s: seq<nat>, k: nat, x: nat)
    requires k <= |s|
    ensures Count(s[..k], x) <= Count(s, x)
    ensures k < |s| && s[k] == x ==> Count(s[..k], x) < Count(s, x)
    decreases |s| - k
  {
    if k == |s| {
      assert s[..k] == s;
    } else {
      assert s[..k + 1][..k] == s[..k];
      CountPrefix(s, k + 1, x);
    }
  }
}
