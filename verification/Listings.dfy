/** Lists without repeats, their members and their lengths. */
module Listings {
  ghost predicate NoDuplicates<T>(s: seq<T>) {
    forall a, b :: 0 <= a < b < |s| ==> s[a] != s[b]
  }

  ghost function Elems<T>(s: seq<T>): set<T> {
    set x | x in s
  }

  lemma ElemsAppend<T>(s: seq<T>, x: T)
    ensures Elems(s + [x]) == Elems(s) + {x}
  {
  }

  function IndexOf<T(==)>(s: seq<T>, x: T): (k: nat)
    requires x in s
    ensures k < |s| && s[k] == x
    ensures forall m :: 0 <= m < k ==> s[m] != x
  {
    if s[0] == x then 0 else 1 + IndexOf(s[1..], x)
  }

  ghost function Upto(n: nat): (r: set<nat>)
    ensures |r| == n && forall x :: x in r <==> 0 <= x < n
  {
    if n == 0 then {} else Upto(n - 1) + {n - 1}
  }

  lemma DistinctLast<T>(s: seq<T>, x: T)
    requires NoDuplicates(s + [x])
    ensures NoDuplicates(s) && x !in Elems(s)
  {
    var longer := s + [x];
    assert longer[|s|] == x && forall a :: 0 <= a < |s| ==> longer[a] == s[a];
  }

  lemma {:induction false} DistinctSize<T>(s: seq<T>)
    requires NoDuplicates(s)
    ensures |Elems(s)| == |s|
  {
    if s != [] {
      var t, x := s[..|s| - 1], s[|s| - 1];
      assert s == t + [x];
      DistinctLast(t, x);
      DistinctSize(t);
      ElemsAppend(t, x);
    }
  }

  lemma SubsetSize<T>(a: set<T>, b: set<T>)
    requires a <= b
    ensures |a| <= |b|
    ensures |a| == |b| ==> a == b
  {
    assert b == a + (b - a);
  }

  lemma DistinctFit(s: seq<nat>, n: nat)
    requires NoDuplicates(s) && forall x :: x in s ==> x < n
    ensures |s| <= n
    ensures |s| == n ==> forall i: nat :: i < n ==> i in s
    ensures |s| < n ==> exists i: nat :: i < n && i !in s
  {
    DistinctSize(s);
    SubsetSize(Elems(s), Upto(n));
    if |s| == n {
      forall i: nat | i < n ensures i in s { assert i in Upto(n); }
    } else if forall i: nat :: i < n ==> i in s {
      SubsetSize(Upto(n), Elems(s));
    }
  }

  /** The positions below `n` that satisfy `keep`, in order. */
  ghost predicate Chosen(positions: seq<nat>, n: nat, keep: nat -> bool) {
    && (forall a, b :: 0 <= a < b < |positions| ==> positions[a] < positions[b])
    && forall i: nat :: i in positions <==> i < n && keep(i)
  }

  lemma ChosenNext(positions: seq<nat>, n: nat, keep: nat -> bool)
    requires Chosen(positions, n, keep)
    ensures Chosen(if keep(n) then positions + [n] else positions, n + 1, keep)
  {
    var longer := positions + [n];
    forall a, b | 0 <= a < b < |longer| ensures longer[a] < longer[b] { assert longer[a] in positions; }
    forall i: nat ensures i in longer <==> i in positions || i == n { assert longer[|positions|] == n; }
  }

  ghost function Filtered(n: nat, keep: nat -> bool): seq<nat> {
    if n == 0 then []
    else
      var front := Filtered(n - 1, keep);
      if keep(n - 1) then front + [n - 1] else front
  }

  lemma {:induction false} FilteredIsChosen(n: nat, keep: nat -> bool)
    ensures Chosen(Filtered(n, keep), n, keep)
  {
    if n > 0 {
      FilteredIsChosen(n - 1, keep);
      ChosenNext(Filtered(n - 1, keep), n - 1, keep);
    }
  }

  lemma ChosenSame(positions: seq<nat>, n: nat, some: nat -> bool, other: nat -> bool)
    requires Chosen(positions, n, some) && forall i: nat :: i < n ==> some(i) == other(i)
    ensures Chosen(positions, n, other)
  {
  }

  /** There is one such list. */
  lemma {:induction false} ChosenUnique(a: seq<nat>, b: seq<nat>, n: nat, keep: nat -> bool)
    requires Chosen(a, n, keep) && Chosen(b, n, keep)
    ensures a == b
    decreases n
  {
    if n > 0 {
      var a' := ChosenBelow(a, n, keep);
      var b' := ChosenBelow(b, n, keep);
      ChosenUnique(a', b', n - 1, keep);
    } else {
      NoneChosen(a, keep);
      NoneChosen(b, keep);
    }
  }

  lemma NoneChosen(positions: seq<nat>, keep: nat -> bool)
    requires Chosen(positions, 0, keep)
    ensures positions == []
  {
    HasMember(positions);
  }

  lemma HasMember<T>(s: seq<T>)
    ensures s == [] || exists x :: x in s
  {
    if s != [] { assert s[0] in s; }
  }

  lemma ChosenBelow(a: seq<nat>, n: nat, keep: nat -> bool) returns (front: seq<nat>)
    requires n > 0 && Chosen(a, n, keep)
    ensures Chosen(front, n - 1, keep) && a == if keep(n - 1) then front + [n - 1] else front
  {
    if keep(n - 1) {
      var k :| 0 <= k < |a| && a[k] == n - 1;
      assert a[|a| - 1] in a;
      assert k == |a| - 1;
      front := a[..k];
      forall i: nat ensures i in front <==> i < n - 1 && keep(i) {
        if i in front { assert i in a; }
        if i in a && i < n - 1 {
          var j :| 0 <= j < |a| && a[j] == i;
          assert front[j] == i;
        }
      }
    } else {
      front := a;
    }
  }
}
