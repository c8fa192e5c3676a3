/** Validation compares dataset names ignoring case, the dependency graph compares them exactly:
    when the two agree, and a cycle that only differs in case and so goes unnoticed. */
module DependencyCasing {
  import opened Wrappers
  import opened Config
  import opened Digraph
  import opened DependencyGraph
  import opened Text

  ghost predicate ListsFolded(d: Dataset, name: string) {
    exists k :: 0 <= k < |d.dependsOn| && Lower(d.dependsOn[k]) == Lower(name)
  }

  /** The dependency as validation reads it: query `i` lists the name of `j` up to case. */
  ghost predicate FoldedEdge(ds: seq<Dataset>, i: nat, j: nat) {
    i < |ds| && j < |ds| && ds[i].kind.Query? && ListsFolded(ds[i], ds[j].name)
  }

  ghost predicate NamesFolded(ds: seq<Dataset>, dep: string) {
    exists j :: 0 <= j < |ds| && Lower(ds[j].name) == Lower(dep)
  }

  /** What validation checks: every name a query lists is a dataset name up to case. */
  ghost predicate Validated(ds: seq<Dataset>) {
    forall i, k :: 0 <= i < |ds| && ds[i].kind.Query? && 0 <= k < |ds[i].dependsOn| ==>
      NamesFolded(ds, ds[i].dependsOn[k])
  }

  /** The name is listed at least once in the very spelling of some dataset. */
  ghost predicate ListedAsSpelled(ds: seq<Dataset>, d: Dataset, dep: string) {
    exists j :: 0 <= j < |ds| && Lower(ds[j].name) == Lower(dep) && ds[j].name in d.dependsOn
  }

  ghost predicate SpelledExactly(ds: seq<Dataset>) {
    forall i, k :: 0 <= i < |ds| && ds[i].kind.Query? && 0 <= k < |ds[i].dependsOn| ==>
      ListedAsSpelled(ds, ds[i], ds[i].dependsOn[k])
  }

  /** The query lists both of two datasets, or neither. */
  ghost predicate Together(d: Dataset, a: Dataset, b: Dataset) {
    a.name in d.dependsOn <==> b.name in d.dependsOn
  }

  /** Datasets whose names differ in case alone are listed together. */
  ghost predicate TwinsListedTogether(ds: seq<Dataset>) {
    forall i, j, k {:trigger Together(ds[i], ds[j], ds[k])} ::
      0 <= i < |ds| && ds[i].kind.Query? && 0 <= j < |ds| && 0 <= k < |ds| && Lower(ds[j].name) == Lower(ds[k].name) ==>
        Together(ds[i], ds[j], ds[k])
  }

  /** With unique names an edge is an exact mention. */
  lemma EdgeIsMention(ds: seq<Dataset>, i: nat, j: nat)
    requires UniqueNames(ds)
    ensures Edge(DependencyEdges(ds), i, j)
      <==> i < |ds| && j < |ds| && ds[i].kind.Query? && ds[j].name in ds[i].dependsOn
  {
    EdgeMeansListed(ds, i, j);
    NameToIdxIsLast(ds);
  }

  lemma ExactIsFolded(ds: seq<Dataset>, i: nat, j: nat)
    requires UniqueNames(ds) && Edge(DependencyEdges(ds), i, j)
    ensures FoldedEdge(ds, i, j)
  {
    EdgeIsMention(ds, i, j);
    var k :| 0 <= k < |ds[i].dependsOn| && ds[i].dependsOn[k] == ds[j].name;
  }

  lemma FoldedIsExact(ds: seq<Dataset>, i: nat, j: nat)
    requires UniqueNames(ds) && SpelledExactly(ds) && TwinsListedTogether(ds) && FoldedEdge(ds, i, j)
    ensures Edge(DependencyEdges(ds), i, j)
  {
    var k :| 0 <= k < |ds[i].dependsOn| && Lower(ds[i].dependsOn[k]) == Lower(ds[j].name);
    assert ListedAsSpelled(ds, ds[i], ds[i].dependsOn[k]);
    var m :| 0 <= m < |ds| && Lower(ds[m].name) == Lower(ds[i].dependsOn[k]) && ds[m].name in ds[i].dependsOn;
    assert Together(ds[i], ds[m], ds[j]);
    EdgeIsMention(ds, i, j);
  }

  ghost predicate GraphIsComplete(ds: seq<Dataset>) {
    forall i: nat, j: nat :: FoldedEdge(ds, i, j) <==> Edge(DependencyEdges(ds), i, j)
  }

  /** The graph has every dependency that validation saw exactly when each is spelled as a dataset
      is and datasets that differ in case alone are listed together; other dependencies are dropped
      without an error. */
  lemma GraphIsCompleteExactly(ds: seq<Dataset>)
    requires UniqueNames(ds) && Validated(ds)
    ensures GraphIsComplete(ds) <==> SpelledExactly(ds) && TwinsListedTogether(ds)
  {
    if SpelledExactly(ds) && TwinsListedTogether(ds) {
      forall i: nat, j: nat ensures FoldedEdge(ds, i, j) <==> Edge(DependencyEdges(ds), i, j) {
        if FoldedEdge(ds, i, j) { FoldedIsExact(ds, i, j); }
        if Edge(DependencyEdges(ds), i, j) { ExactIsFolded(ds, i, j); }
      }
    }
    if !SpelledExactly(ds) { MisspelledIsDropped(ds); }
    if !TwinsListedTogether(ds) { TwinIsDropped(ds); }
  }

  lemma MisspelledIsDropped(ds: seq<Dataset>)
    requires UniqueNames(ds) && Validated(ds) && !SpelledExactly(ds)
    ensures !GraphIsComplete(ds)
  {
    var i, k :| 0 <= i < |ds| && ds[i].kind.Query? && 0 <= k < |ds[i].dependsOn|
                && !ListedAsSpelled(ds, ds[i], ds[i].dependsOn[k]);
    assert NamesFolded(ds, ds[i].dependsOn[k]);
    var j :| 0 <= j < |ds| && Lower(ds[j].name) == Lower(ds[i].dependsOn[k]);
    EdgeIsMention(ds, i, j);
    assert FoldedEdge(ds, i, j);
  }

  lemma TwinIsDropped(ds: seq<Dataset>)
    requires UniqueNames(ds) && !TwinsListedTogether(ds)
    ensures !GraphIsComplete(ds)
  {
    var i, j, k :| 0 <= i < |ds| && ds[i].kind.Query? && 0 <= j < |ds| && 0 <= k < |ds|
                   && Lower(ds[j].name) == Lower(ds[k].name) && !Together(ds[i], ds[j], ds[k]);
    var listed, other := j, k;
    if ds[k].name in ds[i].dependsOn { listed, other := k, j; }
    var m :| 0 <= m < |ds[i].dependsOn| && ds[i].dependsOn[m] == ds[listed].name;
    EdgeIsMention(ds, i, other);
    assert FoldedEdge(ds, i, other);
  }

  /** A query no listed name of which is the exact name of a dataset has no edge. */
  lemma NoExactMentionNoCycle(ds: seq<Dataset>)
    requires forall i, j :: 0 <= i < |ds| && 0 <= j < |ds| ==> ds[j].name !in ds[i].dependsOn
    ensures Acyclic(DependencyEdges(ds))
  {
    if p :| IsClosedWalk(DependencyEdges(ds), p) {
      assert Edge(DependencyEdges(ds), p[0], p[1]);
      EdgeMeansListed(ds, p[0], p[1]);
    }
  }

  /** Two queries that depend on each other in the wrong case: validation accepts their names, the
      graph has no edge, and so the order accepts them as acyclic. */
  lemma MiscasedCycleIsMissed(ds: seq<Dataset>)
    requires ds == [Dataset("a", Query, ["B"], None, false), Dataset("b", Query, ["A"], None, false)]
    ensures Validated(ds) && UniqueNames(ds)
    ensures FoldedEdge(ds, 0, 1) && FoldedEdge(ds, 1, 0) && Acyclic(DependencyEdges(ds))
  {
    FoldsTo("A", "a");
    FoldsTo("a", "a");
    FoldsTo("B", "b");
    FoldsTo("b", "b");
    assert Lower(ds[1].dependsOn[0]) == Lower(ds[0].name);
    assert Lower(ds[0].dependsOn[0]) == Lower(ds[1].name);
    NoExactMentionNoCycle(ds);
  }

  /** Two files whose names differ in case alone: a query that lists one depends, as validation
      reads it, on both, and the graph has only the one edge. */
  lemma TwinIsMissed(ds: seq<Dataset>)
    requires ds == [Dataset("a", Parquet, [], None, false), Dataset("A", Parquet, [], None, false),
                    Dataset("q", Query, ["a"], None, false)]
    ensures Validated(ds) && UniqueNames(ds) && SpelledExactly(ds)
    ensures FoldedEdge(ds, 2, 1) && !Edge(DependencyEdges(ds), 2, 1)
  {
    FoldsTo("A", "a");
    FoldsTo("a", "a");
    assert ds[0].name == "a" && ds[1].name == "A" && ds[2].name == "q";
    assert Lower(ds[2].dependsOn[0]) == Lower(ds[1].name) && Lower(ds[0].name) == "a";
    EdgeIsMention(ds, 2, 1);
    assert ListedAsSpelled(ds, ds[2], "a");
  }

  lemma FoldsTo(s: string, t: string)
    requires |s| == |t| == 1 && LowerChar(s[0]) == t[0]
    ensures Lower(s) == t
  {
    assert s[1..] == "" && t == [t[0]];
  }
}
