/** Dataset schemas: case-insensitive column lookup and column access filters. */
module Schema {
  import opened Wrappers
  import opened Text

  datatype Error = UnknownColumn(name: string) | Forbidden(name: string) | InvalidValue

  /** Set at most one list: an allowlist, or a denylist; neither admits every column. */
  datatype ColumnFilter = ColumnFilter(allow: seq<string>, deny: seq<string>)

  predicate IsActive(f: ColumnFilter) {
    f.allow != [] || f.deny != []
  }

  predicate HasFolded(names: seq<string>, folded: string) {
    exists k :: 0 <= k < |names| && Lower(names[k]) == folded
  }

  predicate Allows(f: ColumnFilter, col: string) {
    if f.allow != [] then HasFolded(f.allow, Lower(col))
    else if f.deny != [] then !HasFolded(f.deny, Lower(col))
    else true
  }

  /** Some listed name is `col` up to case. */
  ghost predicate Listed(names: seq<string>, col: string) {
    exists k :: 0 <= k < |names| && SameUpToCase(names[k], col)
  }

  /** What a filter admits, told from its lists: what an allowlist names, or what a denylist does not. */
  ghost predicate Admits(f: ColumnFilter, col: string) {
    (f.allow != [] ==> Listed(f.allow, col)) && (f.allow == [] ==> !Listed(f.deny, col))
  }

  lemma HasFoldedMeaning(names: seq<string>, col: string)
    ensures HasFolded(names, Lower(col)) <==> Listed(names, col)
  {
    forall k | 0 <= k < |names| ensures Lower(names[k]) == Lower(col) <==> SameUpToCase(names[k], col) {
      FoldAlikeExactly(names[k], col);
    }
  }

  lemma AllowsExactly(f: ColumnFilter, col: string)
    ensures Allows(f, col) <==> Admits(f, col)
  {
    HasFoldedMeaning(f.allow, col);
    HasFoldedMeaning(f.deny, col);
  }

  /** Columns by position; filters on predicates and on what may be seen. */
  datatype DatasetSchema =
    DatasetSchema(columns: seq<string>, predicateFilter: ColumnFilter, projectionFilter: ColumnFilter)

  /** Folded name to position; of columns that fold alike the last one wins. */
  function ByName(columns: seq<string>): map<string, nat> {
    if columns == [] then map[]
    else
      var n := |columns| - 1;
      ByName(columns[..n])[Lower(columns[n]) := n]
  }

  lemma {:induction false} ByNameIsLast(columns: seq<string>)
    ensures forall s :: s in ByName(columns) ==>
      ByName(columns)[s] < |columns| && Lower(columns[ByName(columns)[s]]) == s
    ensures forall i :: 0 <= i < |columns| ==>
      Lower(columns[i]) in ByName(columns) && i <= ByName(columns)[Lower(columns[i])]
  {
    if columns != [] {
      var front := columns[..|columns| - 1];
      ByNameIsLast(front);
      assert forall i :: 0 <= i < |front| ==> front[i] == columns[i];
    }
  }

  /** Attach filters; a listed name that is no column is an error, as is setting both lists. */
  function WithFilters(columns: seq<string>, predicates: ColumnFilter,
          projection: ColumnFilter): Result<DatasetSchema, Error>
  {
    if FilterFits(columns, predicates) && FilterFits(columns, projection)
    then Success(DatasetSchema(columns, predicates, projection)) else Failure(InvalidValue)
  }

  predicate FilterFits(columns: seq<string>, f: ColumnFilter) {
    && (f.allow == [] || f.deny == [])
    && AreColumns(columns, if f.allow != [] then f.allow else f.deny)
  }

  predicate AreColumns(columns: seq<string>, listed: seq<string>) {
    forall k :: 0 <= k < |listed| ==> Lower(listed[k]) in ByName(columns)
  }

  ghost predicate AllColumns(columns: seq<string>, listed: seq<string>) {
    forall k :: 0 <= k < |listed| ==> Listed(columns, listed[k])
  }

  ghost predicate ListsColumns(columns: seq<string>, f: ColumnFilter) {
    AllColumns(columns, f.allow) && AllColumns(columns, f.deny)
  }

  /** The filters are accepted exactly when each sets one list at most, and lists columns only. */
  lemma WithFiltersExactly(columns: seq<string>, predicates: ColumnFilter, projection: ColumnFilter)
    ensures var r := WithFilters(columns, predicates, projection);
            && (r.Success? <==>
                  && (predicates.allow == [] || predicates.deny == [])
                  && (projection.allow == [] || projection.deny == [])
                  && ListsColumns(columns, predicates) && ListsColumns(columns, projection))
            && (r.Success? ==> r.value == DatasetSchema(columns, predicates, projection))
            && (r.Failure? ==> r.error == InvalidValue)
  {
    FilterFitsExactly(columns, predicates);
    FilterFitsExactly(columns, projection);
  }

  lemma IsColumnMeaning(columns: seq<string>, name: string)
    ensures Lower(name) in ByName(columns) <==> Listed(columns, name)
  {
    ByNameIsLast(columns);
    HasFoldedMeaning(columns, name);
    if Lower(name) in ByName(columns) { assert Lower(columns[ByName(columns)[Lower(name)]]) == Lower(name); }
  }

  lemma FilterFitsExactly(columns: seq<string>, f: ColumnFilter)
    ensures FilterFits(columns, f) <==> (f.allow == [] || f.deny == []) && ListsColumns(columns, f)
  {
    FoldedColumns(columns, f.allow);
    FoldedColumns(columns, f.deny);
  }

  lemma FoldedColumns(columns: seq<string>, listed: seq<string>)
    ensures AreColumns(columns, listed) <==> AllColumns(columns, listed)
  {
    forall k | 0 <= k < |listed| ensures Lower(listed[k]) in ByName(columns) <==> Listed(columns, listed[k]) {
      IsColumnMeaning(columns, listed[k]);
    }
  }

  predicate HasColumnFilters(s: DatasetSchema) {
    IsActive(s.predicateFilter) || IsActive(s.projectionFilter)
  }

  /** The lists of the projection filter admit column `c`. */
  ghost predicate Visible(s: DatasetSchema, c: nat) {
    c < |s.columns| && Admits(s.projectionFilter, s.columns[c])
  }

  function Find(s: DatasetSchema, name: string): (r: Result<nat, Error>)
    ensures r.Success? ==> r.value < |s.columns| && Lower(s.columns[r.value]) == Lower(name)
    ensures r.Success? <==> exists i :: 0 <= i < |s.columns| && Lower(s.columns[i]) == Lower(name)
    ensures r.Success? ==> forall i :: r.value < i < |s.columns| ==> Lower(s.columns[i]) != Lower(name)
    ensures r.Failure? ==> r.error == UnknownColumn(name)
  {
    ByNameIsLast(s.columns);
    if Lower(name) in ByName(s.columns) then Success(ByName(s.columns)[Lower(name)]) else Failure(UnknownColumn(name))
  }

  /** A hidden column is reported as if it did not exist. */
  function FindVisible(s: DatasetSchema, name: string): Result<nat, Error> {
    var c := Find(s, name);
    if c.Success? && !Allows(s.projectionFilter, s.columns[c.value]) then Failure(UnknownColumn(name)) else c
  }

  function FindForPredicate(s: DatasetSchema, name: string): Result<nat, Error> {
    var c := FindVisible(s, name);
    if c.Success? && c.value < |s.columns| && !Allows(s.predicateFilter, s.columns[c.value])
    then Failure(Forbidden(s.columns[c.value])) else c
  }

  /** The names of the visible columns, in schema order. */
  function VisibleNames(s: DatasetSchema, n: nat): (names: seq<string>)
    requires n <= |s.columns|
    ensures forall x :: x in names ==> Admits(s.projectionFilter, x) && x in s.columns
    ensures names == [] <==> forall c: nat :: c < n ==> !Visible(s, c)
  {
    if n == 0 then []
    else
      AllowsExactly(s.projectionFilter, s.columns[n - 1]);
      assert Visible(s, n - 1) <==> Allows(s.projectionFilter, s.columns[n - 1]);
      var front := VisibleNames(s, n - 1);
      if Allows(s.projectionFilter, s.columns[n - 1]) then front + [s.columns[n - 1]] else front
  }

  /** Visibility depends on the folded name alone. */
  lemma FoldedAlikeVisibleAlike(s: DatasetSchema, a: string, b: string)
    requires Lower(a) == Lower(b)
    ensures Admits(s.projectionFilter, a) == Admits(s.projectionFilter, b)
  {
    AllowsExactly(s.projectionFilter, a);
    AllowsExactly(s.projectionFilter, b);
  }

  /** A hidden column cannot be told from one that does not exist: a lookup succeeds exactly when some
      column that the lists admit bears the name up to case, and fails as for an unknown name. */
  lemma HiddenLooksAbsent(s: DatasetSchema, name: string)
    ensures FindVisible(s, name).Success? <==> exists c: nat :: Visible(s, c) && SameUpToCase(s.columns[c], name)
    ensures FindVisible(s, name).Failure? ==> FindVisible(s, name) == Failure(UnknownColumn(name))
  {
    var r := Find(s, name);
    forall c: nat | c < |s.columns| ensures SameUpToCase(s.columns[c], name) <==> Lower(s.columns[c]) == Lower(name) {
      FoldAlikeExactly(s.columns[c], name);
    }
    if r.Success? {
      AllowsExactly(s.projectionFilter, s.columns[r.value]);
      forall c: nat | c < |s.columns| && SameUpToCase(s.columns[c], name)
        ensures Visible(s, c) <==> Visible(s, r.value)
      {
        FoldedAlikeVisibleAlike(s, s.columns[c], s.columns[r.value]);
      }
    }
  }
}
