/** Pagination: the LIMIT and OFFSET of a page, and how pages tile the result. */
module Pages {
  import opened Wrappers
  import opened Radix

  datatype Window = Window(limit: nat, offset: nat)

  function ClampSize(pageSize: nat, cap: nat): (size: nat)
    requires cap >= 1
    ensures 1 <= size <= cap
  {
    if pageSize < 1 then 1 else if pageSize > cap then cap else pageSize
  }

  /** Pages before this one; page zero counts as page one. */
  function PagesBefore(page: nat): nat {
    if page < 1 then 0 else page - 1
  }

  /** The first row of a page, by unbounded arithmetic. */
  function PageStart(page: nat, size: nat): nat {
    PagesBefore(page) * size
  }

  /** The rows a page shows when its offset is `offset`. */
  function WindowAt(offset: nat, size: nat, limit: Option<nat>): Window {
    match limit
    case None => Window(size, offset)
    case Some(max) =>
      if offset >= max then Window(0, offset)
      else Window(if size < max - offset then size else max - offset, offset)
  }

  /** Page numbers start at one; zero counts as one. `cap` is the backend's page-size maximum.
      The offset is a 64-bit product, which wraps when it does not fit. */
  function PageWindow(page: nat, pageSize: nat, limit: Option<nat>, cap: nat): Window
    requires cap >= 1
  {
    var size := ClampSize(pageSize, cap);
    WindowAt(PageStart(page, size) % U64, size, limit)
  }

  predicate OffsetFits(page: nat, pageSize: nat, cap: nat)
    requires cap >= 1
  {
    PageStart(page, ClampSize(pageSize, cap)) < U64
  }

  predicate Shows(w: Window, row: nat) {
    w.offset <= row < w.offset + w.limit
  }

  /** The rows that belong on a page: below the limit, and in its stretch of `size` rows. */
  predicate Belongs(page: nat, size: nat, limit: Option<nat>, row: nat)
    requires size >= 1
  {
    (limit.Some? ==> row < limit.value) && row / size == PagesBefore(page)
  }

  lemma Stretch(page: nat, size: nat, row: nat)
    requires size >= 1
    ensures row / size == PagesBefore(page) <==> PageStart(page, size) <= row < PageStart(page, size) + size
  {
    var before, q, r := PagesBefore(page), row / size, row % size;
    assert row == size * q + r;
    TimesMonotone(size, q + 1, before);
    TimesMonotone(size, before + 1, q);
    assert before * size == size * before;
    assert size * (before + 1) == size * before + size;
    assert size * (q + 1) == size * q + size;
  }

  /** A page whose offset fits 64 bits shows exactly the rows that belong on it. Each row belongs
      on one page only, so pages are disjoint, adjoin, and cover exactly the rows below the limit,
      all rows when there is none. */
  lemma PagesPartition(page: nat, pageSize: nat, limit: Option<nat>, cap: nat, row: nat)
    requires cap >= 1 && OffsetFits(page, pageSize, cap)
    ensures Shows(PageWindow(page, pageSize, limit, cap), row) <==> Belongs(page, ClampSize(pageSize, cap), limit, row)
  {
    var size := ClampSize(pageSize, cap);
    ModIsSmall(PageStart(page, size), U64);
    Stretch(page, size, row);
  }

  /** For a page size that the backend allows: page `n` shows exactly the rows from `(n - 1) * pageSize` up
      to `n * pageSize` that lie below the limit. */
  lemma RequestedPageShows(page: nat, pageSize: nat, limit: Option<nat>, cap: nat, row: nat)
    requires 1 <= page && 1 <= pageSize <= cap && (page - 1) * pageSize < U64
    ensures Shows(PageWindow(page, pageSize, limit, cap), row)
      <==> (page - 1) * pageSize <= row < page * pageSize && (limit.Some? ==> row < limit.value)
  {
    PagesPartition(page, pageSize, limit, cap, row);
    Stretch(page, pageSize, row);
    assert page * pageSize == (page - 1) * pageSize + pageSize;
  }

  /** Other sizes and page zero are read as the nearest that are allowed. */
  lemma OutOfRangeIsNearest(page: nat, pageSize: nat, limit: Option<nat>, cap: nat)
    requires cap >= 1
    ensures PageWindow(page, 0, limit, cap) == PageWindow(page, 1, limit, cap)
    ensures PageWindow(page, cap + pageSize, limit, cap) == PageWindow(page, cap, limit, cap)
    ensures PageWindow(0, pageSize, limit, cap) == PageWindow(1, pageSize, limit, cap)
  {
  }

  /** A page whose offset does not fit shows only rows of earlier pages: it is right exactly when
      it shows nothing, that is when a limit lies at or below the wrapped offset. */
  lemma WrappedPageExactly(page: nat, pageSize: nat, limit: Option<nat>, cap: nat)
    requires cap >= 1 && !OffsetFits(page, pageSize, cap)
    requires limit.Some? ==> limit.value < U64
    ensures var w, size := PageWindow(page, pageSize, limit, cap), ClampSize(pageSize, cap);
            (forall row: nat :: Shows(w, row) <==> Belongs(page, size, limit, row))
            <==> (limit.Some? && limit.value <= PageStart(page, size) % U64)
  {
    var size := ClampSize(pageSize, cap);
    var w := PageWindow(page, pageSize, limit, cap);
    var start := PageStart(page, size);
    if limit.Some? && limit.value <= start % U64 {
      forall row: nat ensures Shows(w, row) <==> Belongs(page, size, limit, row) { Stretch(page, size, row); }
    } else {
      Stretch(page, size, w.offset);
      assert Shows(w, w.offset) && !Belongs(page, size, limit, w.offset);
    }
  }

  /** With two rows to a page, page 2^63 + 1 shows row zero, which belongs on page one. */
  lemma WrappedPageShowsRowZero()
    ensures var page := 0x8000_0000_0000_0001;
            && !OffsetFits(page, 2, 100) && Shows(PageWindow(page, 2, None, 100), 0)
            && !Belongs(page, 2, None, 0) && Belongs(1, 2, None, 0)
  {
    assert 0x8000_0000_0000_0000 * 2 == U64;
  }

  // ------------------------------------------------------------------ slices of rows

  /** LIMIT and OFFSET applied to a list of rows. */
  function Slice<T>(rows: seq<T>, w: Window): seq<T> {
    if w.offset >= |rows| then []
    else rows[w.offset..if w.offset + w.limit < |rows| then w.offset + w.limit else |rows|]
  }

  /** The rows below the limit. */
  function Capped<T>(rows: seq<T>, limit: Option<nat>): seq<T> {
    if limit.Some? && limit.value < |rows| then rows[..limit.value] else rows
  }

  ghost function FirstPages<T>(rows: seq<T>, n: nat, pageSize: nat, limit: Option<nat>, cap: nat): seq<T>
    requires cap >= 1
  {
    if n == 0 then []
    else FirstPages(rows, n - 1, pageSize, limit, cap) + Slice(rows, PageWindow(n, pageSize, limit, cap))
  }

  function Min(a: nat, b: nat): nat {
    if a < b then a else b
  }

  lemma PageIsSlice<T>(rows: seq<T>, offset: nat, size: nat, limit: Option<nat>)
    ensures var c := Capped(rows, limit);
            Slice(rows, WindowAt(offset, size, limit)) == c[Min(offset, |c|)..Min(offset + size, |c|)]
  {
  }

  lemma Extend<T>(c: seq<T>, m: nat, size: nat)
    ensures c[..Min(m, |c|)] + c[Min(m, |c|)..Min(m + size, |c|)] == c[..Min(m + size, |c|)]
  {
  }

  lemma StartStep(n: nat, size: nat)
    ensures PageStart(n + 2, size) == PageStart(n + 1, size) + size
    ensures PageStart(1, size) == 0
  {
    assert (n + 1) * size == n * size + size;
  }

  lemma {:induction false} PagesConcatenate<T>(rows: seq<T>, n: nat, pageSize: nat, limit: Option<nat>, cap: nat)
    requires cap >= 1 && (n >= 1 ==> OffsetFits(n, pageSize, cap))
    ensures var c := Capped(rows, limit);
            FirstPages(rows, n, pageSize, limit, cap) == c[..Min(PageStart(n + 1, ClampSize(pageSize, cap)), |c|)]
  {
    var size := ClampSize(pageSize, cap);
    if n == 0 {
      StartStep(0, size);
    } else {
      var start := PageStart(n, size);
      StartStep(n - 1, size);
      if n > 1 { StartStep(n - 2, size); }
      PagesConcatenate(rows, n - 1, pageSize, limit, cap);
      ModIsSmall(start, U64);
      PageIsSlice(rows, start, size, limit);
      Extend(Capped(rows, limit), start, size);
    }
  }

  /** Reading pages one after another reads every row below the limit, in order, once. */
  lemma AllPagesReadEverything<T>(rows: seq<T>, n: nat, pageSize: nat, limit: Option<nat>, cap: nat)
    requires cap >= 1 && (n >= 1 ==> OffsetFits(n, pageSize, cap))
    requires PageStart(n + 1, ClampSize(pageSize, cap)) >= |Capped(rows, limit)|
    ensures FirstPages(rows, n, pageSize, limit, cap) == Capped(rows, limit)
  {
    PagesConcatenate(rows, n, pageSize, limit, cap);
  }
}
