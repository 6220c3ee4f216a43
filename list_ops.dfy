/** The array operations both list views build on: JavaScript's
    `Array.prototype.filter`, `map` and `slice` as the views use them, the
    page window shown by the table body, and the "no match" flag. */
module ListOps {

  function Min(a: int, b: int): (m: int) {
    if a <= b then a else b
  }

  /** No value occurs twice. */
  predicate Distinct<T(==)>(s: seq<T>) {
    forall i, j :: 0 <= i < j < |s| ==> s[i] != s[j]
  }

  /** `s.filter(keep)`: the elements of `s` that satisfy `keep`, in their
      original order, each as often as it occurs in `s`. */
  function Filter<T(==)>(s: seq<T>, keep: T -> bool): (r: seq<T>)
    ensures |r| <= |s|
    ensures forall k :: 0 <= k < |r| ==> keep(r[k]) && r[k] in s
    ensures |r| == |s| ==> r == s
  {
    if s == [] then [] else (if keep(s[0]) then [s[0]] else []) + Filter(s[1..], keep)
  }

  /** `filter` keeps every occurrence of a value it keeps and none of a
      value it drops. */
  lemma {:induction false} FilterCountOf<T>(s: seq<T>, keep: T -> bool, y: T)
    ensures multiset(Filter(s, keep))[y] == if keep(y) then multiset(s)[y] else 0
  {
    if s != [] {
      FilterCountOf(s[1..], keep, y);
      assert s == [s[0]] + s[1..];
    }
  }

  /** Every element `filter` keeps occurs as often as in the input. */
  lemma FilterCount<T>(s: seq<T>, keep: T -> bool)
    ensures forall k :: 0 <= k < |s| && keep(s[k]) ==>
      multiset(Filter(s, keep))[s[k]] == multiset(s)[s[k]]
  {
    forall k | 0 <= k < |s| && keep(s[k]) {
      FilterCountOf(s, keep, s[k]);
    }
  }

  /** Filtering a concatenation filters each part: the relative order of the
      kept elements is the order they had. */
  lemma {:induction false} FilterAppend<T>(a: seq<T>, b: seq<T>, keep: T -> bool)
    ensures Filter(a + b, keep) == Filter(a, keep) + Filter(b, keep)
  {
    if a == [] {
      assert a + b == b;
    } else {
      assert (a + b)[1..] == a[1..] + b;
      FilterAppend(a[1..], b, keep);
    }
  }

  /** When every element is kept, filtering returns its input unchanged. */
  lemma {:induction false} FilterKeepsAll<T>(s: seq<T>, keep: T -> bool)
    requires forall k :: 0 <= k < |s| ==> keep(s[k])
    ensures Filter(s, keep) == s
  {
    if s != [] {
      FilterKeepsAll(s[1..], keep);
    }
  }

  /** Filtering never introduces a repetition. */
  lemma {:induction false} FilterKeepsDistinct<T>(s: seq<T>, keep: T -> bool)
    requires Distinct(s)
    ensures Distinct(Filter(s, keep))
  {
    if s != [] {
      FilterKeepsDistinct(s[1..], keep);
      var rest := Filter(s[1..], keep);
      assert s[0] !in s[1..];
      assert s[0] !in rest;
    }
  }

  /** A value occurs at most once in a sequence without repetitions. */
  lemma {:induction false} DistinctCount<T>(s: seq<T>, x: T)
    requires Distinct(s)
    ensures multiset(s)[x] == if x in s then 1 else 0
  {
    if s != [] {
      assert s == [s[0]] + s[1..];
      assert Distinct(s[1..]);
      DistinctCount(s[1..], x);
    }
  }

  /** `s.map(f)`. */
  function Map<T, U>(s: seq<T>, f: T -> U): (r: seq<U>)
    ensures |r| == |s|
    ensures forall k :: 0 <= k < |s| ==> r[k] == f(s[k])
  {
    seq(|s|, k requires 0 <= k < |s| => f(s[k]))
  }

  /** One step of `Filter`: the head, when kept, followed by the filtered
      tail. */
  lemma FilterCons<T>(s: seq<T>, keep: T -> bool)
    requires s != []
    ensures Filter(s, keep) == (if keep(s[0]) then [s[0]] else []) + Filter(s[1..], keep)
  {
  }

  /** One step of `Map`. */
  lemma MapCons<T, U>(s: seq<T>, f: T -> U)
    requires s != []
    ensures Map(s, f) == [f(s[0])] + Map(s[1..], f)
  {
  }

  /** The inductive step of `MapFilter`, for the head of `s`. */
  lemma MapFilterStep<T, U>(s: seq<T>, f: T -> U, keep: T -> bool, keepU: U -> bool)
    requires s != [] && keep(s[0]) == keepU(f(s[0]))
    requires Map(Filter(s[1..], keep), f) == Filter(Map(s[1..], f), keepU)
    ensures Map(Filter(s, keep), f) == Filter(Map(s, f), keepU)
  {
    var tail := Filter(s[1..], keep);
    var mt := Map(s[1..], f);
    var ms := [f(s[0])] + mt;
    MapCons(s, f);
    assert ms[0] == f(s[0]) && ms[1..] == mt;
    FilterCons(ms, keepU);
    FilterCons(s, keep);
    if keep(s[0]) {
      MapCons([s[0]] + tail, f);
      assert ([s[0]] + tail)[1..] == tail;
    } else {
      assert [] + tail == tail;
    }
  }

  /** Projecting after a filter on the projection is filtering the
      projections. */
  lemma {:induction false} MapFilter<T, U>(s: seq<T>, f: T -> U, keep: T -> bool, keepU: U -> bool)
    requires forall x :: keep(x) == keepU(f(x))
    ensures Map(Filter(s, keep), f) == Filter(Map(s, f), keepU)
  {
    if s != [] {
      MapFilter(s[1..], f, keep, keepU);
      MapFilterStep(s, f, keep, keepU);
    }
  }

  /** `rows.filter(row => idOf(row) !== id)`: the rows that remain after the
      row with id `id` was deleted. */
  function DeleteById<R(==)>(rows: seq<R>, idOf: R -> string, id: string): (r: seq<R>)
    ensures |r| <= |rows|
    ensures forall k :: 0 <= k < |r| ==> idOf(r[k]) != id && r[k] in rows
    ensures forall k :: 0 <= k < |rows| && idOf(rows[k]) != id ==>
      multiset(r)[rows[k]] == multiset(rows)[rows[k]]
  {
    FilterCount(rows, row => idOf(row) != id);
    Filter(rows, row => idOf(row) != id)
  }

  /** Deleting an id that no row carries changes nothing. */
  lemma DeleteMissingId<R>(rows: seq<R>, idOf: R -> string, id: string)
    requires forall k :: 0 <= k < |rows| ==> idOf(rows[k]) != id
    ensures DeleteById(rows, idOf, id) == rows
  {
    FilterKeepsAll(rows, row => idOf(row) != id);
  }

  /** The rows before and after a block stay before and after it: deleting
      from a concatenation deletes from each part. */
  lemma DeleteKeepsOrder<R>(a: seq<R>, b: seq<R>, idOf: R -> string, id: string)
    ensures DeleteById(a + b, idOf, id) == DeleteById(a, idOf, id) + DeleteById(b, idOf, id)
  {
    FilterAppend(a, b, row => idOf(row) != id);
  }

  /** The ids of the remaining rows are the old ids without `id`. */
  lemma DeleteIds<R>(rows: seq<R>, idOf: R -> string, id: string)
    ensures Map(DeleteById(rows, idOf, id), idOf) == Filter(Map(rows, idOf), x => x != id)
  {
    MapFilter(rows, idOf, row => idOf(row) != id, x => x != id);
  }

  /** `s.slice(start, end)` for non-negative arguments: both bounds are
      clipped to the length, and a window whose end is not past its start is
      empty. */
  function Slice<T>(s: seq<T>, start: nat, end: nat): (r: seq<T>)
    ensures |r| == if Min(start, |s|) < Min(end, |s|) then Min(end, |s|) - Min(start, |s|) else 0
    ensures forall k :: 0 <= k < |r| ==> r[k] == s[Min(start, |s|) + k]
    ensures end <= start || |s| <= start ==> r == []
    ensures start <= end <= |s| ==> r == s[start..end]
  {
    var from := Min(start, |s|);
    var to := Min(end, |s|);
    if from < to then s[from..to] else []
  }

  /** The rows the table body shows:
      `dataFiltered.slice(page * rowsPerPage, page * rowsPerPage + rowsPerPage)`. */
  function PageRows<T>(rows: seq<T>, page: nat, rowsPerPage: nat): (r: seq<T>)
    ensures |r| <= rowsPerPage
    ensures forall k :: 0 <= k < |r| ==>
      page * rowsPerPage + k < |rows| && r[k] == rows[page * rowsPerPage + k]
    ensures r == [] <==> rowsPerPage == 0 || |rows| <= page * rowsPerPage
    ensures page * rowsPerPage + rowsPerPage <= |rows| ==> |r| == rowsPerPage
    ensures page * rowsPerPage < |rows| ==> |r| == Min(rowsPerPage, |rows| - page * rowsPerPage)
  {
    var start := page * rowsPerPage;
    Slice(rows, start, start + rowsPerPage)
  }

  /** The first `n` pages laid end to end. */
  function Pages<T>(rows: seq<T>, rowsPerPage: nat, n: nat): (r: seq<T>) {
    if n == 0 then [] else Pages(rows, rowsPerPage, n - 1) + PageRows(rows, n - 1, rowsPerPage)
  }

  /** The pages tile the list: the first `n` pages are exactly the first
      `n * rowsPerPage` rows (or all of them), with nothing skipped or
      repeated. */
  lemma {:induction false} PagesTile<T>(rows: seq<T>, rowsPerPage: nat, n: nat)
    ensures Pages(rows, rowsPerPage, n) == rows[..Min(n * rowsPerPage, |rows|)]
  {
    if n > 0 {
      PagesTile(rows, rowsPerPage, n - 1);
      var lo := Min((n - 1) * rowsPerPage, |rows|);
      var hi := Min(n * rowsPerPage, |rows|);
      assert n * rowsPerPage == (n - 1) * rowsPerPage + rowsPerPage;
      assert PageRows(rows, n - 1, rowsPerPage) == rows[lo..hi];
      assert rows[..lo] + rows[lo..hi] == rows[..hi];
    }
  }

  /** Every row is shown on exactly one page: row `i` is at position
      `i % rowsPerPage` of page `i / rowsPerPage`. */
  lemma RowOnPage<T>(rows: seq<T>, rowsPerPage: nat, i: nat)
    requires 0 < rowsPerPage && i < |rows|
    ensures i % rowsPerPage < |PageRows(rows, i / rowsPerPage, rowsPerPage)|
    ensures PageRows(rows, i / rowsPerPage, rowsPerPage)[i % rowsPerPage] == rows[i]
  {
    var p, k := i / rowsPerPage, i % rowsPerPage;
    assert p * rowsPerPage + k == i;
    assert p * rowsPerPage <= i;
  }

  /** `!dataFiltered.length && !!filterName`: a search text was typed and
      no page of the table body shows any row. */
  predicate NotFound<T>(dataFiltered: seq<T>, filterName: string)
    ensures NotFound(dataFiltered, filterName) <==>
      filterName != [] && forall page: nat, rowsPerPage: nat :: PageRows(dataFiltered, page, rowsPerPage) == []
  {
    assert PageRows(dataFiltered, 0, 1) == [] ==> |dataFiltered| == 0;
    |dataFiltered| == 0 && |filterName| != 0
  }

  /** When nothing matched, every page of the table body is empty, whatever
      page the table is on. */
  lemma NotFoundShowsNoRows<T>(dataFiltered: seq<T>, filterName: string, page: nat, rowsPerPage: nat)
    requires NotFound(dataFiltered, filterName)
    ensures PageRows(dataFiltered, page, rowsPerPage) == []
  {
  }
}
