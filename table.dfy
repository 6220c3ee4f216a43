/** The `useTable` hook that both list views declare (the two copies are
    identical): the table's page, page size, sort column and direction, and
    the ids of the checked rows, with the callbacks that overwrite them. */
module Table {
  import opened ListOps

  /** The sort direction, `'asc' | 'desc'`. */
  datatype Order = Asc | Desc

  /** The direction `onSort(id)` picks: descending exactly when the table is
      already sorted by `id` in ascending order, ascending otherwise. */
  function NextOrder(orderBy: string, order: Order, id: string): (r: Order)
    ensures orderBy == id ==> r != order
    ensures orderBy != id ==> r == Asc
  {
    if orderBy == id && order == Asc then Desc else Asc
  }

  /** Clicking the current column's header twice restores its direction. */
  lemma SortTwiceRestores(id: string, order: Order)
    ensures NextOrder(id, NextOrder(id, order, id), id) == order
  {
  }

  /** A newly chosen column is always sorted ascending first, then
      descending. */
  lemma SortNewColumn(orderBy: string, order: Order, id: string)
    requires orderBy != id
    ensures NextOrder(orderBy, order, id) == Asc
    ensures NextOrder(id, NextOrder(orderBy, order, id), id) == Desc
  {
  }

  /** The selection after `onSelectRow(x)`: every occurrence of `x` removed
      when `x` is selected, `x` appended otherwise. */
  function Toggle(selected: seq<string>, x: string): (r: seq<string>)
    ensures x in r <==> x !in selected
    ensures forall k :: 0 <= k < |selected| && selected[k] != x ==>
      multiset(r)[selected[k]] == multiset(selected)[selected[k]]
    ensures forall k :: 0 <= k < |r| ==> r[k] == x || r[k] in selected
    ensures x !in selected ==> r == selected + [x]
    ensures x in selected ==> |r| < |selected|
  {
    if x in selected then
      FilterCount(selected, v => v != x);
      Filter(selected, v => v != x)
    else selected + [x]
  }

  /** Removing `x` keeps the other selected ids in their order: what was
      before or after a block stays before or after it. */
  lemma {:induction false} ToggleOffSplits(a: seq<string>, b: seq<string>, x: string)
    requires x in a + b
    ensures Toggle(a + b, x) == Filter(a, v => v != x) + Filter(b, v => v != x)
  {
    FilterAppend(a, b, v => v != x);
  }

  /** Checking and then unchecking an unselected row leaves the selection
      exactly as it was. */
  lemma {:induction false} ToggleTwiceUnselected(selected: seq<string>, x: string)
    requires x !in selected
    ensures Toggle(Toggle(selected, x), x) == selected
  {
    var keep := (v: string) => v != x;
    FilterAppend(selected, [x], keep);
    FilterKeepsAll(selected, keep);
    assert Filter([x], keep) == [];
  }

  /** Unchecking and then checking a selected row gives back the same set of
      selected ids, the row now last. */
  lemma {:induction false} ToggleTwiceSelected(selected: seq<string>, x: string)
    requires Distinct(selected) && x in selected
    ensures multiset(Toggle(Toggle(selected, x), x)) == multiset(selected)
    ensures Toggle(Toggle(selected, x), x)[|selected| - 1] == x
  {
    var once := Toggle(selected, x);
    var twice := Toggle(once, x);
    assert twice == once + [x];
    FilterKeepsDistinct(selected, v => v != x);
    DistinctCount(selected, x);
    forall y
      ensures multiset(twice)[y] == multiset(selected)[y]
    {
      if y == x {
        assert multiset(once)[x] == 0;
      } else if y in selected {
        var k :| 0 <= k < |selected| && selected[k] == y;
        assert multiset(once)[selected[k]] == multiset(selected)[selected[k]];
      } else {
        assert y !in once;
      }
    }
  }

  /** Toggling keeps a selection free of repetitions. */
  lemma {:induction false} ToggleKeepsDistinct(selected: seq<string>, x: string)
    requires Distinct(selected)
    ensures Distinct(Toggle(selected, x))
  {
    if x in selected {
      FilterKeepsDistinct(selected, v => v != x);
    }
  }

  /** The state `useTable` keeps; each callback overwrites some of it. */
  class TableState {
    var page: nat
    var orderBy: string
    var rowsPerPage: nat
    var selected: seq<string>
    var order: Order

    /** The hook's initial state. */
    constructor ()
      ensures page == 0 && orderBy == "name" && rowsPerPage == 5
      ensures selected == [] && order == Asc
    {
      page := 0;
      orderBy := "name";
      rowsPerPage := 5;
      selected := [];
      order := Asc;
    }

    /** A click on the header of column `id`. */
    method OnSort(id: string)
      modifies this`order, this`orderBy
      ensures orderBy == id
      ensures order == NextOrder(old(orderBy), old(order), id)
      ensures page == old(page) && rowsPerPage == old(rowsPerPage) && selected == old(selected)
    {
      var isAsc := orderBy == id && order == Asc;
      order := if isAsc then Desc else Asc;
      orderBy := id;
    }

    /** The header checkbox: `checked` selects exactly `newSelecteds`,
        unchecked clears the selection. */
    method OnSelectAllRows(checked: bool, newSelecteds: seq<string>)
      modifies this`selected
      ensures checked ==> selected == newSelecteds
      ensures !checked ==> selected == []
      ensures page == old(page) && rowsPerPage == old(rowsPerPage)
      ensures orderBy == old(orderBy) && order == old(order)
    {
      if checked {
        selected := newSelecteds;
        return;
      }
      selected := [];
    }

    /** A row's checkbox. */
    method OnSelectRow(inputValue: string)
      modifies this`selected
      ensures selected == Toggle(old(selected), inputValue)
      ensures page == old(page) && rowsPerPage == old(rowsPerPage)
      ensures orderBy == old(orderBy) && order == old(order)
    {
      selected := Toggle(selected, inputValue);
    }

    /** Back to the first page. */
    method OnResetPage()
      modifies this`page
      ensures page == 0
      ensures rowsPerPage == old(rowsPerPage) && selected == old(selected)
      ensures orderBy == old(orderBy) && order == old(order)
    {
      page := 0;
    }

    /** The pagination control moved to page `newPage`. */
    method OnChangePage(newPage: nat)
      modifies this`page
      ensures page == newPage
      ensures rowsPerPage == old(rowsPerPage) && selected == old(selected)
      ensures orderBy == old(orderBy) && order == old(order)
    {
      page := newPage;
    }

    /** A new page size, already parsed from the control's text; the table
        goes back to the first page. */
    method OnChangeRowsPerPage(value: nat)
      modifies this`rowsPerPage, this`page
      ensures rowsPerPage == value && page == 0
      ensures selected == old(selected) && orderBy == old(orderBy) && order == old(order)
    {
      rowsPerPage := value;
      OnResetPage();
    }
  }
}
