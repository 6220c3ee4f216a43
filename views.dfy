/** The state a list view (`PaketView`, `DetailsView`) keeps beside its
    table: the fetched rows, the search text and the loading flag, with the
    handlers that change them. The two views differ only in their row type,
    in how a fetched record is turned into a row, and in which field is the
    row's id; those are the class's parameters. */
module Views {
  import opened ListOps
  import opened Table

  class ListView<R(==)> {
    /** The row's `id` field. */
    const idOf: R -> string
    /** The per-record mapping applied to a fetched list. */
    const mapRow: R -> R
    /** The view's `useTable` state. */
    const table: TableState
    var users: seq<R>
    var filterName: string
    var loading: bool

    /** The view as first rendered: no rows, no search text, loading. */
    constructor (idOf: R -> string, mapRow: R -> R)
      ensures this.idOf == idOf && this.mapRow == mapRow && fresh(table)
      ensures users == [] && filterName == [] && loading
      ensures table.page == 0 && table.orderBy == "name" && table.rowsPerPage == 5
      ensures table.selected == [] && table.order == Asc
    {
      this.idOf := idOf;
      this.mapRow := mapRow;
      table := new TableState();
      users := [];
      filterName := [];
      loading := true;
    }

    /** The list request came back: when it succeeded (`ok` and `success`)
        the rows become the mapped records, in their order; either way
        loading ends. */
    method OnListResponse(succeeded: bool, data: seq<R>)
      modifies this`users, this`loading
      ensures users == if succeeded then Map(data, mapRow) else old(users)
      ensures !loading
      ensures filterName == old(filterName)
    {
      if succeeded {
        users := Map(data, mapRow);
      }
      loading := false;
    }

    /** A row reported its deletion: only that id's rows leave the list;
        the selection is left as it is. */
    method HandleDeleteUser(id: string)
      modifies this`users
      ensures users == DeleteById(old(users), idOf, id)
      ensures filterName == old(filterName) && loading == old(loading)
    {
      users := DeleteById(users, idOf, id);
    }

    /** The search box changed: the text is stored and the table goes back
        to its first page. */
    method OnFilterName(value: string)
      modifies this`filterName, table`page
      ensures filterName == value && table.page == 0
      ensures users == old(users) && loading == old(loading)
      ensures table.rowsPerPage == old(table.rowsPerPage) && table.selected == old(table.selected)
      ensures table.orderBy == old(table.orderBy) && table.order == old(table.order)
    {
      filterName := value;
      table.OnResetPage();
    }

    /** The header checkbox: it selects the ids of all fetched rows (not only
        the rows that match the search), or none. */
    method OnSelectAllRows(checked: bool)
      modifies table`selected
      ensures table.selected == if checked then Map(users, idOf) else []
      ensures table.page == old(table.page) && table.rowsPerPage == old(table.rowsPerPage)
      ensures table.orderBy == old(table.orderBy) && table.order == old(table.order)
    {
      table.OnSelectAllRows(checked, Map(users, idOf));
    }
  }
}
