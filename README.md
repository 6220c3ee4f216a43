# Washify dashboard list views, in Dafny

This project models the client-side state logic of two list screens of the
Washify administration dashboard. The package list (`PaketView`) and the
transaction line-item list (`DetailsView`) fetch their rows from the backend,
map each record for display, and show the rows in a sortable, selectable,
paginated table.

- `ListOps` (list_ops.dfy): the JavaScript array operations the views use.
  These are `filter` (`Filter`), `map` (`Map`) and `slice` (`Slice`). On top
  of them sit the delete propagation (`DeleteById`), the page window shown by
  the table body (`PageRows`) and the "no match" flag (`NotFound`).
- `Table` (table.dfy): the `useTable` hook as the class `TableState`, with
  one method per callback. The sort-direction rule is `NextOrder` and the row
  checkbox rule is `Toggle`. Both view files declare the same hook, at
  `src/sections/pakets/view/paket-view.tsx:221-285` and
  `src/sections/details/view/details-view.tsx:216-280`. The two copies are
  identical, so one class models both.
- `Views` (views.dfy): the state each view keeps beside its table: the
  fetched rows (`users`), the search text (`filterName`) and the loading flag.
  It also holds the view's handlers that change that state. The two views
  differ only in their row type, the per-record mapping and the id field.
  The generic class `ListView` takes these as parameters.
- `Pakets` (pakets.dfy): a package row, the closed five-way relabeling of its
  type code `jenis`, and the package view.
- `Details` (details.dfy): a line item and the copy of its `transaksi` and
  `paket` joins into `id_transaksi` and `id_paket`, and the line-item view.

Behaviour the model makes explicit:

- Deleting a row does not touch the selection. An id that was checked stays
  in `selected` after its row is gone (`Views.ListView.HandleDeleteUser`
  leaves the table alone).
- The header checkbox selects the ids of every fetched row, not only the rows
  that match the search (`Views.ListView.OnSelectAllRows`).
- After a delete, the table stays on its page. That page can now lie past
  the end, and it is then empty (`ListOps.PageRows`).
- The package type labels are not themselves codes. Relabeling a relabeled
  row would blank its type (`Pakets.JenisLabelNotIdempotent`). The views
  relabel each fetched list once.
- When a line item arrives without a `transaksi` (or `paket`) join, its
  `id_transaksi` (or `id_paket`) becomes absent, even if the record carried
  one (`Details.LinkDetail`).

## Model

| member | source | states |
|---|---|---|
| `ListOps.Filter` | src/sections/pakets/view/paket-view.tsx:248 | `filter` keeps only elements satisfying the predicate, each one taken from the input. The result is never longer, and it equals the input when nothing is dropped |
| `ListOps.FilterCountOf` | src/sections/pakets/view/paket-view.tsx:248 | a value `filter` keeps occurs exactly as often as in the input; a value it drops does not occur at all |
| `ListOps.FilterAppend` | src/sections/details/view/details-view.tsx:243 | filtering a concatenation is the concatenation of the filtered parts, so kept elements keep their relative order |
| `ListOps.FilterKeepsAll` | src/sections/pakets/view/paket-view.tsx:104 | when every element satisfies the predicate, `filter` returns its input unchanged |
| `ListOps.FilterKeepsDistinct` | src/sections/details/view/details-view.tsx:99 | filtering a list without repetitions yields a list without repetitions |
| `ListOps.Map` | src/sections/pakets/view/paket-view.tsx:167 | `map` gives a list of the same length whose k-th element is the function applied to the k-th input |
| `ListOps.DeleteById` | src/sections/pakets/view/paket-view.tsx:103-105 | after `handleDeleteUser(id)` no row has that id, and every remaining row was a row before. Every other row keeps its multiplicity. The list never grows |
| `ListOps.DeleteMissingId` | src/sections/details/view/details-view.tsx:98-100 | deleting an id no row carries leaves the list unchanged |
| `ListOps.DeleteKeepsOrder` | src/sections/details/view/details-view.tsx:99 | deleting from a concatenation deletes from each part, so surviving rows keep their relative order |
| `ListOps.DeleteIds` | src/sections/details/view/details-view.tsx:159-164 | the ids that select-all would pick after a delete are the old ids with that id filtered out |
| `ListOps.Slice` | src/sections/pakets/view/paket-view.tsx:178-182 | `slice(start, end)` for non-negative bounds: both bounds are clipped to the length. The result holds `min(end, len) - min(start, len)` elements, or none when that is not positive. Element k is `s[min(start, len) + k]`. Within bounds it is exactly `s[start..end]` |
| `ListOps.PageRows` | src/sections/details/view/details-view.tsx:173-177 | the displayed page has at most `rowsPerPage` rows. Row k is `dataFiltered[page*rowsPerPage + k]`. It is empty iff `rowsPerPage` is 0 or the page starts at or past the end, full when enough rows remain, and otherwise holds all the rest |
| `ListOps.PagesTile` | src/sections/pakets/view/paket-view.tsx:178-182 | the first n pages laid end to end are exactly the first `min(n*rowsPerPage, length)` rows: nothing skipped, nothing repeated |
| `ListOps.RowOnPage` | src/sections/pakets/view/paket-view.tsx:179-181 | with a positive page size, row i appears on page `i / rowsPerPage` at position `i % rowsPerPage` |
| `ListOps.NotFound` | src/sections/details/view/details-view.tsx:108 | `notFound` holds iff a search text was typed and no page of the table body shows a row, for every page number and page size |
| `ListOps.NotFoundShowsNoRows` | src/sections/pakets/view/paket-view.tsx:113 | when `notFound` holds, every page of the table body is empty |
| `Table.NextOrder` | src/sections/pakets/view/paket-view.tsx:228-235 | `onSort(id)` on the current column flips its direction; a different column always starts `asc` |
| `Table.SortTwiceRestores` | src/sections/details/view/details-view.tsx:223-230 | sorting the current column twice returns to its original direction |
| `Table.SortNewColumn` | src/sections/pakets/view/paket-view.tsx:230-231 | a newly chosen column is sorted ascending, then descending on the next click |
| `Table.Toggle` | src/sections/pakets/view/paket-view.tsx:245-254 | the checked row is selected afterwards iff it was not before. Other ids keep their multiplicity and nothing new appears. An unselected row is appended at the end. Unchecking shortens the selection |
| `Table.ToggleOffSplits` | src/sections/details/view/details-view.tsx:240-249 | unchecking removes the id from each part of the selection separately, so the other ids keep their order |
| `Table.ToggleTwiceUnselected` | src/sections/details/view/details-view.tsx:242-244 | checking then unchecking an unselected row restores the selection exactly |
| `Table.ToggleTwiceSelected` | src/sections/pakets/view/paket-view.tsx:247-249 | on a repetition-free selection, unchecking then checking a row restores the same ids, the row now last |
| `Table.ToggleKeepsDistinct` | src/sections/pakets/view/paket-view.tsx:245-252 | row toggling keeps a selection free of repetitions |
| `Table.TableState.constructor` | src/sections/pakets/view/paket-view.tsx:222-226 | initial state: page 0, orderBy `name`, 5 rows per page, empty selection, ascending |
| `Table.TableState.OnSort` | src/sections/details/view/details-view.tsx:223-230 | sets `orderBy` to the id and `order` to `NextOrder` of the old state; page, size and selection unchanged |
| `Table.TableState.OnSelectAllRows` | src/sections/pakets/view/paket-view.tsx:237-243 | checked: the selection becomes exactly the given ids; unchecked: empty; nothing else changes |
| `Table.TableState.OnSelectRow` | src/sections/details/view/details-view.tsx:240-249 | the selection becomes `Toggle` of the old one; nothing else changes |
| `Table.TableState.OnResetPage` | src/sections/pakets/view/paket-view.tsx:256-258 | only the page changes, to 0 |
| `Table.TableState.OnChangePage` | src/sections/details/view/details-view.tsx:255-257 | only the page changes, to the new page |
| `Table.TableState.OnChangeRowsPerPage` | src/sections/pakets/view/paket-view.tsx:264-270 | the page size becomes the parsed value and the page goes back to 0; nothing else changes |
| `Views.ListView.constructor` | src/sections/details/view/details-view.tsx:34-39 | a view starts with no rows, no search text, loading, and a fresh table in its initial state |
| `Views.ListView.OnListResponse` | src/sections/details/view/details-view.tsx:75-91 | on success the rows become the mapped records, in order; on failure they are kept; loading ends either way |
| `Views.ListView.HandleDeleteUser` | src/sections/pakets/view/paket-view.tsx:103-105 | the rows become `DeleteById` of the old rows; search text and loading unchanged |
| `Views.ListView.OnFilterName` | src/sections/pakets/view/paket-view.tsx:146-149 | typing a search stores the text and resets the table to page 0; the rest of the table state is unchanged |
| `Views.ListView.OnSelectAllRows` | src/sections/details/view/details-view.tsx:159-164 | the header checkbox selects the ids of all fetched rows in order, or none |
| `Pakets.JenisLabel` | src/sections/pakets/view/paket-view.tsx:87 | each of the five codes `kiloan`, `bed_cover`, `selimut`, `lain`, `kaos` maps to its label in the `JenisLabels` table. Any other value maps to the empty string |
| `Pakets.JenisLabelInjective` | src/sections/pakets/view/paket-view.tsx:87 | distinct known codes get distinct, non-empty labels |
| `Pakets.JenisLabelNotIdempotent` | src/sections/pakets/view/paket-view.tsx:87 | no label is a code, so relabeling a label yields the empty string |
| `Pakets.RelabelPaket` | src/sections/pakets/view/paket-view.tsx:85-88 | the spread copy changes only `jenis`, and the new `jenis` is `JenisLabel` of the old code: `kiloan` becomes `Kiloan` and so on, anything else becomes the empty string |
| `Pakets.PaketListRelabel` | src/sections/pakets/view/paket-view.tsx:85-89 | the mapped list has the same length and order. id, name and price are copied and the type is relabeled |
| `Pakets.NewPaketView` | src/sections/pakets/view/paket-view.tsx:33-41 | the package view keys rows by `id` and maps fetched records with `RelabelPaket` |
| `Details.LinkDetail` | src/sections/details/view/details-view.tsx:77-81 | `id_transaksi` and `id_paket` take the `transaksi` and `paket` joins, and every other field is copied |
| `Details.LinkDetailIdempotent` | src/sections/details/view/details-view.tsx:78-80 | linking an already linked item changes nothing |
| `Details.DetailListLink` | src/sections/details/view/details-view.tsx:76-82 | the mapped list has the same length and order, each item linked, and mapping it again changes nothing |
| `Details.NewDetailsView` | src/sections/details/view/details-view.tsx:33-41 | the line-item view keys rows by `id` and maps fetched records with `LinkDetail` |

## Left out

- The fetch flows are left out (src/sections/pakets/view/paket-view.tsx:43-101, src/sections/details/view/details-view.tsx:43-95). They cover the token lookup in local storage, the dashboard and list requests, JSON parsing, `console.error` and the redirects. These are I/O and routing. The outcome of the list request reaches the model as the parameters of `Views.ListView.OnListResponse`.
- The package view's redirect of non-admin users (src/sections/pakets/view/paket-view.tsx:65-68) is navigation and is left out. The unused `dashboardDataa` state is left out too.
- `applyFilter`, `getComparator` and `emptyRows` are imported from `src/sections/*/utils`, which is not part of this model. The filtered and sorted list `dataFiltered` is therefore an input of `ListOps.PageRows` and `ListOps.NotFound`. Not modelled either: `emptyRows` and `TablePagination` both receive `users.length`, the unfiltered count, not the filtered one.
- `parseInt(event.target.value, 10)` is taken as already done. The new page size and page number are naturals, so NaN and negative values are not modelled.
- `harga` and `qty` are JSON numbers. Only their integral values are modelled.
- React's render cycle is not modelled. Each callback's setters are applied as one sequential update of `TableState`. That matches the source, because every callback reads only the state of the render that created it and sets each slot once.
- All JSX rendering is left out, along with the MUI components and `TablePagination`'s own page control.
- The row components are not part of this model: their popovers, delete dialogs, DELETE requests and toasts. They call `onDeleteUser` after a successful delete, and that handler is modelled as `Views.ListView.HandleDeleteUser`.
- The create and edit forms and the transactions page wrapper hold no logic beyond one request each and are not part of this model.
