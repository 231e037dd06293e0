# Movies table: a verified model of the table's state machine

The movie catalog is a browser table. It fetches search results from a movie-metadata API one page at a time. It then lets the user create, edit and delete rows, but only in memory. This project models the state behind the table in Dafny and proves properties of it:

- `types.dfy` (module `MovieTypes`): the five-string `Movie` record and the API response.
- `table_edits.dfy` (module `TableEdits`): the grid's value-level logic. It holds the fixed column set, the required-field check, the per-cell validation-error update, and the append, replace-at-index and splice edits of the row collection.
- `fetching.dfy` (module `Fetching`): the data hook's fetch transitions on values. The network is an outcome argument, `Success(response)` or `Failure`. The module also holds the page request, the effect's re-run condition, and lemmas about any series of fetches.
- `table_state.dfy` (module `TableStateModel`): class `TableState`, with the hook's state fields and the grid's handlers as methods. Each method states its whole new state through two views: `FetchView()` (rows, count and the three flags) and `UiView()` (everything else).
- `create_modal.dfy` (module `CreateModal`): the create dialog. Its value map is built by a loop over the columns and changes one key at a time. Class `CreateNewMovieModal` hands the map to the table on submit.

Two modelling choices about the fetch:
- An abort rejects the awaited request, so the `catch` at src/hooks/useMoviesTable.ts:49-52 sets `isError`. The model treats an abort as a `Failure` outcome.
- `totalResults` is declared a number (src/types/index.ts:3), and the code never converts it. The model uses `int`.

The loading flags are modelled as the code leaves them. A failed fetch returns before clearing `isLoading`/`isRefetching`, so they stay stuck. `FailuresLeaveFlagsStuck` and `BothLoadingFlagsReachable` state the consequences.

## Model

| member | source | states |
|---|---|---|
| `TableEdits.ValidateRequired` | src/components/MoviesTable.tsx:73 | a value passes exactly when it is non-empty |
| `TableEdits.WithCellValidated` | src/components/MoviesTable.tsx:82-96 | an empty value maps the cell id to `RequiredMessage(header)`, the text "<header> is required" of the template at line 88; a non-empty value removes the cell id; every other key keeps its presence and its message |
| `TableEdits.CellValidationIdempotent` | src/components/MoviesTable.tsx:82-96 | repeating the same blur is idempotent |
| `TableEdits.EmptyCellBlocksSave` | src/components/MoviesTable.tsx:84-89 | after an empty cell is blurred the error map is non-empty, so the save guard blocks |
| `TableEdits.FixingLastErrorUnblocksSave` | src/components/MoviesTable.tsx:90-95 | fixing the only erroneous cell empties the map again |
| `TableEdits.WithRowAppended` | src/components/MoviesTable.tsx:43-45 | creating a row gives length + 1, the submitted values last, and earlier rows unchanged |
| `TableEdits.AppendMayDuplicateId` | src/components/MoviesTable.tsx:43-45 | there is no imdbID uniqueness check: appending can turn a collection with unique ids into one without |
| `TableEdits.WithRowReplaced` | src/components/MoviesTable.tsx:50 | the index assignment changes only that row; length and other rows unchanged |
| `TableEdits.WithRowRemoved` | src/components/MoviesTable.tsx:68 | splice(index, 1) drops the length by one and shifts later rows down by one, keeping order; an index past the end removes nothing |
| `TableEdits.RemovedRowIsTarget` | src/components/MoviesTable.tsx:66-70 | exactly one occurrence of the targeted row leaves the multiset of rows |
| `TableEdits.RemovalDropsTargetId` | src/components/MoviesTable.tsx:66-70 | with unique ids, the targeted imdbID is gone and every other row is still present |
| `TableEdits.RemoveThenReinsert` | src/components/MoviesTable.tsx:68 | putting the removed row back at its index restores the collection |
| `Fetching.RequestFor` | src/hooks/useMoviesTable.ts:41-44 | the request carries the fixed search term and page pageIndex + 1, and no page size |
| `Fetching.SameRequestIffSamePage` | src/hooks/useMoviesTable.ts:41-44 | two cursors give the same request iff their page indices agree: pageSize is never sent |
| `Fetching.EffectReruns` | src/hooks/useMoviesTable.ts:63 | the effect re-runs iff pageIndex or pageSize changed; when it does not, the request would be the same |
| `Fetching.FetchStarted` | src/hooks/useMoviesTable.ts:34-38 | a start sets isLoading when there are no rows and isRefetching otherwise, never both in one start; rows, count and isError are unchanged |
| `Fetching.FetchSettled` | src/hooks/useMoviesTable.ts:47-56 | success replaces rows and count and clears all three flags; failure sets isError and leaves rows, count and both loading flags as they were |
| `Fetching.AfterFetchesSnoc` | src/hooks/useMoviesTable.ts:30-63 | one more effect run after a series equals the series extended by that outcome |
| `Fetching.ErrorFlagFollowsLastOutcome` | src/hooks/useMoviesTable.ts:49-56 | after one or more fetches, isError is true iff the last one failed; a start never resets it |
| `Fetching.LastSuccessWins` | src/hooks/useMoviesTable.ts:47-56 | after any history, a final success leaves exactly its rows and count with all flags false |
| `Fetching.FailuresLeaveFlagsStuck` | src/hooks/useMoviesTable.ts:34-53 | a series of failures keeps rows and count, sets isError, and leaves on whichever loading flag the first start raised |
| `Fetching.FailedFirstLoadStaysLoading` | src/hooks/useMoviesTable.ts:34-53 | a failed first load leaves isLoading and isError true over an empty table |
| `Fetching.BothLoadingFlagsReachable` | src/hooks/useMoviesTable.ts:34-38 | after a failed first load and a locally created row, the next start leaves both loading flags true |
| `Fetching.ManOfSteelFirstPage` | src/hooks/useMoviesTable.ts:41-56 | the first page is requested as page 1; a one-row response with 256 results gives one row, rowCount 256 and no flags |
| `TableStateModel.TableState.constructor` | src/hooks/useMoviesTable.ts:10-27 | the initial state: no rows, count 0, all flags false, page {0, 10}, no selection, dialogs closed, no validation errors |
| `TableStateModel.TableState.ChangePagination` | src/hooks/useMoviesTable.ts:24-27 | the pagination setter stores the cursor, reports whether the effect re-runs, and changes nothing else |
| `TableStateModel.TableState.FetchStart` | src/hooks/useMoviesTable.ts:34-44 | raises the loading flag as `FetchStarted` does and issues the request for the current page; nothing outside the fetch fields changes |
| `TableStateModel.TableState.FetchSettle` | src/hooks/useMoviesTable.ts:45-56 | applies the outcome as `FetchSettled` does, including the early return on failure; dialogs, selection and validation errors are untouched |
| `TableStateModel.TableState.CreateNewRow` | src/components/MoviesTable.tsx:43-45 | appends the row and changes nothing else |
| `TableStateModel.TableState.SaveRowEdits` | src/components/MoviesTable.tsx:47-55 | with an empty error map, replaces only the edited row and exits editing mode; otherwise changes nothing and stays in editing mode |
| `TableStateModel.TableState.CancelRowEdits` | src/components/MoviesTable.tsx:57-59 | empties the validation-error map and leaves the rows unchanged |
| `TableStateModel.TableState.DeleteRowClick` | src/components/MoviesTable.tsx:61-64 | records the row as selected for deletion and opens the delete dialog, rows untouched |
| `TableStateModel.TableState.ConfirmDelete` | src/components/MoviesTable.tsx:66-71 | with a selection, splices out the selected index; with none, a no-op; the selection stays |
| `TableStateModel.TableState.CellBlur` | src/components/MoviesTable.tsx:82-96 | updates the error map as `WithCellValidated` does and nothing else |
| `TableStateModel.TableState.OpenCreateModal` | src/components/MoviesTable.tsx:243 | opens the create dialog and nothing else |
| `TableStateModel.TableState.CloseCreateModal` | src/components/MoviesTable.tsx:274 | closes the create dialog and nothing else |
| `TableStateModel.TableState.CloseDeleteModal` | src/components/MoviesTable.tsx:279 | closes the delete dialog and nothing else |
| `TableStateModel.ConfirmDeleteDialog` | src/components/DeleteItemModal.tsx:17-20 | the delete callback, then the close callback: the selected row is removed and the dialog closes |
| `TableStateModel.Mount` | src/hooks/useMoviesTable.ts:30-63 | mounting runs one fetch for page 1 from the initial state |
| `TableStateModel.Paginate` | src/hooks/useMoviesTable.ts:30-63 | a cursor change issues one request for the new page iff the index or size changed, and only then runs a fetch |
| `CreateModal.InitialValues` | src/components/CreateNewMovieModal.tsx:20-25 | the keys are exactly the columns' `KeyOf` keys (the accessor key, or "" for a column without one, as `?? ""` at line 22), each mapped to "" |
| `CreateModal.ColumnKeysAreMovieFields` | src/components/MoviesTable.tsx:103-154 | the grid's columns give the form exactly the five movie field names |
| `CreateModal.WithFieldChanged` | src/components/CreateNewMovieModal.tsx:49-50 | the named key gets the new value; every other key keeps its value; no key is lost |
| `CreateModal.FieldChangeOverwrites` | src/components/CreateNewMovieModal.tsx:49-50 | a second change of the same field replaces the first |
| `CreateModal.FieldChangesCommute` | src/components/CreateNewMovieModal.tsx:49-50 | changes to different fields commute |
| `CreateModal.FieldChangeUpdatesRecord` | src/components/CreateNewMovieModal.tsx:49-50 | a change keeps all five movie keys, and the submitted record differs only in the named field |
| `CreateModal.UntouchedFormSubmitsEmptyMovie` | src/components/CreateNewMovieModal.tsx:20-30 | an untouched form submits a record of five empty strings: nothing is validated |
| `CreateModal.CreateNewMovieModal.constructor` | src/components/CreateNewMovieModal.tsx:20-25 | the lazy initialiser runs once, giving every accessor key the value "" |
| `CreateModal.CreateNewMovieModal.HandleChange` | src/components/CreateNewMovieModal.tsx:49-50 | the form state becomes `WithFieldChanged` of the old one |
| `CreateModal.CreateNewMovieModal.HandleSubmit` | src/components/CreateNewMovieModal.tsx:27-30 | appends `MovieOf(values)`, the value map read as a movie record as `onSubmit` receives it at line 28, closes the dialog, and does not reset the values |
| `CreateModal.CreateNewMovieModal.HandleCancel` | src/components/CreateNewMovieModal.tsx:58 | only closes the dialog |
| `CreateModal.CreateTwice` | src/components/CreateNewMovieModal.tsx:20-30 | a second create from the same dialog starts from the values left by the first |

## Left out

- JSX rendering and the table library's configuration (src/components/MoviesTable.tsx:103-154, 176-283). Columns are kept only as accessor keys and headers; sorting, filtering, the pagination UI and row selection happen inside the library.
- CSV export (src/components/MoviesTable.tsx:156-174): the serialisation is done by a third-party library whose code is not part of this model.
- src/apis/omdbMoviesApi.ts is not part of this model: it only configures the HTTP client. The API key in the request path is not modelled; the search term is.
- HTTP, `AbortController` and `console.error`: a request is an outcome argument. Async timing is not modelled: a fetch is a start followed by its settle, and a response arriving late, after the next fetch has started, is not modelled.
- React closure staleness and render batching: each handler acts on the current state.
- TableEdits.WithCellValidated: keeps every other cell's entry, which holds for a blur handler acting on the current map. In the program as run, `columns` is memoised with `[]` (src/components/MoviesTable.tsx:153), so the edit fields keep the first render's `getCommonEditTextFieldProps` (lines 75-101), whose `validationErrors` is the initial `{}`. An empty blur then sets the map to just `{[cell.id]: message}` and a valid blur sets it to `{}`, dropping other cells' errors. The same holds for `TableStateModel.TableState.CellBlur`.
- Fetching.FetchSettled: does not model a 2xx reply without a `Search` array. The `as MovieApiResponse` at src/hooks/useMoviesTable.ts:45 is only a compile-time cast. So a reply such as `{"Response":"False","Error":...}`, or a body left unparsed as a string, still takes the success path. Lines 47-48 then store `undefined` as the rows and the count, and lines 54-56 clear all three flags with `isError` false. The model's `Success` always carries a sequence and an integer, and its `Failure` sets `isError`, so neither outcome matches this path.
- TableStateModel.TableState.FetchSettle: the same success path with `undefined` rows and count is not modelled, for the same reason as `Fetching.FetchSettled`.
- Editing mode belongs to the table library; `SaveRowEdits` reports whether `exitEditingMode` is called rather than holding that state.
- TableStateModel.TableState.SaveRowEdits: requires the row index to be in range. An out-of-range index assignment in JavaScript would grow the array with holes, which a sequence of records cannot represent.
- TableStateModel.TableState.DeleteRowClick: requires the clicked row's index to be in range, as it always is for a row the table displays. The selection is stored as that index.
- CreateModal.CreateNewMovieModal.HandleSubmit: requires the value map to hold the five movie keys. `UntouchedFormSubmitsEmptyMovie` and `FieldChangeUpdatesRecord` show this always holds for the grid's columns. The contract does not state the order of the two callbacks; the body runs them in the source's order, and they write disjoint fields.
- The `Response` field of the API response is carried but never read.
