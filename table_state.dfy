/** The table's state as one object: the fields the data hook creates
    (src/hooks/useMoviesTable.ts) and the handlers the grid component runs on
    them (src/components/MoviesTable.tsx). Each handler acts on the current state. */
module TableStateModel {
  import opened MovieTypes
  import opened TableEdits
  import opened Fetching

  /** The fields no fetch touches. */
  datatype UiState = UiState(
    validationErrors: map<string, string>,
    pagination: Pagination,
    selectedRowToDelete: Option<nat>,
    createModalOpen: bool,
    deleteModalOpen: bool)

  const InitialUiState: UiState := UiState(map[], InitialPagination, None, false, false)

  class TableState {
    var data: seq<Movie>
    var validationErrors: map<string, string>
    var isError: bool
    var isLoading: bool
    var isRefetching: bool
    var rowCount: int
    var pagination: Pagination
    /** The index of the row targeted for deletion, if a row was clicked. */
    var selectedRowToDelete: Option<nat>
    var createModalOpen: bool
    var deleteModalOpen: bool

    /** The fields a fetch writes, as a value. */
    function FetchView(): FetchState
      reads this
    {
      FetchState(data, rowCount, isError, isLoading, isRefetching)
    }

    /** All other fields, as a value. */
    function UiView(): UiState
      reads this
    {
      UiState(validationErrors, pagination, selectedRowToDelete, createModalOpen, deleteModalOpen)
    }

    /** The hook's initial state: no rows, no flags, count 0, first page of 10,
        no selection, both dialogs closed, no validation errors. */
    constructor ()
      ensures FetchView() == InitialFetchState
      ensures UiView() == InitialUiState
      ensures data == [] && rowCount == 0 && !isError && !isLoading && !isRefetching
      ensures pagination.pageIndex == 0 && pagination.pageSize == 10
    {
      data := [];
      isError := false;
      isLoading := false;
      isRefetching := false;
      rowCount := 0;
      createModalOpen := false;
      deleteModalOpen := false;
      selectedRowToDelete := None;
      validationErrors := map[];
      pagination := InitialPagination;
    }

    /** The pagination setter; reports whether the fetch effect runs again. */
    method ChangePagination(p: Pagination) returns (refetch: bool)
      modifies this
      ensures refetch == EffectReruns(old(pagination), p)
      ensures FetchView() == old(FetchView())
      ensures UiView() == old(UiView()).(pagination := p)
    {
      refetch := pagination != p;
      pagination := p;
    }

    /** The synchronous part of a fetch: raise a loading flag and issue the
        request for the current page. */
    method FetchStart() returns (request: PageRequest)
      modifies this
      ensures request == RequestFor(pagination)
      ensures request.page == pagination.pageIndex + 1
      ensures FetchView() == FetchStarted(old(FetchView()))
      ensures UiView() == old(UiView())
    {
      if |data| == 0 {
        isLoading := true;
      } else {
        isRefetching := true;
      }
      request := PageRequest(SearchTerm, pagination.pageIndex + 1);
    }

    /** The part of a fetch after the await, one setter at a time. */
    method FetchSettle(outcome: FetchOutcome)
      modifies this
      ensures FetchView() == FetchSettled(old(FetchView()), outcome)
      ensures UiView() == old(UiView())
    {
      match outcome {
        case Success(response) =>
          data := response.Search;
          rowCount := response.totalResults;
        case Failure =>
          isError := true;
          return;
      }
      isError := false;
      isLoading := false;
      isRefetching := false;
    }

    /** The creation callback of the create dialog. */
    method CreateNewRow(values: Movie)
      modifies this
      ensures FetchView() == old(FetchView()).(data := WithRowAppended(old(data), values))
      ensures UiView() == old(UiView())
    {
      data := data + [values];
    }

    /** Row-edit save: only with no pending validation error is the row written
        and editing mode left; otherwise nothing happens. */
    method SaveRowEdits(index: nat, values: Movie) returns (exitEditing: bool)
      requires index < |data|
      modifies this
      ensures exitEditing <==> |old(validationErrors)| == 0
      ensures exitEditing ==> FetchView() == old(FetchView()).(data := WithRowReplaced(old(data), index, values))
      ensures !exitEditing ==> FetchView() == old(FetchView())
      ensures UiView() == old(UiView())
    {
      exitEditing := false;
      if |validationErrors| == 0 {
        data := data[index := values];
        exitEditing := true;
      }
    }

    /** Row-edit cancel: all validation errors go; rows stay. */
    method CancelRowEdits()
      modifies this
      ensures FetchView() == old(FetchView())
      ensures UiView() == old(UiView()).(validationErrors := map[])
    {
      validationErrors := map[];
    }

    /** Delete click: remember the row and open the confirmation dialog. */
    method DeleteRowClick(index: nat)
      requires index < |data|
      modifies this
      ensures FetchView() == old(FetchView())
      ensures UiView() == old(UiView()).(selectedRowToDelete := Some(index), deleteModalOpen := true)
    {
      selectedRowToDelete := Some(index);
      deleteModalOpen := true;
    }

    /** Delete confirmation: splice out the selected row, if any. The selection
        itself is kept. */
    method ConfirmDelete()
      modifies this
      ensures selectedRowToDelete.None? ==> FetchView() == old(FetchView())
      ensures selectedRowToDelete.Some? ==>
        FetchView() == old(FetchView()).(data := WithRowRemoved(old(data), selectedRowToDelete.value))
      ensures UiView() == old(UiView())
    {
      if selectedRowToDelete.Some? {
        var index := selectedRowToDelete.value;
        if index < |data| {
          data := data[..index] + data[index + 1..];
        }
      }
    }

    /** Cell blur in the edit form: validate the value and record or clear the
        cell's error. */
    method CellBlur(cellId: string, header: string, value: string)
      modifies this
      ensures FetchView() == old(FetchView())
      ensures UiView() == old(UiView()).(validationErrors := WithCellValidated(old(validationErrors), cellId, header, value))
    {
      if !ValidateRequired(value) {
        validationErrors := validationErrors[cellId := RequiredMessage(header)];
      } else {
        validationErrors := validationErrors - {cellId};
      }
    }

    /** The "Create New Movie" button. */
    method OpenCreateModal()
      modifies this
      ensures FetchView() == old(FetchView())
      ensures UiView() == old(UiView()).(createModalOpen := true)
    {
      createModalOpen := true;
    }

    /** The create dialog's close callback. */
    method CloseCreateModal()
      modifies this
      ensures FetchView() == old(FetchView())
      ensures UiView() == old(UiView()).(createModalOpen := false)
    {
      createModalOpen := false;
    }

    /** The delete dialog's close callback. */
    method CloseDeleteModal()
      modifies this
      ensures FetchView() == old(FetchView())
      ensures UiView() == old(UiView()).(deleteModalOpen := false)
    {
      deleteModalOpen := false;
    }
  }

  /** Confirming a deletion in the dialog: the delete callback, then the close
      callback. The collection loses the selected row and the dialog closes. */
  method ConfirmDeleteDialog(t: TableState)
    modifies t
    ensures t.selectedRowToDelete == old(t.selectedRowToDelete)
    ensures t.FetchView() == old(t.FetchView()).(data :=
      match t.selectedRowToDelete
      case Some(i) => WithRowRemoved(old(t.data), i)
      case None => old(t.data))
    ensures t.UiView() == old(t.UiView()).(deleteModalOpen := false)
  {
    t.ConfirmDelete();
    t.CloseDeleteModal();
  }

  /** Mounting the table runs the fetch effect once, for the first page. */
  method Mount(outcome: FetchOutcome) returns (t: TableState, request: PageRequest)
    ensures fresh(t)
    ensures request == PageRequest(SearchTerm, 1)
    ensures t.FetchView() == Fetched(InitialFetchState, outcome)
    ensures t.UiView() == InitialUiState
  {
    t := new TableState();
    request := t.FetchStart();
    t.FetchSettle(outcome);
  }

  /** A pagination change followed by the effect run it triggers, if any. */
  method Paginate(t: TableState, p: Pagination, outcome: FetchOutcome) returns (request: Option<PageRequest>)
    modifies t
    ensures request.Some? <==> EffectReruns(old(t.pagination), p)
    ensures request.Some? ==> request.value == RequestFor(p)
    ensures request.Some? ==> t.FetchView() == Fetched(old(t.FetchView()), outcome)
    ensures request.None? ==> t.FetchView() == old(t.FetchView())
    ensures t.UiView() == old(t.UiView()).(pagination := p)
  {
    var refetch := t.ChangePagination(p);
    request := None;
    if refetch {
      var req := t.FetchStart();
      t.FetchSettle(outcome);
      request := Some(req);
    }
  }
}
