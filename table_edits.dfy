/** The value-level parts of the grid component (src/components/MoviesTable.tsx):
    the column set, the required-field check, the cell validation-error update
    and the three edits of the row collection. */
module TableEdits {
  import opened MovieTypes

  /** A column definition as far as the model needs it. */
  datatype Column = Column(accessorKey: Option<string>, header: string)

  /** The grid's fixed column set, in display order. */
  const Columns: seq<Column> := [
    Column(Some("Title"), "Title"),
    Column(Some("Year"), "Year"),
    Column(Some("imdbID"), "imdbID"),
    Column(Some("Type"), "Type"),
    Column(Some("Poster"), "Poster")
  ]

  /** The only validation there is: a value is acceptable when it is not empty. */
  function ValidateRequired(value: string): (valid: bool)
    ensures valid <==> |value| > 0
    ensures !valid <==> value == []
  {
    |value| != 0
  }

  /** The message stored for a cell that failed the required check. */
  function RequiredMessage(header: string): (message: string)
  {
    header + " is required"
  }

  /** The error map after a cell loses focus with `value` in it: an empty value
      records the message under the cell id, a non-empty one removes the cell id.
      No other key is touched. */
  function WithCellValidated(errors: map<string, string>, cellId: string, header: string, value: string): (r: map<string, string>)
    ensures !ValidateRequired(value) ==> cellId in r && r[cellId] == RequiredMessage(header)
    ensures ValidateRequired(value) ==> cellId !in r
    ensures forall k :: k in errors && k != cellId ==> k in r && r[k] == errors[k]
    ensures forall k :: k in r && k != cellId ==> k in errors
  {
    if !ValidateRequired(value) then errors[cellId := RequiredMessage(header)]
    else errors - {cellId}
  }

  /** Repeating the same blur changes nothing further. */
  lemma CellValidationIdempotent(errors: map<string, string>, cellId: string, header: string, value: string)
    ensures WithCellValidated(WithCellValidated(errors, cellId, header, value), cellId, header, value)
         == WithCellValidated(errors, cellId, header, value)
  {
  }

  /** A blurred empty cell always leaves an error behind, so a row save is blocked. */
  lemma EmptyCellBlocksSave(errors: map<string, string>, cellId: string, header: string)
    ensures WithCellValidated(errors, cellId, header, "") != map[]
  {
  }

  /** Fixing the only invalid cell clears the map, so a save goes through again. */
  lemma FixingLastErrorUnblocksSave(errors: map<string, string>, cellId: string, header: string, value: string)
    requires errors.Keys <= {cellId}
    requires |value| > 0
    ensures WithCellValidated(errors, cellId, header, value) == map[]
  {
  }

  /** Creating a row appends the submitted values; earlier rows are untouched and
      there is no imdbID uniqueness check. */
  function WithRowAppended(rows: seq<Movie>, values: Movie): (r: seq<Movie>)
    ensures |r| == |rows| + 1
    ensures r[|rows|] == values
    ensures forall i :: 0 <= i < |rows| ==> r[i] == rows[i]
  {
    rows + [values]
  }

  /** Appending can break row identity: nothing stops an imdbID from repeating. */
  lemma AppendMayDuplicateId(m: Movie)
    ensures UniqueIds([m]) && !UniqueIds(WithRowAppended([m], m))
  {
  }

  /** Saving an edit overwrites exactly one row; length and all other rows stay. */
  function WithRowReplaced(rows: seq<Movie>, index: nat, values: Movie): (r: seq<Movie>)
    requires index < |rows|
    ensures |r| == |rows|
    ensures r[index] == values
    ensures forall i :: 0 <= i < |rows| && i != index ==> r[i] == rows[i]
  {
    rows[index := values]
  }

  /** `splice(index, 1)`: removes the element at `index` and closes the gap,
      keeping the order of the others; an index past the end removes nothing. */
  function WithRowRemoved(rows: seq<Movie>, index: nat): (r: seq<Movie>)
    ensures index < |rows| ==> |r| == |rows| - 1
    ensures index < |rows| ==> forall i :: 0 <= i < index ==> r[i] == rows[i]
    ensures index < |rows| ==> forall i :: index <= i < |r| ==> r[i] == rows[i + 1]
    ensures index >= |rows| ==> r == rows
  {
    if index < |rows| then rows[..index] + rows[index + 1..] else rows
  }

  /** A removal takes away exactly one occurrence of the targeted row. */
  lemma RemovedRowIsTarget(rows: seq<Movie>, index: nat)
    requires index < |rows|
    ensures multiset(WithRowRemoved(rows, index)) + multiset{rows[index]} == multiset(rows)
  {
    assert rows == rows[..index] + [rows[index]] + rows[index + 1..];
  }

  /** With identities unique, a removal takes the targeted imdbID out of the
      collection and keeps every other one. */
  lemma RemovalDropsTargetId(rows: seq<Movie>, index: nat)
    requires index < |rows|
    requires UniqueIds(rows)
    ensures forall m :: m in WithRowRemoved(rows, index) ==> m.imdbID != rows[index].imdbID
    ensures forall j :: 0 <= j < |rows| && j != index ==> rows[j] in WithRowRemoved(rows, index)
  {
  }

  /** Removing and then re-inserting the removed row at its place restores the collection. */
  lemma RemoveThenReinsert(rows: seq<Movie>, index: nat)
    requires index < |rows|
    ensures WithRowRemoved(rows, index)[..index] + [rows[index]] + WithRowRemoved(rows, index)[index..] == rows
  {
  }
}
