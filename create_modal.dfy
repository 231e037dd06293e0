/** The create dialog (src/components/CreateNewMovieModal.tsx): a form whose
    values map starts with one empty entry per column, changes one key per
    keystroke, and is handed over unvalidated on submit. */
module CreateModal {
  import opened MovieTypes
  import opened TableEdits
  import opened TableStateModel

  /** The form key of a column: its accessor key, or "" when it has none. */
  function KeyOf(c: Column): (key: string)
  {
    match c.accessorKey
    case Some(k) => k
    case None => ""
  }

  /** The keys the initialiser gives the form. */
  ghost function AccessorKeys(columns: seq<Column>): set<string>
  {
    set c | c in columns :: KeyOf(c)
  }

  lemma AccessorKeysSnoc(columns: seq<Column>, c: Column)
    ensures AccessorKeys(columns + [c]) == AccessorKeys(columns) + {KeyOf(c)}
  {
  }

  /** The lazy initialiser: folds over the columns, setting each key to "". */
  method InitialValues(columns: seq<Column>) returns (values: map<string, string>)
    ensures values.Keys == AccessorKeys(columns)
    ensures forall k :: k in values ==> values[k] == ""
  {
    values := map[];
    var i := 0;
    while i < |columns|
      invariant 0 <= i <= |columns|
      invariant values.Keys == AccessorKeys(columns[..i])
      invariant forall k :: k in values ==> values[k] == ""
    {
      assert columns[..i + 1] == columns[..i] + [columns[i]];
      AccessorKeysSnoc(columns[..i], columns[i]);
      values := values[KeyOf(columns[i]) := ""];
      i := i + 1;
    }
    assert columns[..i] == columns;
  }

  /** The five keys a submitted value map needs to be a movie record. */
  const MovieFields: set<string> := {"Title", "Year", "imdbID", "Type", "Poster"}

  /** The grid's columns give the form exactly the movie record's keys. */
  lemma ColumnKeysAreMovieFields()
    ensures AccessorKeys(Columns) == MovieFields
  {
    forall k | k in AccessorKeys(Columns) ensures k in MovieFields {
      var c :| c in Columns && KeyOf(c) == k;
      var i :| 0 <= i < |Columns| && Columns[i] == c;
    }
    forall k | k in MovieFields ensures k in AccessorKeys(Columns) {
      var i: nat := if k == "Title" then 0 else if k == "Year" then 1
                    else if k == "imdbID" then 2 else if k == "Type" then 3 else 4;
      assert KeyOf(Columns[i]) == k;
      assert Columns[i] in Columns;
    }
  }

  /** A field change: the named key gets the new value, every other key keeps its own. */
  function WithFieldChanged(values: map<string, string>, name: string, value: string): (r: map<string, string>)
    ensures r.Keys == values.Keys + {name}
    ensures r[name] == value
    ensures forall k :: k in values && k != name ==> r[k] == values[k]
  {
    values[name := value]
  }

  /** Changing a field twice keeps only the second value. */
  lemma FieldChangeOverwrites(values: map<string, string>, name: string, first: string, second: string)
    ensures WithFieldChanged(WithFieldChanged(values, name, first), name, second) == WithFieldChanged(values, name, second)
  {
  }

  /** Changes to different fields commute. */
  lemma FieldChangesCommute(values: map<string, string>, a: string, x: string, b: string, y: string)
    requires a != b
    ensures WithFieldChanged(WithFieldChanged(values, a, x), b, y) == WithFieldChanged(WithFieldChanged(values, b, y), a, x)
  {
  }

  predicate HasMovieFields(values: map<string, string>)
  {
    MovieFields <= values.Keys
  }

  /** The value map read as a movie record, which is how the creation callback
      receives it. */
  function MovieOf(values: map<string, string>): (m: Movie)
    requires HasMovieFields(values)
  {
    Movie(values["Title"], values["Year"], values["imdbID"], values["Type"], values["Poster"])
  }

  /** The record with the field that a form key names set to `value`; other keys change nothing. */
  function SetMovieField(m: Movie, name: string, value: string): (r: Movie)
  {
    if name == "Title" then m.(Title := value)
    else if name == "Year" then m.(Year := value)
    else if name == "imdbID" then m.(imdbID := value)
    else if name == "Type" then m.(Type := value)
    else if name == "Poster" then m.(Poster := value)
    else m
  }

  /** A field change keeps the map a movie record, and the record it reads as
      differs from the old one in that one field only. */
  lemma FieldChangeUpdatesRecord(values: map<string, string>, name: string, value: string)
    requires HasMovieFields(values)
    ensures HasMovieFields(WithFieldChanged(values, name, value))
    ensures MovieOf(WithFieldChanged(values, name, value)) == SetMovieField(MovieOf(values), name, value)
  {
  }

  /** The untouched form submits a record of five empty strings: nothing is validated. */
  lemma UntouchedFormSubmitsEmptyMovie(values: map<string, string>)
    requires values.Keys == AccessorKeys(Columns)
    requires forall k :: k in values ==> values[k] == ""
    ensures HasMovieFields(values)
    ensures MovieOf(values) == Movie("", "", "", "", "")
  {
    ColumnKeysAreMovieFields();
  }

  /** The dialog component; it stays mounted, so its values outlive a submit. */
  class CreateNewMovieModal {
    var values: map<string, string>

    /** The lazy state initialiser, run once. */
    constructor (columns: seq<Column>)
      ensures values.Keys == AccessorKeys(columns)
      ensures forall k :: k in values ==> values[k] == ""
    {
      var initial := InitialValues(columns);
      values := initial;
    }

    /** A text field's change handler. */
    method HandleChange(name: string, value: string)
      modifies this
      ensures values == WithFieldChanged(old(values), name, value)
    {
      values := values[name := value];
    }

    /** Submit: the current values go to the creation callback unvalidated, then
        the close callback runs. The values are not reset. */
    method HandleSubmit(table: TableState)
      requires HasMovieFields(values)
      modifies table
      ensures values == old(values)
      ensures table.FetchView() == old(table.FetchView()).(data := WithRowAppended(old(table.data), MovieOf(values)))
      ensures table.UiView() == old(table.UiView()).(createModalOpen := false)
    {
      table.CreateNewRow(MovieOf(values));
      table.CloseCreateModal();
    }

    /** Cancel: only the close callback runs. */
    method HandleCancel(table: TableState)
      modifies table
      ensures values == old(values)
      ensures table.FetchView() == old(table.FetchView())
      ensures table.UiView() == old(table.UiView()).(createModalOpen := false)
    {
      table.CloseCreateModal();
    }
  }

  /** Two creates in a row from one dialog: the second starts from what the
      first left in the form, so an unchanged form appends the same record again. */
  method CreateTwice(modal: CreateNewMovieModal, table: TableState)
    requires HasMovieFields(modal.values)
    modifies table
    ensures modal.values == old(modal.values)
    ensures table.data == old(table.data) + [MovieOf(modal.values), MovieOf(modal.values)]
    ensures !table.createModalOpen
  {
    table.OpenCreateModal();
    modal.HandleSubmit(table);
    table.OpenCreateModal();
    modal.HandleSubmit(table);
  }
}
