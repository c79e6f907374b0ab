// Tables of cells, the constraints of their schema, and inserting rows one by one.
module Tables {
  import opened Basics

  // --- cells ------------------------------------------------------------

  // Reals are held as their bits.
  datatype Cell = NullCell | IntegerCell(int) | RealCell(int) | NonFiniteCell | TextCell(string) | BlobCell

  datatype Json = JsonNull | JsonBool(bool) | JsonInteger(int) | JsonReal(int) | JsonText(string) | JsonNested

  type Row = map<string, Cell>
  type JsonRow = map<string, Json>
  type Store = map<string, seq<Row>>

  function CellToJson(cell: Cell): Result<Json> {
    match cell
    case NullCell => Ok(JsonNull)
    case IntegerCell(value) => Ok(JsonInteger(value))
    case RealCell(bits) => Ok(JsonReal(bits))
    case TextCell(text) => Ok(JsonText(text))
    case NonFiniteCell => Err(Migration)
    case BlobCell => Err(Migration)
  }

  function JsonToCell(json: Json): Result<Cell> {
    match json
    case JsonNull => Ok(NullCell)
    case JsonBool(value) => Ok(IntegerCell(if value then 1 else 0))
    case JsonInteger(value) => Ok(IntegerCell(value))
    case JsonReal(bits) => Ok(RealCell(bits))
    case JsonText(text) => Ok(TextCell(text))
    case JsonNested => Err(InvalidInput)
  }

  predicate Exportable(row: Row) { forall column | column in row :: CellToJson(row[column]).Ok? }

  predicate Insertable(row: JsonRow) { forall column | column in row :: JsonToCell(row[column]).Ok? }

  function RowToJson(row: Row): JsonRow
    requires Exportable(row)
  {
    map column | column in row :: CellToJson(row[column]).value
  }

  function JsonToRow(row: JsonRow): Row
    requires Insertable(row)
  {
    map column | column in row :: JsonToCell(row[column]).value
  }

  // Every exportable row comes back as it was.
  lemma CellsRoundTrip(row: Row)
    requires Exportable(row)
    ensures Insertable(RowToJson(row)) && JsonToRow(RowToJson(row)) == row
  {
    assert JsonToRow(RowToJson(row)) == row;
  }

  function ToRows(rows: seq<JsonRow>): seq<Row>
    requires forall i | 0 <= i < |rows| :: Insertable(rows[i])
  {
    seq(|rows|, i requires 0 <= i < |rows| => JsonToRow(rows[i]))
  }

  // --- constraints ------------------------------------------------------

  // Primary and unique keys, and foreign keys; rows with a null among the
  // constrained columns are exempt.
  datatype Constraint =
    | Unique(table: string, columns: seq<string>)
    | Reference(table: string, columns: seq<string>, target: string, targets: seq<string>)

  // `check` stands for the NOT NULL and CHECK clauses of a table.
  datatype Schema = Schema(constraints: seq<Constraint>, check: (string, Row) -> bool)

  function CellsAt(row: Row, columns: seq<string>): seq<Cell> {
    seq(|columns|, i requires 0 <= i < |columns| => if columns[i] in row then row[columns[i]] else NullCell)
  }

  predicate HasNull(cells: seq<Cell>) { NullCell in cells }

  predicate Found(rows: seq<Row>, columns: seq<string>, cells: seq<Cell>) {
    exists i | 0 <= i < |rows| :: CellsAt(rows[i], columns) == cells
  }

  // What a whole store must satisfy.
  predicate Satisfies(store: Store, constraint: Constraint) {
    constraint.table in store ==>
      var rows := store[constraint.table];
      match constraint
      case Unique(_, columns) =>
        forall i, j | 0 <= i < j < |rows| ::
          HasNull(CellsAt(rows[j], columns)) || CellsAt(rows[i], columns) != CellsAt(rows[j], columns)
      case Reference(_, columns, target, targets) =>
        forall i | 0 <= i < |rows| ::
          HasNull(CellsAt(rows[i], columns))
          || (target in store && Found(store[target], targets, CellsAt(rows[i], columns)))
  }

  // What is asked of one row when it is inserted.
  predicate Admits(store: Store, constraint: Constraint, row: Row)
    requires constraint.table in store
  {
    || HasNull(CellsAt(row, constraint.columns))
    || match constraint
       case Unique(table, columns) => !Found(store[table], columns, CellsAt(row, columns))
       case Reference(_, columns, target, targets) =>
         target in store && Found(store[target], targets, CellsAt(row, columns))
  }

  predicate AdmitsAll(schema: Schema, store: Store, name: string, row: Row)
    requires name in store
  {
    forall constraint | constraint in schema.constraints && constraint.table == name :: Admits(store, constraint, row)
  }

  predicate Checked(schema: Schema, name: string, rows: seq<Row>) {
    forall i | 0 <= i < |rows| :: schema.check(name, rows[i])
  }

  predicate Constrained(schema: Schema, store: Store, name: string) {
    forall constraint | constraint in schema.constraints && constraint.table == name :: Satisfies(store, constraint)
  }

  predicate TableValid(schema: Schema, store: Store, name: string)
    requires name in store
  {
    Checked(schema, name, store[name]) && Constrained(schema, store, name)
  }

  predicate NoSelfReference(schema: Schema, name: string) {
    forall constraint | constraint in schema.constraints && constraint.Reference? && constraint.table == name ::
      constraint.target != name
  }

  // --- inserting rows ---------------------------------------------------

  function InsertRow(schema: Schema, store: Store, name: string, json: JsonRow): (r: Result<Store>)
    requires name in store
    ensures r.Ok? ==> name in r.value
  {
    if !Insertable(json) then Err(InvalidInput)
    else
      var row := JsonToRow(json);
      if !schema.check(name, row) || !AdmitsAll(schema, store, name, row) then Err(ConstraintViolation)
      else Ok(store[name := store[name] + [row]])
  }

  // The first row that is refused decides.
  function InsertRows(schema: Schema, store: Store, name: string, pending: seq<JsonRow>): (r: Result<Store>)
    requires name in store
    ensures r.Ok? ==> r.value.Keys == store.Keys
  {
    if pending == [] then Ok(store)
    else
      var n := |pending| - 1;
      var before :- InsertRows(schema, store, name, pending[..n]);
      InsertRow(schema, before, name, pending[n])
  }

  predicate AllRows(pending: seq<JsonRow>) { forall i | 0 <= i < |pending| :: Insertable(pending[i]) }

  lemma UniqueStep(store: Store, name: string, constraint: Constraint, rows: seq<Row>, row: Row)
    requires name in store && constraint.Unique? && constraint.table == name
    ensures Satisfies(store[name := rows + [row]], constraint)
       <==> Satisfies(store[name := rows], constraint) && Admits(store[name := rows], constraint, row)
  {
    hide CellsAt, HasNull;
    var all := rows + [row];
    assert forall i | 0 <= i < |rows| :: all[i] == rows[i];
    assert all[|rows|] == row;
    if Satisfies(store[name := all], constraint) {
      forall i | 0 <= i < |rows|
        ensures HasNull(CellsAt(row, constraint.columns))
                || CellsAt(rows[i], constraint.columns) != CellsAt(row, constraint.columns)
      {
        assert HasNull(CellsAt(all[|rows|], constraint.columns))
            || CellsAt(all[i], constraint.columns) != CellsAt(all[|rows|], constraint.columns);
      }
    }
  }

  lemma ReferenceStep(store: Store, name: string, constraint: Constraint, rows: seq<Row>, row: Row)
    requires name in store && constraint.Reference? && constraint.table == name && constraint.target != name
    ensures Satisfies(store[name := rows + [row]], constraint)
       <==> Satisfies(store[name := rows], constraint) && Admits(store[name := rows], constraint, row)
  {
    hide CellsAt, HasNull, Found;
    var all := rows + [row];
    assert forall i | 0 <= i < |rows| :: all[i] == rows[i];
    assert all[|rows|] == row;
  }

  lemma ChecksStep(schema: Schema, name: string, rows: seq<Row>, row: Row)
    ensures Checked(schema, name, rows + [row]) <==> Checked(schema, name, rows) && schema.check(name, row)
  {
    var all := rows + [row];
    assert forall i | 0 <= i < |rows| :: all[i] == rows[i];
    assert all[|rows|] == row;
  }

  lemma ConstraintsStep(schema: Schema, store: Store, name: string, rows: seq<Row>, row: Row)
    requires name in store && NoSelfReference(schema, name)
    ensures Constrained(schema, store[name := rows + [row]], name)
       <==> Constrained(schema, store[name := rows], name) && AdmitsAll(schema, store[name := rows], name, row)
  {
    hide Satisfies, Admits;
    forall constraint | constraint in schema.constraints && constraint.table == name
      ensures Satisfies(store[name := rows + [row]], constraint)
         <==> Satisfies(store[name := rows], constraint) && Admits(store[name := rows], constraint, row)
    {
      if constraint.Unique? {
        UniqueStep(store, name, constraint, rows, row);
      } else {
        ReferenceStep(store, name, constraint, rows, row);
      }
    }
  }

  // One more row keeps a table valid exactly when it is admitted.
  lemma RowStep(schema: Schema, store: Store, name: string, rows: seq<Row>, row: Row)
    requires name in store && NoSelfReference(schema, name)
    ensures TableValid(schema, store[name := rows + [row]], name)
       <==> && TableValid(schema, store[name := rows], name)
            && schema.check(name, row) && AdmitsAll(schema, store[name := rows], name, row)
  {
    hide Checked, Constrained, AdmitsAll, NoSelfReference;
    ChecksStep(schema, name, rows, row);
    ConstraintsStep(schema, store, name, rows, row);
  }

  lemma EmptyIsValid(schema: Schema, store: Store, name: string)
    requires name in store && store[name] == []
    ensures TableValid(schema, store, name) && store[name := []] == store
  {
  }

  // Checking every row when it is inserted accepts exactly what checking the
  // filled table at the end would.
  lemma {:induction false} InsertRowsIff(schema: Schema, store: Store, name: string, pending: seq<JsonRow>)
    requires name in store && store[name] == [] && NoSelfReference(schema, name)
    ensures InsertRows(schema, store, name, pending).Ok?
       <==> AllRows(pending) && TableValid(schema, store[name := ToRows(pending)], name)
    ensures InsertRows(schema, store, name, pending).Ok? ==>
              InsertRows(schema, store, name, pending).value == store[name := ToRows(pending)]
  {
    hide Insertable, JsonToRow, TableValid, AdmitsAll, NoSelfReference;
    if pending == [] {
      EmptyIsValid(schema, store, name);
    } else {
      var n := |pending| - 1;
      InsertRowsIff(schema, store, name, pending[..n]);
      if AllRows(pending[..n]) && Insertable(pending[n]) {
        var rows, row := ToRows(pending[..n]), JsonToRow(pending[n]);
        assert ToRows(pending) == rows + [row];
        RowStep(schema, store, name, rows, row);
        assert store[name := rows][name := rows + [row]] == store[name := rows + [row]];
      }
    }
  }

  // Only the tables a table refers to matter for it.
  lemma SameTargetsSameValid(schema: Schema, a: Store, b: Store, name: string)
    requires name in a && name in b && a[name] == b[name]
    requires forall constraint | constraint in schema.constraints && constraint.Reference?
        && constraint.table == name ::
               constraint.target in a && constraint.target in b && a[constraint.target] == b[constraint.target]
    ensures TableValid(schema, a, name) == TableValid(schema, b, name)
  {
    hide CellsAt, HasNull, Found;
    forall constraint | constraint in schema.constraints && constraint.table == name
      ensures Satisfies(a, constraint) == Satisfies(b, constraint)
    {
    }
  }

  lemma {:induction false} InsertRowsFails(
    schema: Schema, store: Store, name: string, pending: seq<JsonRow>, k: nat)
    requires name in store && k <= |pending| && InsertRows(schema, store, name, pending[..k]).Err?
    ensures InsertRows(schema, store, name, pending) == InsertRows(schema, store, name, pending[..k])
    decreases |pending| - k
  {
    hide InsertRow;
    if k == |pending| {
      assert pending[..k] == pending;
    } else {
      assert pending[..k + 1][..k] == pending[..k];
      InsertRowsFails(schema, store, name, pending, k + 1);
    }
  }

  // Inserts the rows of one table, checking each.
  method InsertTable(schema: Schema, store: Store, name: string, pending: seq<JsonRow>) returns (r: Result<Store>)
    requires name in store
    ensures r == InsertRows(schema, store, name, pending)
  {
    hide InsertRow, InsertRows;
    var work := store;
    assert InsertRows(schema, store, name, pending[..0]) == Ok(store) by { NothingInserted(schema, store, name); }
    for k := 0 to |pending|
      invariant name in work && InsertRows(schema, store, name, pending[..k]) == Ok(work)
    {
      InsertRowsSnoc(schema, store, name, pending, k);
      var step := InsertRow(schema, work, name, pending[k]);
      if step.Err? {
        InsertRowsFails(schema, store, name, pending, k + 1);
        return step;
      }
      work := step.value;
    }
    assert pending[..|pending|] == pending;
    return Ok(work);
  }

  lemma NothingInserted(schema: Schema, store: Store, name: string)
    requires name in store
    ensures InsertRows(schema, store, name, []) == Ok(store)
  {
  }

  lemma InsertRowsSnoc(schema: Schema, store: Store, name: string, pending: seq<JsonRow>, k: nat)
    requires name in store && k < |pending| && InsertRows(schema, store, name, pending[..k]).Ok?
    ensures InsertRows(schema, store, name, pending[..k + 1])
         == InsertRow(schema, InsertRows(schema, store, name, pending[..k]).value, name, pending[k])
  {
    hide InsertRow;
    assert pending[..k + 1][..k] == pending[..k];
  }
}
