// Export of all canonical tables as one document, and restore into an empty store.
module Snapshot {
  import opened Basics
  import opened Tables

  const FORMAT_VERSION: nat := 2
  const LEGACY_SNAPSHOT_SCHEMA_VERSION: nat := 1
  const SNAPSHOT_SCHEMA_VERSION: nat := 2

  // --- tables and documents ---------------------------------------------

  datatype TableSpec = TableSpec(name: string, columns: set<string>)

  // The tables of the first snapshot version, and those the second one added.
  // `acceptable` stands for the relation and secret checks on a row, `encode`
  // for its JSON text and `backfill` for the provenance rebuilt after a
  // first-version restore.
  datatype Format = Format(
    original: seq<TableSpec>, added: seq<TableSpec>, schema: Schema,
    acceptable: (string, JsonRow) -> bool, encode: (string, JsonRow) -> string, backfill: Store -> Store)

  function TablesOf(format: Format, version: nat): seq<TableSpec> {
    if version >= SNAPSHOT_SCHEMA_VERSION then format.original + format.added else format.original
  }

  function CurrentTables(format: Format): seq<TableSpec> { TablesOf(format, SNAPSHOT_SCHEMA_VERSION) }

  function Names(tables: seq<TableSpec>): set<string> { set i | 0 <= i < |tables| :: tables[i].name }

  predicate DistinctNames(tables: seq<TableSpec>) {
    forall i, j | 0 <= i < j < |tables| :: tables[i].name != tables[j].name
  }

  // The open database has every table of the current schema.
  predicate HasTables(format: Format, store: Store) { Names(CurrentTables(format)) <= store.Keys }

  lemma NamesOfVersion(format: Format, version: nat)
    ensures Names(TablesOf(format, version)) <= Names(CurrentTables(format))
    ensures DistinctNames(CurrentTables(format)) ==> DistinctNames(TablesOf(format, version))
  {
    var tables := TablesOf(format, version);
    forall name | name in Names(tables) ensures name in Names(CurrentTables(format)) {
      var i :| 0 <= i < |tables| && tables[i].name == name;
      assert CurrentTables(format)[i].name == name;
    }
    assert forall i | 0 <= i < |tables| :: tables[i] == CurrentTables(format)[i];
  }

  lemma NamesSnoc(tables: seq<TableSpec>, table: TableSpec)
    ensures Names(tables + [table]) == Names(tables) + {table.name}
  {
    var all := tables + [table];
    assert all[|tables|] == table;
    assert forall i | 0 <= i < |tables| :: all[i] == tables[i];
  }

  function FindTable(tables: seq<TableSpec>, name: string): (r: Option<TableSpec>)
    ensures r.Some? ==> r.value in tables && r.value.name == name
    ensures r.None? <==> name !in Names(tables)
  {
    if tables == [] then None
    else if tables[0].name == name then Some(tables[0])
    else
      var rest := FindTable(tables[1..], name);
      assert Names(tables) == {tables[0].name} + Names(tables[1..]) by {
        assert forall i | 1 <= i < |tables| :: tables[i] == tables[1..][i - 1];
      }
      rest
  }

  // The digest of the row lines is represented by the lines themselves.
  type Digest = seq<string>

  datatype Line =
    | Blank
    | Header(formatVersion: Option<nat>, schemaVersion: Option<nat>, fullSnapshot: bool)
    | RowLine(text: string, table: Option<string>, row: Option<JsonRow>)
    | Footer(counts: Option<map<string, nat>>, digest: Option<Digest>)
    | Unreadable

  datatype TableRow = TableRow(text: string, table: string, row: JsonRow)

  predicate Supported(version: nat) { LEGACY_SNAPSHOT_SCHEMA_VERSION <= version <= SNAPSHOT_SCHEMA_VERSION }

  function Opening(version: nat): Line { Header(Some(FORMAT_VERSION), Some(version), true) }

  function AsLine(row: TableRow): Line { RowLine(row.text, Some(row.table), Some(row.row)) }

  function AsLines(rows: seq<TableRow>): seq<Line> {
    seq(|rows|, i requires 0 <= i < |rows| => AsLine(rows[i]))
  }

  function Texts(rows: seq<TableRow>): Digest {
    seq(|rows|, i requires 0 <= i < |rows| => rows[i].text)
  }

  function RowsFor(rows: seq<TableRow>, table: string): seq<JsonRow> {
    if rows == [] then []
    else
      var last := rows[|rows| - 1];
      RowsFor(rows[..|rows| - 1], table) + if last.table == table then [last.row] else []
  }

  function CountsOf(tables: seq<TableSpec>, rows: seq<TableRow>): map<string, nat> {
    map name | name in Names(tables) :: |RowsFor(rows, name)|
  }

  function Closing(format: Format, version: nat, rows: seq<TableRow>): Line {
    Footer(Some(CountsOf(TablesOf(format, version), rows)), Some(Texts(rows)))
  }

  // One header, the rows, and one footer that vouches for them.
  function Document(format: Format, version: nat, rows: seq<TableRow>): seq<Line> {
    [Opening(version)] + AsLines(rows) + [Closing(format, version, rows)]
  }

  predicate Admissible(format: Format, version: nat, row: TableRow) {
    var table := FindTable(TablesOf(format, version), row.table);
    table.Some? && row.row.Keys == table.value.columns && format.acceptable(row.table, row.row)
  }

  predicate AllAdmissible(format: Format, version: nat, rows: seq<TableRow>) {
    forall i | 0 <= i < |rows| :: Admissible(format, version, rows[i])
  }

  // --- reading a document -----------------------------------------------

  datatype Scan = Scan(version: Option<nat>, rows: seq<TableRow>, counts: Option<map<string, nat>>,
      digest: Option<Digest>)

  const START: Scan := Scan(None, [], None, None)

  predicate Ended(scan: Scan) { scan.counts.Some? }

  predicate GoodHeader(line: Line) {
    && line.Header? && line.formatVersion == Some(FORMAT_VERSION) && line.fullSnapshot
    && line.schemaVersion.Some? && Supported(line.schemaVersion.value)
  }

  predicate GoodRow(format: Format, version: nat, line: Line) {
    && line.RowLine? && line.table.Some? && line.row.Some?
    && Admissible(format, version, TableRow(line.text, line.table.value, line.row.value))
  }

  function ScanLine(format: Format, scan: Scan, line: Line): Result<Scan> {
    match line
    case Blank => Ok(scan)
    case Header(_, schemaVersion, _) =>
      if scan.version.Some? || Ended(scan) || scan.rows != [] || !GoodHeader(line) then Err(InvalidInput)
      else Ok(scan.(version := schemaVersion))
    case RowLine(text, table, row) =>
      if scan.version.None? || Ended(scan) || !GoodRow(format, scan.version.value, line) then Err(InvalidInput)
      else Ok(scan.(rows := scan.rows + [TableRow(text, table.value, row.value)]))
    case Footer(counts, digest) =>
      if scan.version.None? || Ended(scan) || counts.None? || digest.None? then Err(InvalidInput)
      else Ok(scan.(counts := counts, digest := digest))
    case Unreadable => Err(InvalidInput)
  }

  function ScanAll(format: Format, document: seq<Line>): (r: Result<Scan>)
    ensures r.Err? ==> r.error == InvalidInput
  {
    if document == [] then Ok(START)
    else
      var front :- ScanAll(format, document[..|document| - 1]);
      ScanLine(format, front, document[|document| - 1])
  }

  predicate Complete(format: Format, scan: Scan) {
    && scan.version.Some? && Ended(scan)
    && scan.counts.value == CountsOf(TablesOf(format, scan.version.value), scan.rows)
    && scan.digest == Some(Texts(scan.rows))
  }

  // --- restoring --------------------------------------------------------

  predicate EmptyTarget(store: Store, tables: seq<TableSpec>)
    requires Names(tables) <= store.Keys
  {
    forall name | name in Names(tables) :: store[name] == []
  }

  predicate AllInsertable(rows: seq<TableRow>) { forall i | 0 <= i < |rows| :: Insertable(rows[i].row) }

  lemma {:induction false} RowsForInsertable(rows: seq<TableRow>, table: string)
    requires AllInsertable(rows)
    ensures forall i | 0 <= i < |RowsFor(rows, table)| :: Insertable(RowsFor(rows, table)[i])
  {
    if rows != [] { RowsForInsertable(rows[..|rows| - 1], table); }
  }

  // The rows of these tables hold nothing but scalars.
  predicate RowsInsertable(tables: seq<TableSpec>, rows: seq<TableRow>) {
    forall name | name in Names(tables) :: AllRows(RowsFor(rows, name))
  }

  function Restored(store: Store, tables: seq<TableSpec>, rows: seq<TableRow>): Store
    requires RowsInsertable(tables, rows)
  {
    map name | name in store :: if name in Names(tables) then ToRows(RowsFor(rows, name)) else store[name]
  }

  // Table after table, row after row; the first refused row decides.
  function InsertAll(schema: Schema, store: Store, tables: seq<TableSpec>, rows: seq<TableRow>): (r: Result<Store>)
    requires Names(tables) <= store.Keys
    ensures r.Ok? ==> r.value.Keys == store.Keys
  {
    if tables == [] then Ok(store)
    else
      var front, last := tables[..|tables| - 1], tables[|tables| - 1];
      NamesSnoc(front, last);
      assert front + [last] == tables;
      var before :- InsertAll(schema, store, front, rows);
      InsertRows(schema, before, last.name, RowsFor(rows, last.name))
  }

  // What the transaction does with a document that was read completely.
  function Restore(format: Format, store: Store, version: nat, rows: seq<TableRow>): Result<Store>
    requires HasTables(format, store)
  {
    NamesOfVersion(format, version);
    var tables := TablesOf(format, version);
    if !EmptyTarget(store, tables) then Err(Conflict)
    else
      var restored :- InsertAll(format.schema, store, tables, rows);
      if version == LEGACY_SNAPSHOT_SCHEMA_VERSION then Ok(format.backfill(restored)) else Ok(restored)
  }

  function Import(format: Format, store: Store, document: seq<Line>): Result<Store>
    requires HasTables(format, store)
  {
    var scan :- ScanAll(format, document);
    if !Complete(format, scan) then Err(InvalidInput) else Restore(format, store, scan.version.value, scan.rows)
  }

  // --- accepted rows ----------------------------------------------------

  // Tables are filled after the tables they refer to.
  predicate Ordered(schema: Schema, tables: seq<TableSpec>) {
    forall i, constraint | 0 <= i < |tables| && constraint in schema.constraints && constraint.Reference?
                           && constraint.table == tables[i].name ::
      constraint.target in Names(tables[..i])
  }

  predicate StoreValid(schema: Schema, store: Store, tables: seq<TableSpec>)
    requires Names(tables) <= store.Keys
  {
    forall name | name in Names(tables) :: TableValid(schema, store, name)
  }

  lemma LastIsNew(front: seq<TableSpec>, last: TableSpec)
    requires DistinctNames(front + [last])
    ensures last.name !in Names(front) && DistinctNames(front)
  {
    var all := front + [last];
    assert all[|front|] == last;
    assert forall i | 0 <= i < |front| :: all[i] == front[i];
  }

  lemma OrderedFront(schema: Schema, front: seq<TableSpec>, last: TableSpec)
    requires Ordered(schema, front + [last]) && DistinctNames(front + [last])
    ensures Ordered(schema, front) && NoSelfReference(schema, last.name)
    ensures forall constraint | constraint in schema.constraints && constraint.Reference?
                                && constraint.table in Names(front + [last]) ::
              constraint.target in Names(front)
  {
    var all := front + [last];
    LastIsNew(front, last);
    assert all[|front|] == last && all[..|front|] == front;
    assert forall i | 0 <= i < |front| :: all[i] == front[i] && all[..i] == front[..i];
    forall constraint | constraint in schema.constraints && constraint.Reference? && constraint.table in Names(all)
      ensures constraint.target in Names(front)
    {
      var i :| 0 <= i < |all| && all[i].name == constraint.table;
      assert constraint.target in Names(all[..i]);
      var j :| 0 <= j < i && all[..i][j].name == constraint.target;
      assert front[j] == all[j];
    }
  }

  // One more table of rows next to the tables before it.
  lemma RestoredSnoc(store: Store, front: seq<TableSpec>, last: TableSpec, rows: seq<TableRow>)
    requires RowsInsertable(front, rows) && last.name !in Names(front) && last.name in store
    ensures RowsInsertable(front + [last], rows) == AllRows(RowsFor(rows, last.name))
    ensures AllRows(RowsFor(rows, last.name)) ==>
              Restored(store, front + [last], rows)
              == Restored(store, front, rows)[last.name := ToRows(RowsFor(rows, last.name))]
  {
    hide Insertable, AllRows, RowsFor, Names;
    NamesSnoc(front, last);
  }

  lemma ValidSnoc(schema: Schema, before: Store, after: Store, front: seq<TableSpec>, last: TableSpec)
    requires Names(front) <= before.Keys && last.name !in Names(front) && last.name in before
    requires after.Keys == before.Keys && forall name | name in before && name != last.name ::
        after[name] == before[name]
    requires Ordered(schema, front + [last]) && DistinctNames(front + [last])
    ensures Names(front + [last]) <= after.Keys
    ensures StoreValid(schema, after, front + [last])
       <==> StoreValid(schema, before, front) && TableValid(schema, after, last.name)
  {
    hide TableValid, Names, Ordered, DistinctNames;
    NamesSnoc(front, last);
    OrderedFront(schema, front, last);
    forall name | name in Names(front) ensures TableValid(schema, after, name) == TableValid(schema, before, name) {
      SameTargetsSameValid(schema, after, before, name);
    }
  }

  lemma {:induction false} InsertAllIff(schema: Schema, store: Store, tables: seq<TableSpec>, rows: seq<TableRow>)
    requires Names(tables) <= store.Keys && DistinctNames(tables) && EmptyTarget(store, tables)
    requires Ordered(schema, tables)
    ensures InsertAll(schema, store, tables, rows).Ok?
       <==> RowsInsertable(tables, rows) && StoreValid(schema, Restored(store, tables, rows), tables)
    ensures InsertAll(schema, store, tables, rows).Ok? ==>
              InsertAll(schema, store, tables, rows).value == Restored(store, tables, rows)
  {
    hide InsertRows, TableValid, Ordered, Insertable, RowsFor, Names, DistinctNames, RowsInsertable;
    if tables == [] {
      NothingRestored(schema, store, rows);
    } else {
      var front, last := tables[..|tables| - 1], tables[|tables| - 1];
      assert front + [last] == tables;
      NamesSnoc(front, last);
      LastIsNew(front, last);
      OrderedFront(schema, front, last);
      InsertAllIff(schema, store, front, rows);
      FrontInsertable(front, last, rows);
      if RowsInsertable(front, rows) {
        var before, pending := Restored(store, front, rows), RowsFor(rows, last.name);
        InsertRowsIff(schema, before, last.name, pending);
        RestoredSnoc(store, front, last, rows);
        if AllRows(pending) {
          ValidSnoc(schema, before, before[last.name := ToRows(pending)], front, last);
        }
      }
    }
  }

  lemma NothingRestored(schema: Schema, store: Store, rows: seq<TableRow>)
    ensures RowsInsertable([], rows) && Restored(store, [], rows) == store
    ensures Names([]) == {} && StoreValid(schema, store, [])
  {
  }

  lemma FrontInsertable(front: seq<TableSpec>, last: TableSpec, rows: seq<TableRow>)
    ensures RowsInsertable(front + [last], rows) ==> RowsInsertable(front, rows)
  {
    hide Names, AllRows, RowsFor;
    NamesSnoc(front, last);
  }

  // Although every row is checked when it is inserted, an empty store is filled
  // exactly when the rows are scalar and the filled tables satisfy the schema.
  lemma RestoreIff(format: Format, store: Store, version: nat, rows: seq<TableRow>)
    requires HasTables(format, store) && DistinctNames(CurrentTables(format))
    requires Ordered(format.schema, CurrentTables(format))
    ensures Names(TablesOf(format, version)) <= store.Keys
    ensures var tables := TablesOf(format, version);
            && (Restore(format, store, version, rows).Ok?
                <==> && EmptyTarget(store, tables) && RowsInsertable(tables, rows)
                     && StoreValid(format.schema, Restored(store, tables, rows), tables))
            && (Restore(format, store, version, rows).Ok? && version != LEGACY_SNAPSHOT_SCHEMA_VERSION ==>
                  Restore(format, store, version, rows).value == Restored(store, tables, rows))
  {
    hide InsertAll, StoreValid, Names, Ordered, DistinctNames, RowsInsertable;
    NamesOfVersion(format, version);
    OrderedVersion(format, version);
    if EmptyTarget(store, TablesOf(format, version)) {
      InsertAllIff(format.schema, store, TablesOf(format, version), rows);
    }
  }

  lemma OrderedVersion(format: Format, version: nat)
    requires Ordered(format.schema, CurrentTables(format))
    ensures Ordered(format.schema, TablesOf(format, version))
  {
    var tables := TablesOf(format, version);
    assert forall i | 0 <= i < |tables| :: tables[i] == CurrentTables(format)[i];
    assert forall i | 0 <= i < |tables| :: tables[..i] == CurrentTables(format)[..i];
  }

  // --- accepted documents -----------------------------------------------

  function NonBlank(document: seq<Line>): seq<Line> {
    if document == [] then []
    else
      var last := document[|document| - 1];
      NonBlank(document[..|document| - 1]) + if last.Blank? then [] else [last]
  }

  lemma AsLinesSnoc(rows: seq<TableRow>, row: TableRow)
    ensures AsLines(rows + [row]) == AsLines(rows) + [AsLine(row)]
  {
  }

  function FooterRead(scan: Scan): seq<Line> {
    if Ended(scan) then [Footer(scan.counts, scan.digest)] else []
  }

  // What the lines read so far were.
  ghost predicate Read(format: Format, lines: seq<Line>, scan: Scan) {
    && (Ended(scan) <==> scan.digest.Some?)
    && (scan.version.None? ==> lines == [] && scan == START)
    && (scan.version.Some? ==>
          && Supported(scan.version.value)
          && AllAdmissible(format, scan.version.value, scan.rows)
          && lines == [Opening(scan.version.value)] + AsLines(scan.rows) + FooterRead(scan))
  }

  lemma ReadLine(format: Format, lines: seq<Line>, scan: Scan, line: Line)
    requires Read(format, lines, scan) && ScanLine(format, scan, line).Ok? && !line.Blank?
    ensures Read(format, lines + [line], ScanLine(format, scan, line).value)
  {
    hide Admissible, AsLines;
    var after := ScanLine(format, scan, line).value;
    if line.RowLine? {
      AsLinesSnoc(scan.rows, TableRow(line.text, line.table.value, line.row.value));
      assert lines + [line] == [Opening(scan.version.value)] + AsLines(after.rows);
    } else if line.Header? {
      assert AsLines([]) == [] by { NoLines(); }
    }
  }

  lemma NoLines()
    ensures AsLines([]) == [] && Texts([]) == []
  {
  }

  lemma {:induction false} ScannedIsRead(format: Format, document: seq<Line>)
    requires ScanAll(format, document).Ok?
    ensures Read(format, NonBlank(document), ScanAll(format, document).value)
  {
    hide Read, ScanLine;
    if document == [] {
      assert Read(format, [], START) by { NothingRead(format); }
    } else {
      var front, last := document[..|document| - 1], document[|document| - 1];
      ScannedIsRead(format, front);
      if last.Blank? {
        assert NonBlank(document) == NonBlank(front);
        BlankChangesNothing(format, ScanAll(format, front).value);
      } else {
        ReadLine(format, NonBlank(front), ScanAll(format, front).value, last);
      }
    }
  }

  lemma NothingRead(format: Format)
    ensures Read(format, [], START)
  {
  }

  lemma BlankChangesNothing(format: Format, scan: Scan)
    ensures ScanLine(format, scan, Blank) == Ok(scan)
  {
  }

  lemma {:induction false} BlankScans(format: Format, document: seq<Line>)
    requires NonBlank(document) == []
    ensures ScanAll(format, document) == Ok(START)
  {
    if document != [] { BlankScans(format, document[..|document| - 1]); }
  }

  lemma {:induction false} RowsScan(format: Format, version: nat, rows: seq<TableRow>, document: seq<Line>)
    requires Supported(version) && AllAdmissible(format, version, rows)
    requires NonBlank(document) == [Opening(version)] + AsLines(rows)
    ensures ScanAll(format, document) == Ok(Scan(Some(version), rows, None, None))
  {
    hide Admissible, AsLines;
    assert document != [];
    var front, last := document[..|document| - 1], document[|document| - 1];
    if last.Blank? {
      assert NonBlank(document) == NonBlank(front);
      RowsScan(format, version, rows, front);
    } else if rows == [] {
      NoLines();
      assert NonBlank(document)[0] == last;
      assert NonBlank(front) == NonBlank(document)[..0];
      BlankScans(format, front);
    } else {
      var n := |rows| - 1;
      assert rows == rows[..n] + [rows[n]];
      AsLinesSnoc(rows[..n], rows[n]);
      var before := [Opening(version)] + AsLines(rows[..n]);
      assert NonBlank(document) == before + [AsLine(rows[n])];
      SnocAgrees(NonBlank(front), last, before, AsLine(rows[n]));
      RowsScan(format, version, rows[..n], front);
    }
  }

  lemma SnocAgrees(a: seq<Line>, x: Line, b: seq<Line>, y: Line)
    requires a + [x] == b + [y]
    ensures a == b && x == y
  {
    assert (a + [x])[|a|] == (b + [y])[|b|];
    assert a == (a + [x])[..|a|] && b == (b + [y])[..|b|];
  }

  lemma {:induction false} DocumentScans(format: Format, version: nat, rows: seq<TableRow>, document: seq<Line>)
    requires Supported(version) && AllAdmissible(format, version, rows)
    requires NonBlank(document) == Document(format, version, rows)
    ensures ScanAll(format, document)
            == Ok(Scan(Some(version), rows, Some(CountsOf(TablesOf(format, version), rows)), Some(Texts(rows))))
  {
    hide Admissible, AsLines, CountsOf, Texts;
    assert document != [];
    var front, last := document[..|document| - 1], document[|document| - 1];
    if last.Blank? {
      assert NonBlank(document) == NonBlank(front);
      DocumentScans(format, version, rows, front);
    } else {
      SnocAgrees(NonBlank(front), last, [Opening(version)] + AsLines(rows), Closing(format, version, rows));
      RowsScan(format, version, rows, front);
    }
  }

  // A well-formed document, with blank lines anywhere, is restored as its rows say.
  lemma ImportsDocument(format: Format, store: Store, version: nat, rows: seq<TableRow>, document: seq<Line>)
    requires HasTables(format, store)
    requires Supported(version) && AllAdmissible(format, version, rows)
    requires NonBlank(document) == Document(format, version, rows)
    ensures Import(format, store, document) == Restore(format, store, version, rows)
  {
    hide Restore, CountsOf, Texts;
    DocumentScans(format, version, rows, document);
  }

  ghost predicate Describes(format: Format, version: nat, rows: seq<TableRow>, document: seq<Line>) {
    && Supported(version) && AllAdmissible(format, version, rows)
    && NonBlank(document) == Document(format, version, rows)
  }

  // Nothing else is accepted.
  lemma AcceptedDocuments(format: Format, store: Store, document: seq<Line>)
    requires HasTables(format, store)
    ensures Import(format, store, document).Ok?
            == (exists version, rows ::
                  Describes(format, version, rows, document) && Restore(format, store, version, rows).Ok?)
  {
    if Import(format, store, document).Ok? {
      AcceptedIsDescribed(format, store, document);
    } else {
      forall version, rows | Describes(format, version, rows, document)
        ensures !Restore(format, store, version, rows).Ok?
      {
        ImportsDocument(format, store, version, rows, document);
      }
    }
  }

  lemma AcceptedIsDescribed(format: Format, store: Store, document: seq<Line>)
    requires HasTables(format, store) && Import(format, store, document).Ok?
    ensures exists version, rows ::
              Describes(format, version, rows, document) && Restore(format, store, version, rows).Ok?
  {
    hide Restore, CountsOf, Texts, AsLines, Admissible, TablesOf;
    var scan := ScanAll(format, document).value;
    ScannedIsRead(format, document);
    assert Describes(format, scan.version.value, scan.rows, document);
  }

  // --- exporting --------------------------------------------------------

  function ExportTable(format: Format, name: string, rows: seq<Row>): (r: Result<seq<TableRow>>)
    ensures r.Err? ==> r.error == Migration
  {
    if rows == [] then Ok([])
    else
      var n := |rows| - 1;
      var front :- ExportTable(format, name, rows[..n]);
      if !Exportable(rows[n]) then Err(Migration)
      else
        var row := RowToJson(rows[n]);
        Ok(front + [TableRow(format.encode(name, row), name, row)])
  }

  function ExportTables(format: Format, store: Store, tables: seq<TableSpec>): (r: Result<seq<TableRow>>)
    requires Names(tables) <= store.Keys
    ensures r.Err? ==> r.error == Migration
  {
    if tables == [] then Ok([])
    else
      var n := |tables| - 1;
      NamesSnoc(tables[..n], tables[n]);
      assert tables == tables[..n] + [tables[n]];
      var front :- ExportTables(format, store, tables[..n]);
      var last :- ExportTable(format, tables[n].name, store[tables[n].name]);
      Ok(front + last)
  }

  function Export(format: Format, store: Store): Result<seq<Line>>
    requires HasTables(format, store)
  {
    var rows :- ExportTables(format, store, CurrentTables(format));
    Ok(Document(format, SNAPSHOT_SCHEMA_VERSION, rows))
  }

  // --- round trip -------------------------------------------------------

  predicate AllExportable(rows: seq<Row>) { forall i | 0 <= i < |rows| :: Exportable(rows[i]) }

  function JsonRows(rows: seq<Row>): seq<JsonRow>
    requires AllExportable(rows)
  {
    seq(|rows|, i requires 0 <= i < |rows| => RowToJson(rows[i]))
  }

  lemma {:induction false} RowsForSplits(a: seq<TableRow>, b: seq<TableRow>, table: string)
    ensures RowsFor(a + b, table) == RowsFor(a, table) + RowsFor(b, table)
  {
    if b == [] {
      assert a + b == a;
    } else {
      var n := |b| - 1;
      assert (a + b)[..|a| + n] == a + b[..n];
      RowsForSplits(a, b[..n], table);
    }
  }

  lemma {:induction false} RowOfTable(rows: seq<TableRow>, table: string, k: nat) returns (i: nat)
    requires k < |RowsFor(rows, table)|
    ensures i < |rows| && rows[i].table == table && rows[i].row == RowsFor(rows, table)[k]
  {
    var n := |rows| - 1;
    if k < |RowsFor(rows[..n], table)| {
      i := RowOfTable(rows[..n], table, k);
    } else {
      i := n;
    }
  }

  lemma {:induction false} RowInTable(rows: seq<TableRow>, i: nat) returns (k: nat)
    requires i < |rows|
    ensures k < |RowsFor(rows, rows[i].table)| && RowsFor(rows, rows[i].table)[k] == rows[i].row
  {
    var n := |rows| - 1;
    if i == n {
      k := |RowsFor(rows[..n], rows[n].table)|;
    } else {
      k := RowInTable(rows[..n], i);
    }
  }

  lemma {:induction false} ExportedTable(format: Format, name: string, rows: seq<Row>)
    ensures ExportTable(format, name, rows).Ok? == AllExportable(rows)
    ensures AllExportable(rows) ==> RowsFor(ExportTable(format, name, rows).value, name) == JsonRows(rows)
    ensures AllExportable(rows) ==>
              forall other | other != name :: RowsFor(ExportTable(format, name, rows).value, other) == []
  {
    if rows != [] {
      var n := |rows| - 1;
      var front := rows[..n];
      ExportedTable(format, name, front);
      assert rows == front + [rows[n]];
      if AllExportable(front) && Exportable(rows[n]) {
        var before := ExportTable(format, name, front).value;
        var after := ExportTable(format, name, rows).value;
        assert after[..|after| - 1] == before;
        assert JsonRows(rows) == JsonRows(front) + [RowToJson(rows[n])];
      }
    }
  }

  predicate StoreExportable(store: Store, tables: seq<TableSpec>)
    requires Names(tables) <= store.Keys
  {
    forall name | name in Names(tables) :: AllExportable(store[name])
  }

  ghost predicate Exported(store: Store, tables: seq<TableSpec>, rows: seq<TableRow>)
    requires Names(tables) <= store.Keys && StoreExportable(store, tables)
  {
    && (forall name | name in Names(tables) :: RowsFor(rows, name) == JsonRows(store[name]))
    && (forall name | name !in Names(tables) :: RowsFor(rows, name) == [])
  }

  lemma {:induction false} ExportedTables(format: Format, store: Store, tables: seq<TableSpec>)
    requires Names(tables) <= store.Keys && DistinctNames(tables)
    ensures ExportTables(format, store, tables).Ok? == StoreExportable(store, tables)
    ensures StoreExportable(store, tables) ==> Exported(store, tables, ExportTables(format, store, tables).value)
  {
    hide ExportTable, AllExportable, Exported, StoreExportable;
    if tables == [] {
      assert StoreExportable(store, []) && Exported(store, [], []) by { NothingExported(store); }
    } else {
      var n := |tables| - 1;
      var front, last := tables[..n], tables[n].name;
      assert tables == front + [tables[n]];
      NamesSnoc(front, tables[n]);
      ExportedTables(format, store, front);
      ExportedTable(format, last, store[last]);
      ExportableSnoc(store, front, tables[n]);
      if StoreExportable(store, tables) {
        ExportedSnoc(
          format, store, front, tables[n], ExportTables(format, store, front).value,
          ExportTable(format, last, store[last]).value);
      }
    }
  }

  lemma NothingExported(store: Store)
    ensures StoreExportable(store, []) && Exported(store, [], [])
  {
  }

  lemma ExportableSnoc(store: Store, tables: seq<TableSpec>, table: TableSpec)
    requires Names(tables + [table]) <= store.Keys && Names(tables) <= store.Keys && table.name in store
    ensures StoreExportable(store, tables + [table])
        == (StoreExportable(store, tables) && AllExportable(store[table.name]))
  {
    hide AllExportable;
    NamesSnoc(tables, table);
  }

  lemma NewName(tables: seq<TableSpec>, table: TableSpec)
    requires DistinctNames(tables + [table])
    ensures table.name !in Names(tables)
  {
    var all := tables + [table];
    assert forall i | 0 <= i < |tables| :: tables[i] == all[i] && all[|tables|] == table;
  }

  lemma ExportedSnoc(
      format: Format, store: Store, tables: seq<TableSpec>, table: TableSpec,
      before: seq<TableRow>, rows: seq<TableRow>)
    requires Names(tables + [table]) <= store.Keys && DistinctNames(tables + [table])
    requires Names(tables) <= store.Keys && table.name in store
    requires StoreExportable(store, tables) && StoreExportable(store, tables + [table])
    requires Exported(store, tables, before)
    requires AllExportable(store[table.name]) && RowsFor(rows, table.name) == JsonRows(store[table.name])
    requires forall other | other != table.name :: RowsFor(rows, other) == []
    ensures Exported(store, tables + [table], before + rows)
  {
    hide AllExportable, JsonRows, Names, DistinctNames, RowsFor, StoreExportable;
    NamesSnoc(tables, table);
    assert table.name !in Names(tables) by { NewName(tables, table); }
    forall name ensures RowsFor(before + rows, name) == RowsFor(before, name) + RowsFor(rows, name) {
      RowsForSplits(before, rows, name);
    }
  }

  // Every stored row has its table's columns, and there are no other tables.
  predicate Conforms(format: Format, store: Store) {
    var tables := CurrentTables(format);
    && store.Keys == Names(tables)
    && forall t, i | 0 <= t < |tables| && 0 <= i < |store[tables[t].name]| ::
         store[tables[t].name][i].Keys == tables[t].columns
  }

  // What the import's relation and secret checks ask of the exported rows.
  predicate Clean(format: Format, store: Store)
    requires forall name | name in store :: AllExportable(store[name])
  {
    forall name, i | name in store && 0 <= i < |store[name]| ::
      (assert AllExportable(store[name]); format.acceptable(name, RowToJson(store[name][i])))
  }

  lemma CleanIsAdmissible(format: Format, store: Store, rows: seq<TableRow>)
    requires Conforms(format, store) && StoreExportable(store, CurrentTables(format))
    requires Exported(store, CurrentTables(format), rows)
    ensures AllAdmissible(format, SNAPSHOT_SCHEMA_VERSION, rows) == Clean(format, store)
    ensures RowsInsertable(CurrentTables(format), rows)
  {
    hide Exportable, Insertable;
    forall i | 0 <= i < |rows|
      ensures Insertable(rows[i].row)
      ensures Clean(format, store) ==> Admissible(format, SNAPSHOT_SCHEMA_VERSION, rows[i])
    {
      var name := rows[i].table;
      var k := RowInTable(rows, i);
      assert name in store;
      CellsRoundTrip(store[name][k]);
      assert store[name][k].Keys == RowToJson(store[name][k]).Keys;
      var table := FindTable(CurrentTables(format), name).value;
      var t :| 0 <= t < |CurrentTables(format)| && CurrentTables(format)[t] == table;
    }
    forall name ensures AllRows(RowsFor(rows, name)) { RowsForInsertable(rows, name); }
    if AllAdmissible(format, SNAPSHOT_SCHEMA_VERSION, rows) {
      forall name, k | name in store && 0 <= k < |store[name]|
        ensures format.acceptable(name, RowToJson(store[name][k]))
      {
        var i := RowOfTable(rows, name, k);
        assert Admissible(format, SNAPSHOT_SCHEMA_VERSION, rows[i]);
      }
    }
  }

  lemma RestoredIsStore(format: Format, store: Store, target: Store, rows: seq<TableRow>)
    requires Conforms(format, store) && StoreExportable(store, CurrentTables(format))
    requires Exported(store, CurrentTables(format), rows) && RowsInsertable(CurrentTables(format), rows)
    requires target.Keys == store.Keys
    ensures Restored(target, CurrentTables(format), rows) == store
  {
    hide Exportable, Insertable;
    forall name | name in store ensures Restored(target, CurrentTables(format), rows)[name] == store[name] {
      assert AllRows(RowsFor(rows, name));
      forall i | 0 <= i < |store[name]| ensures JsonToRow(JsonRows(store[name])[i]) == store[name][i] {
        CellsRoundTrip(store[name][i]);
      }
      assert ToRows(JsonRows(store[name])) == store[name];
    }
  }

  lemma {:induction false} NothingBlank(lines: seq<Line>)
    requires forall i | 0 <= i < |lines| :: !lines[i].Blank?
    ensures NonBlank(lines) == lines
  {
    if lines != [] { NothingBlank(lines[..|lines| - 1]); }
  }

  lemma DocumentInjective(format: Format, v: nat, a: seq<TableRow>, w: nat, b: seq<TableRow>)
    requires Document(format, v, a) == Document(format, w, b)
    ensures v == w && a == b
  {
    hide CountsOf, Texts, TablesOf;
    var left, right := Document(format, v, a), Document(format, w, b);
    assert left[0] == Opening(v) && right[0] == Opening(w);
    assert |a| == |b|;
    forall i | 0 <= i < |a| ensures a[i] == b[i] {
      assert left[i + 1] == AsLine(a[i]) && right[i + 1] == AsLine(b[i]);
    }
  }

  // Exporting fails only on a cell JSON cannot hold.  Importing an export into an
  // empty store gives back every table, exactly when its rows pass the import's
  // checks; the restored store exports the identical document.
  lemma RoundTrip(format: Format, store: Store, target: Store)
    requires DistinctNames(CurrentTables(format)) && Conforms(format, store)
    requires Ordered(format.schema, CurrentTables(format))
    requires target.Keys == store.Keys && EmptyTarget(target, CurrentTables(format))
    ensures Export(format, store).Ok? == (forall name | name in store :: AllExportable(store[name]))
    ensures Export(format, store).Ok? ==>
              (var copy := Import(format, target, Export(format, store).value);
               && (copy.Ok? == (Clean(format, store) && StoreValid(format.schema, store, CurrentTables(format))))
               && (copy.Ok? ==> copy.value == store && Export(format, copy.value) == Export(format, store)))
  {
    hide ExportTables, Exported, Import, Exportable, TablesOf, Conforms, Document;
    var tables := CurrentTables(format);
    assert store.Keys == Names(tables) by { ConformingKeys(format, store); }
    ExportedTables(format, store, tables);
    if Export(format, store).Ok? {
      var rows := ExportTables(format, store, tables).value;
      var document := Export(format, store).value;
      CleanIsAdmissible(format, store, rows);
      RestoredIsStore(format, store, target, rows);
      NoBlankInDocument(format, SNAPSHOT_SCHEMA_VERSION, rows);
      if Clean(format, store) {
        ImportsDocument(format, target, SNAPSHOT_SCHEMA_VERSION, rows, document);
        RestoreIff(format, target, SNAPSHOT_SCHEMA_VERSION, rows);
      } else if Import(format, target, document).Ok? {
        AcceptedIsDescribed(format, target, document);
        var version, others :| Describes(format, version, others, document);
        DocumentInjective(format, version, others, SNAPSHOT_SCHEMA_VERSION, rows);
      }
    }
  }

  lemma ConformingKeys(format: Format, store: Store)
    requires Conforms(format, store)
    ensures store.Keys == Names(CurrentTables(format))
  {
  }

  lemma NoBlankInDocument(format: Format, version: nat, rows: seq<TableRow>)
    ensures NonBlank(Document(format, version, rows)) == Document(format, version, rows)
  {
    NothingBlank(Document(format, version, rows));
  }

  // --- the operations ---------------------------------------------------

  // The document as it has been read so far, in the importer's own variables.
  datatype Reading = Reading(
    sawHeader: bool, sawFooter: bool, version: Option<nat>, digest: Digest, actualCounts: map<string, nat>,
    expectedCounts: Option<map<string, nat>>, expectedDigest: Option<Digest>, tables: map<string, seq<JsonRow>>)

  function Gathered(tables: map<string, seq<JsonRow>>, name: string): seq<JsonRow> {
    if name in tables then tables[name] else []
  }

  ghost predicate Tracks(format: Format, reading: Reading, scan: Scan) {
    && reading.sawHeader == scan.version.Some? && reading.version == scan.version
    && reading.sawFooter == Ended(scan)
    && reading.expectedCounts == scan.counts && reading.expectedDigest == scan.digest
    && reading.digest == Texts(scan.rows)
    && (forall name :: Gathered(reading.tables, name) == RowsFor(scan.rows, name))
    && reading.actualCounts == (map name | name in reading.tables :: |reading.tables[name]|)
    && (reading.tables == map[] <==> scan.rows == [])
    && (scan.version.None? ==> scan.rows == [] && !Ended(scan))
    && (scan.version.Some? ==>
          && AllAdmissible(format, scan.version.value, scan.rows)
          && reading.tables.Keys <= Names(TablesOf(format, scan.version.value)))
  }

  // One more row: its line is hashed, its table's count goes up and it joins its table.
  lemma RowTracks(format: Format, reading: Reading, scan: Scan, row: TableRow, after: Reading)
    requires Tracks(format, reading, scan) && scan.version.Some? && Admissible(format, scan.version.value, row)
    requires after == reading.(
      digest := reading.digest + [row.text],
      actualCounts := reading.actualCounts[
        row.table := (if row.table in reading.actualCounts then reading.actualCounts[row.table] else 0) + 1],
      tables := reading.tables[row.table := Gathered(reading.tables, row.table) + [row.row]])
    ensures Tracks(format, after, scan.(rows := scan.rows + [row]))
  {
    hide Admissible, TablesOf, RowsFor;
    AdmissibleIsKnown(format, scan.version.value, row);
    RowsForSnoc(scan.rows, row);
    assert Texts(scan.rows + [row]) == Texts(scan.rows) + [row.text];
  }

  method ReadLineInto(format: Format, reading: Reading, line: Line, ghost scan: Scan) returns (r: Result<Reading>)
    requires Tracks(format, reading, scan)
    ensures r.Ok? == ScanLine(format, scan, line).Ok?
    ensures r.Err? ==> r.error == InvalidInput
    ensures r.Ok? ==> Tracks(format, r.value, ScanLine(format, scan, line).value)
  {
    hide Admissible, TablesOf, Texts, RowsFor;
    match line {
      case Blank => return Ok(reading);
      case Header(formatVersion, schemaVersion, fullSnapshot) =>
        if reading.sawHeader || reading.sawFooter || reading.tables != map[] { return Err(InvalidInput); }
        if formatVersion != Some(FORMAT_VERSION) || !fullSnapshot || schemaVersion.None?
           || !Supported(schemaVersion.value)
        {
          return Err(InvalidInput);
        }
        return Ok(reading.(version := schemaVersion, sawHeader := true));
      case RowLine(text, table, row) =>
        if !reading.sawHeader || reading.sawFooter { return Err(InvalidInput); }
        if table.None? || row.None? { return Err(InvalidInput); }
        var tableRow := TableRow(text, table.value, row.value);
        if !Admissible(format, reading.version.value, tableRow) { return Err(InvalidInput); }
        r := Ok(reading.(
          digest := reading.digest + [text],
          actualCounts := reading.actualCounts[
            table.value := (if table.value in reading.actualCounts then reading.actualCounts[table.value] else 0) + 1],
          tables := reading.tables[table.value := Gathered(reading.tables, table.value) + [row.value]]));
        RowTracks(format, reading, scan, tableRow, r.value);
      case Footer(counts, digest) =>
        if !reading.sawHeader || reading.sawFooter { return Err(InvalidInput); }
        if counts.None? || digest.None? { return Err(InvalidInput); }
        return Ok(reading.(expectedCounts := counts, expectedDigest := digest, sawFooter := true));
      case Unreadable => return Err(InvalidInput);
    }
  }

  lemma RowsForSnoc(rows: seq<TableRow>, row: TableRow)
    ensures forall name ::
              RowsFor(rows + [row], name) == RowsFor(rows, name) + if row.table == name then [row.row] else []
  {
    assert (rows + [row])[..|rows|] == rows;
  }

  lemma AdmissibleIsKnown(format: Format, version: nat, row: TableRow)
    requires Admissible(format, version, row)
    ensures row.table in Names(TablesOf(format, version))
  {
  }

  lemma AllCounted(format: Format, version: nat, reading: Reading, scan: Scan, counts: map<string, nat>)
    requires Tracks(format, reading, scan) && scan.version == Some(version)
    requires counts.Keys == reading.tables.Keys + Names(TablesOf(format, version))
    requires forall name | name in counts :: counts[name] == |Gathered(reading.tables, name)|
    ensures counts == CountsOf(TablesOf(format, version), scan.rows)
  {
  }

  method CompleteCounts(tables: seq<TableSpec>, seen: map<string, nat>) returns (counts: map<string, nat>)
    ensures counts.Keys == seen.Keys + Names(tables)
    ensures forall name | name in counts :: counts[name] == if name in seen then seen[name] else 0
  {
    counts := seen;
    for t := 0 to |tables|
      invariant counts.Keys == seen.Keys + Names(tables[..t])
      invariant forall name | name in counts :: counts[name] == if name in seen then seen[name] else 0
    {
      NamesSnoc(tables[..t], tables[t]);
      assert tables[..t + 1] == tables[..t] + [tables[t]];
      if tables[t].name !in counts { counts := counts[tables[t].name := 0]; }
    }
    assert tables[..|tables|] == tables;
  }

  // What a completely read document hands to the restore.
  ghost predicate Gathers(format: Format, scan: Scan, version: nat, tables: map<string, seq<JsonRow>>) {
    && scan.version == Some(version)
    && AllAdmissible(format, version, scan.rows)
    && tables.Keys <= Names(TablesOf(format, version))
    && forall name :: Gathered(tables, name) == RowsFor(scan.rows, name)
  }

  method ReadDocument(format: Format, document: seq<Line>) returns (r: Result<(nat, map<string, seq<JsonRow>>)>)
    ensures r.Ok? == (ScanAll(format, document).Ok? && Complete(format, ScanAll(format, document).value))
    ensures r.Err? ==> r.error == InvalidInput
    ensures r.Ok? ==> Gathers(format, ScanAll(format, document).value, r.value.0, r.value.1)
  {
    hide ScanLine, Tracks, Complete;
    var reading := Reading(false, false, None, [], map[], None, None, map[]);
    ghost var scan := START;
    assert Tracks(format, reading, scan) by { StartTracks(format); }
    for i := 0 to |document|
      invariant ScanAll(format, document[..i]) == Ok(scan) && Tracks(format, reading, scan)
    {
      assert document[..i + 1][..i] == document[..i] && document[..i + 1][i] == document[i];
      var step := ReadLineInto(format, reading, document[i], scan);
      if step.Err? {
        StuckScan(format, document, i + 1);
        return Err(step.error);
      }
      scan := ScanLine(format, scan, document[i]).value;
      reading := step.value;
    }
    assert document[..|document|] == document;
    r := CheckFooter(format, reading, scan);
  }

  method CheckFooter(format: Format, reading: Reading, ghost scan: Scan)
    returns (r: Result<(nat, map<string, seq<JsonRow>>)>)
    requires Tracks(format, reading, scan)
    ensures r.Ok? == Complete(format, scan)
    ensures r.Err? ==> r.error == InvalidInput
    ensures r.Ok? ==> Gathers(format, scan, r.value.0, r.value.1)
  {
    hide Admissible, Texts, CountsOf;
    if !reading.sawHeader || !reading.sawFooter { return Err(InvalidInput); }
    var version := reading.version.value;
    var counts := CompleteCounts(TablesOf(format, version), reading.actualCounts);
    AllCounted(format, version, reading, scan, counts);
    if reading.expectedCounts != Some(counts) || reading.expectedDigest != Some(reading.digest) {
      return Err(InvalidInput);
    }
    return Ok((version, reading.tables));
  }

  lemma StartTracks(format: Format)
    ensures Tracks(format, Reading(false, false, None, [], map[], None, None, map[]), START)
  {
    NoLines();
  }

  lemma {:induction false} StuckScan(format: Format, document: seq<Line>, i: nat)
    requires i <= |document| && ScanAll(format, document[..i]).Err?
    ensures ScanAll(format, document).Err?
    decreases |document| - i
  {
    if i == |document| {
      assert document[..i] == document;
    } else {
      assert document[..i + 1][..i] == document[..i];
      StuckScan(format, document, i + 1);
    }
  }

  lemma LinesAppend(a: seq<TableRow>, b: seq<TableRow>)
    ensures AsLines(a + b) == AsLines(a) + AsLines(b) && Texts(a + b) == Texts(a) + Texts(b)
  {
  }

  // The lines of one table, and what they add to the digest.
  method StreamTable(format: Format, name: string, rows: seq<Row>) returns (r: Result<(seq<Line>, Digest)>)
    ensures r.Ok? == ExportTable(format, name, rows).Ok?
    ensures r.Err? ==> r.error == Migration
    ensures r.Ok? ==> |r.value.0| == |rows|
    ensures r.Ok? ==> r.value.0 == AsLines(ExportTable(format, name, rows).value)
    ensures r.Ok? ==> r.value.1 == Texts(ExportTable(format, name, rows).value)
  {
    hide Exportable, AsLines, Texts;
    var lines: seq<Line>, texts: Digest := [], [];
    NoLines();
    for count := 0 to |rows|
      invariant ExportTable(format, name, rows[..count]).Ok? && |lines| == count
      invariant lines == AsLines(ExportTable(format, name, rows[..count]).value)
      invariant texts == Texts(ExportTable(format, name, rows[..count]).value)
    {
      assert rows[..count + 1][..count] == rows[..count] && rows[..count + 1][count] == rows[count];
      if !Exportable(rows[count]) {
        ExportedTable(format, name, rows);
        assert !AllExportable(rows);
        return Err(Migration);
      }
      var row := RowToJson(rows[count]);
      var text := format.encode(name, row);
      LinesAppend(ExportTable(format, name, rows[..count]).value, [TableRow(text, name, row)]);
      OneLine(TableRow(text, name, row));
      lines := lines + [AsLine(TableRow(text, name, row))];
      texts := texts + [text];
    }
    assert rows[..|rows|] == rows;
    return Ok((lines, texts));
  }

  lemma OneLine(row: TableRow)
    ensures AsLines([row]) == [AsLine(row)] && Texts([row]) == [row.text]
  {
  }

  lemma NoNames()
    ensures Names([]) == {}
  {
  }

  lemma NameAt(tables: seq<TableSpec>, t: nat)
    requires t < |tables|
    ensures tables[t].name in Names(tables)
  {
  }

  lemma CannotExport(format: Format, store: Store, tables: seq<TableSpec>, t: nat)
    requires Names(tables) <= store.Keys && DistinctNames(tables) && t < |tables| && tables[t].name in store
    requires ExportTable(format, tables[t].name, store[tables[t].name]).Err?
    ensures ExportTables(format, store, tables) == Err(Migration)
  {
    hide ExportTable, ExportTables;
    ExportedTables(format, store, tables);
    ExportedTable(format, tables[t].name, store[tables[t].name]);
    assert tables[t].name in Names(tables);
  }

  class SnapshotStore {
    const format: Format
    var tables: Store

    ghost predicate Valid()
      reads this
    {
      HasTables(format, tables) && DistinctNames(CurrentTables(format))
    }

    constructor (format: Format, tables: Store)
      requires HasTables(format, tables) && DistinctNames(CurrentTables(format))
      ensures Valid() && this.format == format && this.tables == tables
    {
      this.format := format;
      this.tables := tables;
    }

    // Streams header, rows and footer; the counts and digest are taken on the way.
    method ExportJsonlTo() returns (r: Result<seq<Line>>)
      requires Valid()
      ensures r == Export(format, tables)
    {
      hide Exportable, Exported, ExportTable, AsLines, Texts, AllExportable, TablesOf, Names, DistinctNames, CountsOf;
      var output := [Opening(SNAPSHOT_SCHEMA_VERSION)];
      var digest: Digest, counts: map<string, nat> := [], map[];
      ghost var rows: seq<TableRow> := [];
      NoLines();
      NoNames();
      var specs := CurrentTables(format);
      assert specs[..0] == [];
      for t := 0 to |specs|
        invariant Names(specs[..t]) <= tables.Keys && ExportTables(format, tables, specs[..t]) == Ok(rows)
        invariant output == [Opening(SNAPSHOT_SCHEMA_VERSION)] + AsLines(rows) && digest == Texts(rows)
        invariant counts == map name | name in Names(specs[..t]) :: |tables[name]|
      {
        NamesSnoc(specs[..t], specs[t]);
        assert specs[..t + 1] == specs[..t] + [specs[t]];
        assert specs[..t + 1][..t] == specs[..t];
        NameAt(specs, t);
        var name := specs[t].name;
        var exported := StreamTable(format, name, tables[name]);
        if exported.Err? {
          CannotExport(format, tables, specs, t);
          return Err(exported.error);
        }
        var (lines, texts) := exported.value;
        ghost var added := ExportTable(format, name, tables[name]).value;
        LinesAppend(rows, added);
        rows := rows + added;
        digest := digest + texts;
        output := output + lines;
        counts := counts[name := |lines|];
      }
      assert specs[..|specs|] == specs;
      assert counts == CountsOf(specs, rows) by { CountsExported(format, tables, specs, rows); }
      return Ok(output + [Footer(Some(counts), Some(digest))]);
    }

    // Restores a document into an empty store, or leaves the store as it was.
    method ImportJsonl(document: seq<Line>) returns (r: Result<()>)
      requires Valid()
      modifies this
      ensures r.Ok? == Import(format, old(tables), document).Ok?
      ensures r.Ok? ==> tables == Import(format, old(tables), document).value
      ensures r.Err? ==> r.error == Import(format, old(tables), document).error && tables == old(tables)
    {
      hide ScanAll, Complete, TablesOf, InsertAll, AllAdmissible;
      var read := ReadDocument(format, document);
      if read.Err? { return Err(read.error); }
      var version, gathered := read.value.0, read.value.1;
      ghost var scan := ScanAll(format, document).value;
      var specs := TablesOf(format, version);
      NamesOfVersion(format, version);
      for t := 0 to |specs|
        invariant forall i | 0 <= i < t :: specs[i].name in tables && tables[specs[i].name] == []
      {
        assert specs[t].name in Names(specs);
        if tables[specs[t].name] != [] { return Err(Conflict); }
      }
      var restored := InsertTables(format, version, tables, gathered, scan);
      if restored.Err? { return Err(restored.error); }
      if version == LEGACY_SNAPSHOT_SCHEMA_VERSION {
        tables := format.backfill(restored.value);
      } else {
        tables := restored.value;
      }
      return Ok(());
    }
  }

  method InsertTables(
      format: Format, version: nat, store: Store, gathered: map<string, seq<JsonRow>>, ghost scan: Scan)
    returns (r: Result<Store>)
    requires Gathers(format, scan, version, gathered) && Names(TablesOf(format, version)) <= store.Keys
    ensures r == InsertAll(format.schema, store, TablesOf(format, version), scan.rows)
  {
    hide Admissible, TablesOf, Gathered, RowsFor, AllAdmissible, InsertAll, InsertRows, Names;
    var tables := TablesOf(format, version);
    var work := store;
    PrefixNames(tables);
    assert InsertAll(format.schema, store, tables[..0], scan.rows) == Ok(store) by {
      NothingInserted(format.schema, store, scan.rows);
    }
    for t := 0 to |tables|
      invariant work.Keys == store.Keys && InsertAll(format.schema, store, tables[..t], scan.rows) == Ok(work)
    {
      NameAt(tables, t);
      InsertAllSnoc(format.schema, store, tables, t, scan.rows);
      var step := InsertTable(format.schema, work, tables[t].name, Gathered(gathered, tables[t].name));
      if step.Err? {
        InsertAllFails(format.schema, store, tables, t + 1, scan.rows);
        return step;
      }
      work := step.value;
    }
    assert tables[..|tables|] == tables;
    return Ok(work);
  }

  lemma PrefixNames(tables: seq<TableSpec>)
    ensures forall t | 0 <= t <= |tables| :: Names(tables[..t]) <= Names(tables)
  {
  }

  lemma NothingInserted(schema: Schema, store: Store, rows: seq<TableRow>)
    ensures Names([]) <= store.Keys && InsertAll(schema, store, [], rows) == Ok(store)
  {
  }

  lemma InsertAllSnoc(schema: Schema, store: Store, tables: seq<TableSpec>, t: nat, rows: seq<TableRow>)
    requires t < |tables| && Names(tables) <= store.Keys
    requires Names(tables[..t]) <= store.Keys && InsertAll(schema, store, tables[..t], rows).Ok?
    ensures Names(tables[..t + 1]) <= store.Keys && tables[t].name in store
    ensures InsertAll(schema, store, tables[..t + 1], rows)
         == InsertRows(schema, InsertAll(schema, store, tables[..t], rows).value, tables[t].name,
                       RowsFor(rows, tables[t].name))
  {
    hide InsertRows, RowsFor;
    PrefixNames(tables);
    NameAt(tables, t);
    assert tables[..t + 1][..t] == tables[..t];
  }

  lemma {:induction false} InsertAllFails(
    schema: Schema, store: Store, tables: seq<TableSpec>, t: nat, rows: seq<TableRow>)
    requires t <= |tables| && Names(tables) <= store.Keys && Names(tables[..t]) <= store.Keys
    requires InsertAll(schema, store, tables[..t], rows).Err?
    ensures InsertAll(schema, store, tables, rows) == InsertAll(schema, store, tables[..t], rows)
    decreases |tables| - t
  {
    hide InsertRows, RowsFor, Names;
    if t == |tables| {
      assert tables[..t] == tables;
    } else {
      PrefixNames(tables);
      assert tables[..t + 1][..t] == tables[..t];
      InsertAllFails(schema, store, tables, t + 1, rows);
    }
  }

  lemma CountsExported(format: Format, store: Store, tables: seq<TableSpec>, rows: seq<TableRow>)
    requires Names(tables) <= store.Keys && DistinctNames(tables)
    requires ExportTables(format, store, tables) == Ok(rows)
    ensures CountsOf(tables, rows) == map name | name in Names(tables) :: |store[name]|
  {
    hide ExportTables, Exportable;
    ExportedTables(format, store, tables);
  }
}
