/** The options routes: from the rows of a two-column query to the names a user can
    choose from (sqlBackend.go, db.go, the option formatters and their handlers). */
module Options {
  import opened Values
  import opened Descriptor
  import opened Decode
  import opened Strings

  // ----- scan cells -----

  predicate LastAt(names: seq<string>, name: string, i: nat) {
    i < |names| && names[i] == name && forall k :: i < k < |names| ==> names[k] != name
  }

  /** The schema's cell for a label: the last one, as the scan that keeps overwriting
      leaves it; none, hence a nil scan target, for a label that is not there. */
  function CellOf(fieldNames: seq<string>, golangTypes: seq<ScanCell>, fieldName: string): (cell: Option<ScanCell>)
    requires |fieldNames| == |golangTypes|
    ensures cell.Some? <==> fieldName in fieldNames
    ensures forall i: nat :: LastAt(fieldNames, fieldName, i) ==> cell == Some(golangTypes[i])
  {
    if fieldNames == [] then None
    else
      var n := |fieldNames| - 1;
      InSnoc(fieldNames, fieldName);
      assert forall i: nat :: i < n && LastAt(fieldNames, fieldName, i) ==> LastAt(fieldNames[..n], fieldName, i);
      if fieldNames[n] == fieldName then Some(golangTypes[n]) else CellOf(fieldNames[..n], golangTypes[..n], fieldName)
  }

  lemma {:induction false} CellIndex(fieldNames: seq<string>, golangTypes: seq<ScanCell>, fieldName: string)
    returns (i: nat)
    requires |fieldNames| == |golangTypes| && CellOf(fieldNames, golangTypes, fieldName).Some?
    ensures i < |fieldNames| && fieldNames[i] == fieldName
    ensures CellOf(fieldNames, golangTypes, fieldName) == Some(golangTypes[i])
  {
    i := |fieldNames| - 1;
    if fieldNames[i] != fieldName {
      i := CellIndex(fieldNames[..i], golangTypes[..i], fieldName);
    }
  }

  /** When every column of the schema has a cell of its own, only one and the same
      column is given one and the same cell. */
  lemma SharedCellSameColumn(
    table: string, fieldNames: seq<string>, golangTypes: seq<ScanCell>, a: string, b: string)
    requires |fieldNames| == |golangTypes| && NoDuplicates(golangTypes)
    requires CellOf(fieldNames, golangTypes, Label(table, a)).Some?
    requires CellOf(fieldNames, golangTypes, Label(table, a)) == CellOf(fieldNames, golangTypes, Label(table, b))
    ensures a == b
  {
    var i := CellIndex(fieldNames, golangTypes, Label(table, a));
    var j := CellIndex(fieldNames, golangTypes, Label(table, b));
    assert i == j;
    assert Label(table, a)[|table| + 1..] == a;
    assert Label(table, b)[|table| + 1..] == b;
  }

  /** The two columns of an options query, with the schema's own cell for each. */
  method ColumnNamesAndDataTypesForOptionRoutes(
    td: TypeDescriptor, fieldNames: seq<string>, golangTypes: seq<ScanCell>)
    returns (columnNames: seq<string>, dataTypes: seq<Option<ScanCell>>)
    requires |fieldNames| == |golangTypes|
    ensures columnNames == [Label(td.tableName, "id"), Label(td.tableName, "name")]
    ensures dataTypes == [CellOf(fieldNames, golangTypes, Label(td.tableName, td.uniqueIdColumn)),
                          CellOf(fieldNames, golangTypes, Label(td.tableName, td.columnAsOptionName))]
  {
    var types: map<string, ScanCell> := map[];
    for i := 0 to |fieldNames|
      invariant forall l :: CellOf(fieldNames[..i], golangTypes[..i], l) == Lookup(types, l)
    {
      assert fieldNames[..i + 1][..i] == fieldNames[..i] && golangTypes[..i + 1][..i] == golangTypes[..i];
      types := types[fieldNames[i] := golangTypes[i]];
    }
    assert fieldNames[..|fieldNames|] == fieldNames && golangTypes[..|golangTypes|] == golangTypes;
    columnNames := [Label(td.tableName, "id"), Label(td.tableName, "name")];
    dataTypes := [Lookup(types, Label(td.tableName, td.uniqueIdColumn)),
                  Lookup(types, Label(td.tableName, td.columnAsOptionName))];
  }

  function Lookup(types: map<string, ScanCell>, fieldName: string): Option<ScanCell> {
    if fieldName in types then Some(types[fieldName]) else None
  }

  // ----- one row -----

  lemma OptionRecord(table: string, id: Value, name: Value)
    ensures DecodeRow([ColumnRef(table, "id"), ColumnRef(table, "name")], [id, name])
         == map[table := Map(map["id" := id, "name" := name])]
  {
    var refs := [ColumnRef(table, "id"), ColumnRef(table, "name")];
    DecodeTrailingRun(refs, [id, name], 0, table);
    assert Columns(refs) == ["id", "name"] && Columns(refs)[..1] == ["id"];
  }

  lemma OptionLabels(table: string)
    requires NUL !in table
    ensures AllLabels([Label(table, "id"), Label(table, "name")])
    ensures SplitAll([Label(table, "id"), Label(table, "name")]) == [ColumnRef(table, "id"), ColumnRef(table, "name")]
  {
    LabelSplits(table, "id");
    LabelSplits(table, "name");
  }

  /** An option is its row's own id and name, also when one column, hence one cell,
      serves as both. */
  lemma OptionRowDecodes(conv: Conversion, table: string, cells: seq<ScanCell>, raw: seq<Value>)
    requires NUL !in table
    requires |cells| == 2 && Scannable(conv, cells, raw)
    requires cells[0] == cells[1] ==> raw[0] == raw[1]
    ensures AllLabels([Label(table, "id"), Label(table, "name")])
    ensures DecodeRow(SplitAll([Label(table, "id"), Label(table, "name")]), ScanResult(conv, cells, raw))
         == map[table := Map(map["id" := Scanned(conv, cells[0].kind, raw[0]).value,
                                 "name" := Scanned(conv, cells[1].kind, raw[1]).value])]
  {
    SharingInvisible(conv, cells, raw);
    OptionLabels(table);
    var id, name := Scanned(conv, cells[0].kind, raw[0]).value, Scanned(conv, cells[1].kind, raw[1]).value;
    assert ScanResult(conv, cells, raw) == Independent(conv, cells, raw) == [id, name];
    OptionRecord(table, id, name);
  }

  // ----- the query -----

  /** The scan targets of the id and the option name. */
  datatype Targets = Targets(id: Kind, name: Kind)

  /** Both columns of the driver's row can be scanned. */
  predicate Readable(conv: Conversion, td: TypeDescriptor, targets: Option<Targets>, row: Record) {
    && targets.Some?
    && Accepts(conv, targets.value.id, At(row, td.uniqueIdColumn))
    && Accepts(conv, targets.value.name, At(row, td.columnAsOptionName))
  }

  function IdAndName(conv: Conversion, td: TypeDescriptor, targets: Option<Targets>, row: Record): (r: Record)
    requires Readable(conv, td, targets, row)
    ensures r.Keys == {"id", "name"}
    ensures ReadsAs(conv, targets.value.id, At(row, td.uniqueIdColumn), r["id"])
    ensures ReadsAs(conv, targets.value.name, At(row, td.columnAsOptionName), r["name"])
  {
    map["id" := Scanned(conv, targets.value.id, At(row, td.uniqueIdColumn)).value,
        "name" := Scanned(conv, targets.value.name, At(row, td.columnAsOptionName)).value]
  }

  /** `SELECT uniqueIdColumn, columnAsOptionName` over the driver's rows; after an
      error, over some first ones of them. */
  ghost predicate Selects(td: TypeDescriptor, rows: seq<Record>, rs: ResultSet) {
    && (if rs.failed then |rs.rows| <= |rows| else |rs.rows| == |rows|)
    && forall i :: 0 <= i < |rs.rows| ==>
         rs.rows[i] == [At(rows[i], td.uniqueIdColumn), At(rows[i], td.columnAsOptionName)]
  }

  /** The query is answered: no error, and every row can be scanned. */
  ghost predicate Answered(
    conv: Conversion, td: TypeDescriptor, targets: Option<Targets>, rows: seq<Record>, rs: ResultSet)
  {
    !rs.failed && forall i :: 0 <= i < |rows| ==> Readable(conv, td, targets, rows[i])
  }

  lemma RowScans(
    conv: Conversion, td: TypeDescriptor, cells: seq<ScanCell>, row: Record, raw: seq<Value>)
    requires NUL !in td.tableName && |cells| == 2
    requires raw == [At(row, td.uniqueIdColumn), At(row, td.columnAsOptionName)]
    requires cells[0] == cells[1] ==> td.uniqueIdColumn == td.columnAsOptionName
    ensures Scannable(conv, cells, raw) == Readable(conv, td, Some(Targets(cells[0].kind, cells[1].kind)), row)
    ensures AllLabels([Label(td.tableName, "id"), Label(td.tableName, "name")])
    ensures Scannable(conv, cells, raw) ==>
              DecodedRow(conv, [Label(td.tableName, "id"), Label(td.tableName, "name")], cells, raw)
              == map[td.tableName := Map(IdAndName(conv, td, Some(Targets(cells[0].kind, cells[1].kind)), row))]
  {
    OptionLabels(td.tableName);
    if Scannable(conv, cells, raw) {
      OptionRowDecodes(conv, td.tableName, cells, raw);
    }
  }

  /** The targets the schema has for the two columns, if it has both. */
  function TargetsOf(td: TypeDescriptor, fieldNames: seq<string>, golangTypes: seq<ScanCell>): Option<Targets>
    requires |fieldNames| == |golangTypes|
  {
    var id := CellOf(fieldNames, golangTypes, Label(td.tableName, td.uniqueIdColumn));
    var name := CellOf(fieldNames, golangTypes, Label(td.tableName, td.columnAsOptionName));
    if id.Some? && name.Some? then Some(Targets(id.value.kind, name.value.kind)) else None
  }

  method QueryContextForOptionRoutes(
    conv: Conversion, td: TypeDescriptor, fieldNames: seq<string>, golangTypes: seq<ScanCell>, rs: ResultSet,
    ghost rows: seq<Record>)
    returns (results: Option<seq<Record>>)
    requires |fieldNames| == |golangTypes| && NUL !in td.tableName && NoDuplicates(golangTypes)
    requires Selects(td, rows, rs)
    modifies golangTypes
    ensures var targets := TargetsOf(td, fieldNames, golangTypes);
            results.Some? <==> Answered(conv, td, targets, rows, rs)
    ensures results.Some? ==>
              var targets := TargetsOf(td, fieldNames, golangTypes);
              && |results.value| == |rows|
              && forall i :: 0 <= i < |rows| ==>
                   results.value[i] == map[td.tableName := Map(IdAndName(conv, td, targets, rows[i]))]
  {
    var columnNames, dataTypes := ColumnNamesAndDataTypesForOptionRoutes(td, fieldNames, golangTypes);
    ghost var targets := TargetsOf(td, fieldNames, golangTypes);
    if dataTypes[0].None? || dataTypes[1].None? {
      // scanning into a nil target is an error
      assert |rows| > 0 ==> !Readable(conv, td, targets, rows[0]);
      return if rs.failed || |rs.rows| > 0 then None else Some([]);
    }
    var cells := [dataTypes[0].value, dataTypes[1].value];
    ghost var i := CellIndex(fieldNames, golangTypes, Label(td.tableName, td.uniqueIdColumn));
    ghost var j := CellIndex(fieldNames, golangTypes, Label(td.tableName, td.columnAsOptionName));
    if cells[0] == cells[1] {
      SharedCellSameColumn(td.tableName, fieldNames, golangTypes, td.uniqueIdColumn, td.columnAsOptionName);
    }
    forall r | 0 <= r < |rs.rows|
      ensures Scannable(conv, cells, rs.rows[r]) == Readable(conv, td, targets, rows[r])
      ensures AllLabels(columnNames)
      ensures Scannable(conv, cells, rs.rows[r]) ==>
                DecodedRow(conv, columnNames, cells, rs.rows[r])
                == map[td.tableName := Map(IdAndName(conv, td, targets, rows[r]))]
    {
      RowScans(conv, td, cells, rows[r], rs.rows[r]);
    }
    OptionLabels(td.tableName);
    results := RowsToResults(conv, rs, columnNames, cells);
  }

  // ----- formatting -----

  /** An option as it is sent: both values as text. */
  function OptionFor(p: Printers, conv: Conversion, td: TypeDescriptor, targets: Option<Targets>, row: Record): Value
    requires Readable(conv, td, targets, row)
  {
    var r := IdAndName(conv, td, targets, row);
    Map(map["id" := Stringify(p, r["id"]), "name" := Stringify(p, r["name"])])
  }

  lemma OptionText(p: Printers, conv: Conversion, td: TypeDescriptor, targets: Option<Targets>, row: Record)
    requires Readable(conv, td, targets, row)
    ensures Stringify(p, Map(IdAndName(conv, td, targets, row))) == OptionFor(p, conv, td, targets, row)
  {
    var r := IdAndName(conv, td, targets, row);
    assert Stringify(p, Map(r)).m == OptionFor(p, conv, td, targets, row).m;
  }

  /** `t` is the text of what the driver's value is read as. */
  ghost predicate IsTextOfCell(p: Printers, conv: Conversion, kind: Kind, raw: Value, t: Value) {
    exists v :: ReadsAs(conv, kind, raw, v) && IsTextOf(p, v, t)
  }

  /** An option: the row's own id and option name, as they are read, as text. */
  ghost predicate IsOption(
    p: Printers, conv: Conversion, td: TypeDescriptor, targets: Option<Targets>, row: Record, option: Value)
  {
    && targets.Some? && option.Map? && option.m.Keys == {"id", "name"}
    && IsTextOfCell(p, conv, targets.value.id, At(row, td.uniqueIdColumn), option.m["id"])
    && IsTextOfCell(p, conv, targets.value.name, At(row, td.columnAsOptionName), option.m["name"])
  }

  lemma OptionForIsOption(
    p: Printers, conv: Conversion, td: TypeDescriptor, targets: Option<Targets>, row: Record)
    requires Readable(conv, td, targets, row)
    ensures IsOption(p, conv, td, targets, row, OptionFor(p, conv, td, targets, row))
  {
    var r, option := IdAndName(conv, td, targets, row), OptionFor(p, conv, td, targets, row);
    StringifyIsText(p, r["id"], option.m["id"]);
    StringifyIsText(p, r["name"], option.m["name"]);
  }

  /** A value of the kind that a scan target is for, or nil. */
  predicate OfKind(kind: Kind, v: Value) {
    match v
    case Nil => true
    case Bool(_) => kind.NullBool?
    case Str(_) => kind.NullString?
    case Int(_) => kind.NullInt64?
    case Float(_) => kind.NullFloat64?
    case Time(_) => kind.NullTime?
    case _ => false
  }

  /** `database/sql` leaves values alone that are of the scan target's kind. */
  ghost predicate Keeps(conv: Conversion) {
    forall kind, v: Value :: OfKind(kind, v) && v != Nil && !kind.NullTime? ==> conv(kind, v) == Some(v)
  }

  /** Both columns hold values of the kinds the schema has for them. */
  ghost predicate OfSchemaKinds(td: TypeDescriptor, targets: Option<Targets>, row: Record) {
    && targets.Some?
    && OfKind(targets.value.id, At(row, td.uniqueIdColumn))
    && OfKind(targets.value.name, At(row, td.columnAsOptionName))
  }

  /** The text of the row's own id and option name. */
  ghost predicate OptionOfRow(p: Printers, td: TypeDescriptor, row: Record, option: Value) {
    && option.Map? && option.m.Keys == {"id", "name"}
    && IsTextOf(p, At(row, td.uniqueIdColumn), option.m["id"])
    && IsTextOf(p, At(row, td.columnAsOptionName), option.m["name"])
  }

  /** A server error, a 404, one option, or an array of options. */
  datatype Reply = ServerError | NotFound | One(option: Value) | Many(options: seq<Value>)

  const MOST_OPTIONS: nat := 42

  function SubsetForPerformance(options: seq<Value>): (r: seq<Value>)
    ensures r <= options && |r| <= MOST_OPTIONS
    ensures |r| < MOST_OPTIONS ==> r == options
  {
    if |options| > MOST_OPTIONS then options[..MOST_OPTIONS] else options
  }

  /** Every option offered is the id and the name of one row, as text and in the
      order of the rows; the first 42 are offered. */
  method GetCollectionAsOptions(
    p: Printers, conv: Conversion, td: TypeDescriptor, fieldNames: seq<string>, golangTypes: seq<ScanCell>,
    rs: ResultSet, ghost rows: seq<Record>)
    returns (reply: Reply)
    requires |fieldNames| == |golangTypes| && NUL !in td.tableName && NoDuplicates(golangTypes)
    requires Selects(td, rows, rs)
    modifies golangTypes
    ensures reply.ServerError? <==> !Answered(conv, td, TargetsOf(td, fieldNames, golangTypes), rows, rs)
    ensures !reply.ServerError? ==>
              var targets := TargetsOf(td, fieldNames, golangTypes);
              && reply.Many? && |reply.options| == (if |rows| > 42 then 42 else |rows|)
              && forall i :: 0 <= i < |reply.options| ==> IsOption(p, conv, td, targets, rows[i], reply.options[i])
    ensures !reply.ServerError? && Keeps(conv) ==>
              var targets := TargetsOf(td, fieldNames, golangTypes);
              forall i :: 0 <= i < |reply.options| && OfSchemaKinds(td, targets, rows[i]) ==>
                OptionOfRow(p, td, rows[i], reply.options[i])
  {
    var results := QueryContextForOptionRoutes(conv, td, fieldNames, golangTypes, rs, rows);
    ghost var targets := TargetsOf(td, fieldNames, golangTypes);
    if results.None? { return ServerError; }
    var formatted: seq<Value> := [];
    for i := 0 to |results.value|
      invariant |formatted| == i
      invariant forall k :: 0 <= k < i ==> IsOption(p, conv, td, targets, rows[k], formatted[k])
    {
      OptionText(p, conv, td, targets, rows[i]);
      OptionForIsOption(p, conv, td, targets, rows[i]);
      formatted := formatted + [Stringify(p, results.value[i][td.tableName])];
    }
    return Many(SubsetForPerformance(formatted));
  }

  /** One option for one row, a 404 without any, and an error for more than one. */
  method GetSingleAsOption(
    p: Printers, conv: Conversion, td: TypeDescriptor, fieldNames: seq<string>, golangTypes: seq<ScanCell>,
    rs: ResultSet, ghost rows: seq<Record>)
    returns (reply: Reply)
    requires |fieldNames| == |golangTypes| && NUL !in td.tableName && NoDuplicates(golangTypes)
    requires Selects(td, rows, rs)
    modifies golangTypes
    ensures var targets := TargetsOf(td, fieldNames, golangTypes);
            if !Answered(conv, td, targets, rows, rs) || |rows| > 1 then reply == ServerError
            else if rows == [] then reply == NotFound
            else reply.One? && IsOption(p, conv, td, targets, rows[0], reply.option)
    ensures reply.One? && Keeps(conv) && OfSchemaKinds(td, TargetsOf(td, fieldNames, golangTypes), rows[0]) ==>
              OptionOfRow(p, td, rows[0], reply.option)
  {
    var results := QueryContextForOptionRoutes(conv, td, fieldNames, golangTypes, rs, rows);
    ghost var targets := TargetsOf(td, fieldNames, golangTypes);
    if results.None? { return ServerError; }
    if |results.value| == 0 { return NotFound; }
    if |results.value| > 1 { return ServerError; }
    OptionText(p, conv, td, targets, rows[0]);
    OptionForIsOption(p, conv, td, targets, rows[0]);
    return One(Stringify(p, results.value[0][td.tableName]));
  }
}
