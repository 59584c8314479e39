/** The read endpoints end to end: from the rows the driver delivers to the
    response (getSingle.go, getCollection.go, and the formatters). */
module Endpoints {
  import opened Values
  import opened Descriptor
  import opened Decode
  import opened Deduplicate
  import opened Join
  import opened Strings
  import opened Formatting
  import opened FormattingProperties
  import opened RelatedRecords
  import opened FinalRecords
  import opened Collections

  /** A 500, a 404, or what is encoded as JSON: `{}`, one object, or an array of objects. */
  datatype Response =
    | ServerError
    | NotFound
    | NoRecord
    | OneRecord(record: Record)
    | Records(records: seq<Record>)

  // ----- formatters -----

  function FormattedAll(env: Env, td: TypeDescriptor, results: seq<Record>): (r: seq<Record>)
    requires HaveBase(results, td.tableName)
    ensures |r| == |results|
  {
    seq(|results|, i requires 0 <= i < |results| =>
      Formatted(env, td, results[i][td.tableName].m, td.fields))
  }

  lemma FormattableHaveBase(env: Env, results: seq<Record>, table: string)
    requires DescriptorOf(env.cfg, table).Some?
    requires forall r :: r in results ==>
               Formattable(env, r, table, DescriptorOf(env.cfg, table).value.fields)
    ensures HaveBase(results, table)
  {
    forall i | 0 <= i < |results| ensures HasBase(results[i], table) { assert results[i] in results; }
  }

  method FormatEach(env: Env, results: seq<Record>, table: string) returns (formattedResults: seq<Record>)
    requires DescriptorOf(env.cfg, table).Some?
    requires forall r :: r in results ==>
               Formattable(env, r, table, DescriptorOf(env.cfg, table).value.fields)
    ensures HaveBase(results, table)
    ensures formattedResults == FormattedAll(env, DescriptorOf(env.cfg, table).value, results)
  {
    FormattableHaveBase(env, results, table);
    ghost var all := FormattedAll(env, DescriptorOf(env.cfg, table).value, results);
    formattedResults := [];
    for i := 0 to |results|
      invariant formattedResults == all[..i]
    {
      var formattedResult := FormatOne(env, results[i], table);
      assert formattedResult == all[i];
      formattedResults := formattedResults + [formattedResult];
    }
  }

  method FormatOne(env: Env, result: Record, table: string) returns (formatted: Record)
    requires DescriptorOf(env.cfg, table).Some?
    requires Formattable(env, result, table, DescriptorOf(env.cfg, table).value.fields)
    ensures var td := DescriptorOf(env.cfg, table).value;
            formatted == Formatted(env, td, result[table].m, td.fields)
  {
    var td := GetTypeDescriptorUsingDBTableName(env.cfg, table);
    formatted := FormatAsAWorkflowType(env, result, table, td.value.fields);
  }

  /** The formatter of GetSingle: an array as soon as there is more than one row. */
  method StandardFormat(env: Env, results: seq<Record>, table: string) returns (response: Response)
    requires DescriptorOf(env.cfg, table).Some?
    requires forall r :: r in results ==>
               Formattable(env, r, table, DescriptorOf(env.cfg, table).value.fields)
    ensures HaveBase(results, table)
    ensures var all := FormattedAll(env, DescriptorOf(env.cfg, table).value, results);
            response == if |all| == 0 then NoRecord else if |all| == 1 then OneRecord(all[0]) else Records(all)
  {
    var all := FormatEach(env, results, table);
    if |results| == 0 {
      return NoRecord;
    } else if |results| == 1 {
      return OneRecord(all[0]);
    } else {
      return Records(all);
    }
  }

  method CollectionFormat(env: Env, results: seq<Record>, table: string) returns (response: Response)
    requires DescriptorOf(env.cfg, table).Some?
    requires forall r :: r in results ==>
               Formattable(env, r, table, DescriptorOf(env.cfg, table).value.fields)
    ensures HaveBase(results, table)
    ensures response == Records(FormattedAll(env, DescriptorOf(env.cfg, table).value, results))
  {
    var all := FormatEach(env, results, table);
    return Records(all);
  }

  // ----- querying -----

  /** Some column is labelled with the table. */
  predicate Labels(columns: seq<string>, table: string)
    requires AllLabels(columns)
  {
    exists c | c in SplitAll(columns) :: c.table == table
  }

  lemma {:induction false} DecodeHasTable(refs: seq<ColumnRef>, vals: seq<Value>, c: ColumnRef)
    requires |refs| == |vals| && c in refs
    ensures HasBase(DecodeRow(refs, vals), c.table)
  {
    var n := |refs| - 1;
    DecodeLast(refs, vals);
    if refs[n].table != c.table {
      assert refs == refs[..n] + [refs[n]];
      DecodeHasTable(refs[..n], vals[..n], c);
    }
  }

  /** The query is answered: no error, and every row can be scanned. */
  ghost predicate Completes(conv: Conversion, rs: ResultSet, cells: seq<ScanCell>) {
    !rs.failed && forall i :: 0 <= i < |rs.rows| ==> Scannable(conv, cells, rs.rows[i])
  }

  function DecodedRows(conv: Conversion, columns: seq<string>, cells: seq<ScanCell>, rows: seq<seq<Value>>)
    : (data: seq<Record>)
    requires |columns| == |cells| && AllLabels(columns)
    requires forall i :: 0 <= i < |rows| ==> Scannable(conv, cells, rows[i])
    ensures |data| == |rows|
  {
    seq(|rows|, i requires 0 <= i < |rows| => DecodedRow(conv, columns, cells, rows[i]))
  }

  lemma DecodedHaveBase(
    conv: Conversion, columns: seq<string>, cells: seq<ScanCell>, rows: seq<seq<Value>>, table: string)
    requires |columns| == |cells| && AllLabels(columns) && Labels(columns, table)
    requires forall i :: 0 <= i < |rows| ==> Scannable(conv, cells, rows[i])
    ensures HaveBase(DecodedRows(conv, columns, cells, rows), table)
  {
    var c :| c in SplitAll(columns) && c.table == table;
    forall i | 0 <= i < |rows| ensures HasBase(DecodedRows(conv, columns, cells, rows)[i], table) {
      DecodeHasTable(SplitAll(columns), ScanResult(conv, cells, rows[i]), c);
    }
  }

  /** Scan, decode and collect: `None` when a row cannot be scanned or iteration fails. */
  method QueryContextForNonOptionRoutes(
    conv: Conversion, cfg: seq<TypeDescriptor>, table: string, rs: ResultSet, columns: seq<string>,
    cells: seq<ScanCell>)
    returns (results: Option<seq<Record>>)
    requires |columns| == |cells| && AllLabels(columns) && Labels(columns, table)
    requires DescriptorOf(cfg, table).Some? && NoSelfJoin(table, DescriptorOf(cfg, table).value.fields)
    modifies cells
    ensures results.Some? <==> Completes(conv, rs, cells)
    ensures results.Some? ==>
              && HaveBase(DecodedRows(conv, columns, cells, rs.rows), table)
              && results.value == Deduplicated(DecodedRows(conv, columns, cells, rs.rows), table,
                                               Relationships(DescriptorOf(cfg, table).value.fields))
  {
    var td := GetTypeDescriptorUsingDBTableName(cfg, table);
    var decoded := RowsToResults(conv, rs, columns, cells);
    if decoded.None? { return None; }
    DecodedHaveBase(conv, columns, cells, rs.rows, table);
    assert decoded.value == DecodedRows(conv, columns, cells, rs.rows);
    var data := new Record[|decoded.value|](i requires 0 <= i < |decoded.value| => decoded.value[i]);
    assert data[..] == decoded.value;
    DeduplicateSingleResource(data, td.value);
    return Some(data[..]);
  }

  // ----- endpoints over a database -----

  /** Date columns hold dates; relationship keys are no source columns. */
  ghost predicate Typed(env: Env, q: Query)
    requires q.Valid()
  {
    && DescriptorOf(env.cfg, q.td.tableName) == Some(q.td)
    && (forall f, g :: f in q.Rels() && g in Plain(q.td.fields) ==> f.key != g.fromColumn)
    && (forall b, f :: b in q.selected && f in Plain(q.td.fields) ==> PlainFormattable(q.td, b, f))
    && (forall b, f :: b in q.selected && f in q.Rels() ==> !At(b, f.relationship.value.localColumn).Map?)
    && (forall k :: 0 <= k < |q.Rels()| ==> TypedRelated(env, q, k))
  }

  ghost predicate TypedRelated(env: Env, q: Query, k: nat)
    requires q.Valid() && k < |q.Rels()|
  {
    var t, rtd := Related(q.db, q.Rels()[k]), DescriptorOf(env.cfg, q.Rels()[k].relationship.value.withTable);
    && rtd.Some?
    && forall r, g :: (r in t.rows || r == t.blank) && g in Plain(rtd.value.fields) ==>
         PlainFormattable(rtd.value, r, g)
  }

  lemma SameColumnFormattable(td: TypeDescriptor, a: Record, b: Record, f: Field)
    requires PlainFormattable(td, a, f) && At(b, f.fromColumn) == At(a, f.fromColumn)
    ensures PlainFormattable(td, b, f)
  {
  }

  lemma PlainStillFormattable(env: Env, q: Query, joined: seq<Joined>, i: nat, f: Field)
    requires q.Valid() && q.Produces(joined) && i < |joined| && Typed(env, q)
    requires f in Plain(q.td.fields)
    ensures PlainFormattable(q.td, BaseRecord(q, joined, i), f)
  {
    assert PlainFormattable(q.td, joined[i].base, f) by {
      assert JoinedFrom(q.db, q.selected, q.Rels(), joined[i]);
    }
    SameColumnFormattable(q.td, joined[i].base, BaseRecord(q, joined, i), f) by {
      BaseRecordColumn(q, joined, i, f.fromColumn);
    }
  }

  lemma ListFormattable(env: Env, q: Query, joined: seq<Joined>, k: nat, i: nat, r: Record, g: Field)
    requires q.Valid() && q.Produces(joined) && k < |q.Rels()| && i < |joined| && TypedRelated(env, q, k)
    requires r in q.Link(joined, k).Listed(i)
    requires var rtd := DescriptorOf(env.cfg, q.Rels()[k].relationship.value.withTable).value; g in Plain(rtd.fields)
    ensures PlainFormattable(DescriptorOf(env.cfg, q.Rels()[k].relationship.value.withTable).value, r, g)
  {
    LinkValid(q, joined, k);
    ListedAreRows(q.Link(joined, k), i, r);
  }

  lemma RelationshipsFormattable(env: Env, q: Query, joined: seq<Joined>, k: nat, i: nat)
    requires q.Valid() && q.Produces(joined) && k < |q.Rels()| && i < |joined| && Typed(env, q)
    ensures RelationshipFormattable(env, BaseRecord(q, joined, i), q.Rels()[k])
  {
    var f, rec := q.Rels()[k], BaseRecord(q, joined, i);
    BaseRecordLists(q, joined, k, i);
    assert TypedRelated(env, q, k);
    var rtd := DescriptorOf(env.cfg, f.relationship.value.withTable).value;
    assert !At(rec, f.relationship.value.localColumn).Map? by {
      assert joined[i].base in q.selected && f in q.Rels();
    }
    forall r, g | r in Collection(rec, f) && g in Plain(rtd.fields) ensures PlainFormattable(rtd, r, g) {
      ListFormattable(env, q, joined, k, i, r, g);
    }
  }

  ghost function WithLists(q: Query, joined: seq<Joined>): (results: seq<Record>)
    requires q.Valid() && q.Produces(joined)
    ensures HaveBase(results, q.td.tableName) && |results| == |joined|
  {
    DataHasBase(q, joined);
    Deduplicated(q.Data(joined), q.base.name, q.Rels())
  }

  /** With typed columns the formatter's type assertions all succeed. */
  lemma ResultsFormattable(env: Env, q: Query, joined: seq<Joined>, i: nat)
    requires q.Valid() && q.Produces(joined) && i < |joined| && Typed(env, q)
    ensures Formattable(env, WithLists(q, joined)[i], q.td.tableName, q.td.fields)
  {
    forall f | f in Plain(q.td.fields) ensures PlainFormattable(q.td, BaseRecord(q, joined, i), f) {
      PlainStillFormattable(env, q, joined, i, f);
    }
    forall f | f in q.Rels() ensures RelationshipFormattable(env, BaseRecord(q, joined, i), f) {
      var k :| 0 <= k < |q.Rels()| && q.Rels()[k] == f;
      RelationshipsFormattable(env, q, joined, k, i);
    }
  }

  /** The labels the schema mapping of a join keeps, as the row decoder needs them. */
  method JoinLabels(
    ghost q: Query, widths: map<string, nat>, table: string, fields: seq<Field>, columns: seq<string>)
    returns (labels: seq<string>)
    requires q.Valid() && table == q.td.tableName && fields == q.Rels()
    requires SchemaFits(widths, Segments(q.db, q.base, q.Rels(), Unmatched(q.base, q.Rels())))
    requires columns == Columns(JoinRefs(q.db, q.base, q.Rels()))
    ensures AllLabels(labels) && SplitAll(labels) == JoinRefs(q.db, q.base, q.Rels())
  {
    ghost var segs := Segments(q.db, q.base, q.Rels(), Unmatched(q.base, q.Rels()));
    UnmatchedValid(q.db, q.base, q.Rels());
    OwnersOfColumns(widths, segs);
    RelsKeys(q);
    NamesOfSegments(q.db, q.base, q.Rels(), Unmatched(q.base, q.Rels()));
    labels := PrependTableNameToColumnsInJoinedTables(widths, table, fields, columns);
    LabelsNameOwners(widths, segs, labels);
  }

  /** Labels of the join, a cell for each column, and, if the query is answered, the
      join's rows as they are scanned into such cells. */
  ghost predicate Delivers(
    conv: Conversion, q: Query, joined: seq<Joined>, rs: ResultSet, columns: seq<string>, cells: seq<ScanCell>)
    requires q.Valid() && q.Produces(joined)
  {
    && |columns| == |cells| && NoDuplicates(cells)
    && AllLabels(columns) && SplitAll(columns) == JoinRefs(q.db, q.base, q.Rels())
    && (Completes(conv, rs, cells) ==>
          && |rs.rows| == |joined|
          && forall i :: 0 <= i < |joined| ==> DeliversRow(conv, q, joined[i], rs.rows[i], cells))
  }

  ghost predicate DeliversRow(conv: Conversion, q: Query, j: Joined, raw: seq<Value>, cells: seq<ScanCell>)
    requires Known(q.db, q.Rels()) && |j.related| == |q.Rels()|
  {
    var row := FlatRow(Segments(q.db, q.base, q.Rels(), j));
    && |cells| == |raw| == |row|
    && forall i :: 0 <= i < |row| ==> ReadsAs(conv, cells[i].kind, raw[i], row[i])
  }

  lemma RowDecodes(
    conv: Conversion, q: Query, j: Joined, raw: seq<Value>, columns: seq<string>, cells: seq<ScanCell>)
    requires q.Valid() && JoinedFrom(q.db, q.selected, q.Rels(), j) && DeliversRow(conv, q, j, raw, cells)
    requires |columns| == |cells| && NoDuplicates(cells)
    requires AllLabels(columns) && SplitAll(columns) == JoinRefs(q.db, q.base, q.Rels())
    ensures DecodedRow(conv, columns, cells, raw) == NestedRow(Segments(q.db, q.base, q.Rels(), j))
  {
    var segs := Segments(q.db, q.base, q.Rels(), j);
    ScansTo(conv, cells, raw, FlatRow(segs));
    SegmentsValid(q.db, q.base, q.selected, q.Rels(), j);
    RefsOfJoin(q.db, q.base, q.Rels(), j);
    DecodeFlatRow(segs);
  }

  lemma DeliveredDecodes(
    conv: Conversion, q: Query, joined: seq<Joined>, rs: ResultSet, columns: seq<string>, cells: seq<ScanCell>)
    requires q.Valid() && q.Produces(joined) && Delivers(conv, q, joined, rs, columns, cells)
    requires Completes(conv, rs, cells)
    ensures DecodedRows(conv, columns, cells, rs.rows) == q.Data(joined)
  {
    forall i | 0 <= i < |joined|
      ensures DecodedRows(conv, columns, cells, rs.rows)[i] == q.Data(joined)[i]
    {
      assert DeliversRow(conv, q, joined[i], rs.rows[i], cells);
      RowDecodes(conv, q, joined[i], rs.rows[i], columns, cells);
    }
  }

  /** All final records of a query. */
  ghost function AllFinal(env: Env, q: Query, joined: seq<Joined>): (records: seq<Record>)
    requires q.Valid() && q.Produces(joined)
    ensures |records| == |joined|
  {
    seq(|joined|, i requires 0 <= i < |joined| => Final(env, q, joined, i))
  }

  lemma FormattedIsFinal(env: Env, q: Query, joined: seq<Joined>)
    requires q.Valid() && q.Produces(joined)
    ensures FormattedAll(env, q.td, WithLists(q, joined)) == AllFinal(env, q, joined)
  {
  }

  lemma BaseLabelled(q: Query, columns: seq<string>)
    requires q.Valid() && AllLabels(columns) && SplitAll(columns) == JoinRefs(q.db, q.base, q.Rels())
    ensures Labels(columns, q.td.tableName)
    ensures NoSelfJoin(q.td.tableName, q.td.fields)
  {
    BaseInRefs(q.db, q.base, q.Rels());
    RelsKeys(q);
    forall f | f in q.td.fields && f.relationship.Some? ensures f.relationship.value.withTable != q.td.tableName {
      assert f in q.Rels();
    }
  }

  /** The joined rows with their lists, or `None` exactly when the query is not answered. */
  method QueryJoin(
    env: Env, conv: Conversion, ghost q: Query, ghost joined: seq<Joined>, table: string, rs: ResultSet,
    columns: seq<string>, cells: seq<ScanCell>)
    returns (results: Option<seq<Record>>)
    requires q.Valid() && q.Produces(joined) && Typed(env, q)
    requires table == q.td.tableName && Delivers(conv, q, joined, rs, columns, cells)
    modifies cells
    ensures results.Some? <==> Completes(conv, rs, cells)
    ensures results.Some? ==> results.value == WithLists(q, joined)
  {
    BaseLabelled(q, columns);
    results := QueryContextForNonOptionRoutes(conv, env.cfg, table, rs, columns, cells);
    if results.Some? {
      DeliveredDecodes(conv, q, joined, rs, columns, cells);
    }
  }

  lemma AllFormattable(env: Env, q: Query, joined: seq<Joined>, r: Record)
    requires q.Valid() && q.Produces(joined) && Typed(env, q) && r in WithLists(q, joined)
    ensures Formattable(env, r, q.td.tableName, q.td.fields)
  {
    var i :| 0 <= i < |joined| && WithLists(q, joined)[i] == r;
    ResultsFormattable(env, q, joined, i);
  }

  /** One record per joined row, each as the database determines it; an error exactly
      when the query is not answered. */
  method GetCollection(
    env: Env, conv: Conversion, ghost q: Query, ghost joined: seq<Joined>, table: string, rs: ResultSet,
    columns: seq<string>, cells: seq<ScanCell>)
    returns (response: Response)
    requires q.Valid() && q.Produces(joined) && Typed(env, q)
    requires table == q.td.tableName && Delivers(conv, q, joined, rs, columns, cells)
    modifies cells
    ensures response == if Completes(conv, rs, cells) then Records(AllFinal(env, q, joined)) else ServerError
  {
    var results := QueryJoin(env, conv, q, joined, table, rs, columns, cells);
    if results.None? { return ServerError; }
    forall r | r in results.value ensures Formattable(env, r, table, q.td.fields) {
      AllFormattable(env, q, joined, r);
    }
    response := CollectionFormat(env, results.value, table);
    FormattedIsFinal(env, q, joined);
  }

  /** The response to GetSingle, by the number of records. */
  function SingleResponse(records: seq<Record>): Response {
    if |records| == 0 then NotFound else if |records| == 1 then OneRecord(records[0]) else Records(records)
  }

  /** A 404 without a record, one object for one, and an array for more. */
  method GetSingle(
    env: Env, conv: Conversion, ghost q: Query, ghost joined: seq<Joined>, table: string, rs: ResultSet,
    columns: seq<string>, cells: seq<ScanCell>)
    returns (response: Response)
    requires q.Valid() && q.Produces(joined) && Typed(env, q)
    requires table == q.td.tableName && Delivers(conv, q, joined, rs, columns, cells)
    modifies cells
    ensures response == if Completes(conv, rs, cells) then SingleResponse(AllFinal(env, q, joined)) else ServerError
  {
    var results := QueryJoin(env, conv, q, joined, table, rs, columns, cells);
    if results.None? { return ServerError; }
    if |results.value| == 0 { return NotFound; }
    forall r | r in results.value ensures Formattable(env, r, table, q.td.fields) {
      AllFormattable(env, q, joined, r);
    }
    response := StandardFormat(env, results.value, table);
    FormattedIsFinal(env, q, joined);
  }

  lemma NothingSelected(q: Query, joined: seq<Joined>)
    requires q.Valid() && q.selected == [] && JoinOf(q, joined)
    ensures |joined| == 0
  {
    EmptyJoin(q.db, q.Rels());
    assert |multiset(joined)| == |joined|;
  }

  /** A resource that does not exist is a 404. One that does comes back as one object
      exactly when every relationship matches at most once; otherwise as an array. */
  lemma SingleShape(env: Env, q: Query, joined: seq<Joined>)
    requires q.Valid() && q.Produces(joined) && |q.selected| <= 1 && JoinOf(q, joined)
    ensures var response := SingleResponse(AllFinal(env, q, joined));
            if q.selected == [] then response == NotFound
            else response.OneRecord? == MatchedAtMostOnce(q.db, q.selected[0], q.Rels())
                 && (!response.OneRecord? ==> response.Records?)
  {
    if q.selected == [] {
      NothingSelected(q, joined);
    } else {
      assert q.selected == [q.selected[0]];
      JoinCovers(q, joined);
      FanOut(q.db, q.selected[0], q.Rels());
    }
  }
}
