/** From a result set to nested maps: the `table NUL column` labels
    (sqlBackend.go), the reused scan cells and the row decoder (db.go). */
module Decode {
  import opened Values
  import opened Descriptor

  // ----- labels -----

  const NUL: char := '\0'

  function Label(table: string, column: string): string {
    table + [NUL] + column
  }

  predicate IsLabel(l: string) { NUL in l }

  function IndexNul(s: string): (i: nat)
    requires NUL in s
    ensures i < |s| && s[i] == NUL && forall k :: 0 <= k < i ==> s[k] != NUL
  {
    if s[0] == NUL then 0 else 1 + IndexNul(s[1..])
  }

  /** A label taken apart: the table and the column it names. */
  datatype ColumnRef = ColumnRef(table: string, column: string)

  function Split(l: string): ColumnRef
    requires IsLabel(l)
  {
    ColumnRef(l[..IndexNul(l)], l[IndexNul(l) + 1..])
  }

  /** A label splits back into its parts, whatever bytes the column name holds. */
  lemma LabelSplits(table: string, column: string)
    requires NUL !in table
    ensures IsLabel(Label(table, column))
    ensures Split(Label(table, column)) == ColumnRef(table, column)
  {
    var l := Label(table, column);
    assert l[|table|] == NUL;
    assert l[..|table|] == table && l[|table| + 1..] == column;
    assert forall i :: 0 <= i < |table| ==> l[i] == table[i];
    assert IndexNul(l) == |table|;
  }

  function LabelAll(table: string, columns: seq<string>): (labels: seq<string>)
    ensures |labels| == |columns|
    ensures forall i :: 0 <= i < |columns| ==> labels[i] == Label(table, columns[i])
  {
    seq(|columns|, i requires 0 <= i < |columns| => Label(table, columns[i]))
  }

  method PrependTableNameToColumns(table: string, columns: seq<string>) returns (prepended: seq<string>)
    ensures prepended == LabelAll(table, columns)
  {
    prepended := [];
    for i := 0 to |columns|
      invariant prepended == LabelAll(table, columns[..i])
    {
      prepended := prepended + [Label(table, columns[i])];
    }
    assert columns[..|columns|] == columns;
  }

  /** How many columns the tables have together. */
  function Width(widths: map<string, nat>, tables: seq<string>): nat
    requires forall t :: t in tables ==> t in widths
  {
    if tables == [] then 0 else Width(widths, tables[..|tables| - 1]) + widths[tables[|tables| - 1]]
  }

  /** The table that column `i` of the join comes from. */
  function Owner(widths: map<string, nat>, tables: seq<string>, i: nat): string
    requires forall t :: t in tables ==> t in widths
    requires i < Width(widths, tables)
  {
    var n := |tables| - 1;
    if i >= Width(widths, tables[..n]) then tables[n] else Owner(widths, tables[..n], i)
  }

  /** The labels are those of the tables' columns, in place. */
  ghost predicate LabelledByOwner(
    labels: seq<string>, widths: map<string, nat>, tables: seq<string>, columns: seq<string>)
    requires forall t :: t in tables ==> t in widths
  {
    && |labels| == Width(widths, tables) <= |columns|
    && forall i :: 0 <= i < |labels| ==> labels[i] == Label(Owner(widths, tables, i), columns[i])
  }

  lemma LabelOneMore(
    labels: seq<string>, widths: map<string, nat>, tables: seq<string>, t: string, columns: seq<string>)
    requires forall u :: u in tables + [t] ==> u in widths
    requires forall u :: u in tables ==> u in widths
    requires LabelledByOwner(labels, widths, tables, columns)
    requires Width(widths, tables) + widths[t] <= |columns|
    ensures LabelledByOwner(labels + LabelAll(t, columns[|labels|..|labels| + widths[t]]),
                            widths, tables + [t], columns)
  {
  }

  /** One more table's columns labelled; there are enough columns for it. */
  lemma LabelNext(
    labels: seq<string>, widths: map<string, nat>, tables: seq<string>, k: nat, columns: seq<string>)
    requires forall t :: t in tables ==> t in widths
    requires k < |tables| && Width(widths, tables) <= |columns|
    requires LabelledByOwner(labels, widths, tables[..k], columns)
    ensures |labels| + widths[tables[k]] <= |columns|
    ensures LabelledByOwner(labels + LabelAll(tables[k], columns[|labels|..|labels| + widths[tables[k]]]),
                            widths, tables[..k + 1], columns)
  {
    NextWidth(widths, tables, k);
    LabelOneMore(labels, widths, tables[..k], tables[k], columns);
  }

  function WithTables(fields: seq<Field>): (tables: seq<string>)
    requires forall f :: f in fields ==> f.relationship.Some?
    ensures |tables| == |fields|
  {
    seq(|fields|, i requires 0 <= i < |fields| => fields[i].relationship.value.withTable)
  }

  /** Every column of a joined result is labelled exactly once, in place, with its
      owner. The widths of the schema may not exceed the columns that came back:
      slicing past the end is a run-time panic in the source. */
  method PrependTableNameToColumnsInJoinedTables(
    widths: map<string, nat>, table: string, fields: seq<Field>, columns: seq<string>)
    returns (prepended: seq<string>)
    requires forall f :: f in fields ==> f.relationship.Some?
    requires forall t :: t in [table] + WithTables(fields) ==> t in widths
    requires Width(widths, [table] + WithTables(fields)) <= |columns|
    ensures LabelledByOwner(prepended, widths, [table] + WithTables(fields), columns)
  {
    ghost var tables := [table] + WithTables(fields);
    LabelNext([], widths, tables, 0, columns);
    var currentColumnsIdx := widths[table];
    prepended := PrependTableNameToColumns(table, columns[..currentColumnsIdx]);
    assert [] + prepended == prepended;
    var previousTableIdx := currentColumnsIdx;
    for k := 0 to |fields|
      invariant previousTableIdx == |prepended|
      invariant LabelledByOwner(prepended, widths, tables[..k + 1], columns)
    {
      var thisTable := fields[k].relationship.value.withTable;
      ghost var n := k + 1;
      assert n < |tables| && tables[n] == thisTable;
      LabelNext(prepended, widths, tables, n, columns);
      var newTableIdx := previousTableIdx + widths[thisTable];
      var labelled := PrependTableNameToColumns(thisTable, columns[previousTableIdx..newTableIdx]);
      prepended := prepended + labelled;
      previousTableIdx := newTableIdx;
    }
    assert tables[..|fields| + 1] == tables;
  }

  /** The first tables and the next one together are no wider than all. */
  lemma NextWidth(widths: map<string, nat>, tables: seq<string>, k: nat)
    requires forall t :: t in tables ==> t in widths
    requires k < |tables|
    ensures tables[..k + 1] == tables[..k] + [tables[k]]
    ensures Width(widths, tables[..k]) + widths[tables[k]] <= Width(widths, tables)
  {
    assert tables[..k + 1] == tables[..k] + [tables[k]];
    WidthPrefix(widths, tables, k + 1);
    WidthLast(widths, tables[..k], tables[k]);
  }

  lemma WidthLast(widths: map<string, nat>, tables: seq<string>, t: string)
    requires forall u :: u in tables + [t] ==> u in widths
    requires forall u :: u in tables ==> u in widths
    ensures Width(widths, tables + [t]) == Width(widths, tables) + widths[t]
  {
  }

  lemma {:induction false} WidthPrefix(widths: map<string, nat>, tables: seq<string>, k: nat)
    requires forall t :: t in tables ==> t in widths
    requires k <= |tables|
    ensures Width(widths, tables[..k]) <= Width(widths, tables)
  {
    if k == |tables| {
      assert tables[..k] == tables;
    } else {
      var n := |tables| - 1;
      assert tables[..n][..k] == tables[..k];
      WidthPrefix(widths, tables[..n], k);
    }
  }

  // ----- decoding one row of values -----

  predicate AllLabels(labels: seq<string>) { forall l :: l in labels ==> IsLabel(l) }

  function SplitAll(labels: seq<string>): (refs: seq<ColumnRef>)
    requires AllLabels(labels)
    ensures |refs| == |labels|
  {
    seq(|labels|, i requires 0 <= i < |labels| => Split(labels[i]))
  }

  function Columns(refs: seq<ColumnRef>): (columns: seq<string>)
    ensures |columns| == |refs|
  {
    seq(|refs|, i requires 0 <= i < |refs| => refs[i].column)
  }

  /** The nested map of one row. A table's map is started afresh whenever the
      table differs from that of the previous label. */
  function DecodeRow(refs: seq<ColumnRef>, vals: seq<Value>): (result: Record)
    requires |refs| == |vals|
    ensures refs != [] ==> refs[|refs| - 1].table in result && result[refs[|refs| - 1].table].Map?
  {
    if refs == [] then map[]
    else
      var n := |refs| - 1;
      var t := refs[n].table;
      var before := DecodeRow(refs[..n], vals[..n]);
      var tableResult := if n > 0 && refs[n - 1].table == t then before[t].m else map[];
      before[t := Map(tableResult[refs[n].column := vals[n]])]
  }

  lemma DecodeLast(refs: seq<ColumnRef>, vals: seq<Value>)
    requires |refs| == |vals| > 0
    ensures var n := |refs| - 1;
            var before := DecodeRow(refs[..n], vals[..n]);
            DecodeRow(refs, vals) == before[refs[n].table := Map(
              (if n > 0 && refs[n - 1].table == refs[n].table then before[refs[n].table].m else map[])
              [refs[n].column := vals[n]])]
  {
  }

  /** The decoder's variables after `n` columns. */
  ghost predicate Decoding(
    refs: seq<ColumnRef>, vals: seq<Value>, n: nat, result: Record, tableResult: Record, previous: string)
  {
    && |refs| == |vals| && n <= |refs|
    && result == DecodeRow(refs[..n], vals[..n])
    && (if n == 0 then previous == "" && tableResult == map[]
        else previous == refs[n - 1].table && result[previous] == Map(tableResult))
  }

  lemma DecodingStep(
    refs: seq<ColumnRef>, vals: seq<Value>, n: nat, result: Record, tableResult: Record, previous: string)
    requires Decoding(refs, vals, n, result, tableResult, previous) && n < |refs|
    ensures var tableResult' := (if refs[n].table != previous then map[] else tableResult)[refs[n].column := vals[n]];
            Decoding(refs, vals, n + 1, result[refs[n].table := Map(tableResult')], tableResult', refs[n].table)
  {
    assert refs[..n + 1][..n] == refs[..n] && vals[..n + 1][..n] == vals[..n];
    DecodeLast(refs[..n + 1], vals[..n + 1]);
  }

  /** A trailing run of one table's columns replaces that table's map and nothing else. */
  lemma {:induction false} DecodeTrailingRun(refs: seq<ColumnRef>, vals: seq<Value>, a: nat, t: string)
    requires |refs| == |vals| && a < |refs|
    requires forall i :: a <= i < |refs| ==> refs[i].table == t
    requires a > 0 ==> refs[a - 1].table != t
    ensures DecodeRow(refs, vals)
         == DecodeRow(refs[..a], vals[..a])[t := Map(Zip(Columns(refs[a..]), vals[a..]))]
  {
    var n := |refs| - 1;
    DecodeLast(refs, vals);
    RunLast(refs, vals, a);
    if a < n {
      DecodeTrailingRun(refs[..n], vals[..n], a, t);
      TakeTake(refs, n, a);
      TakeTake(vals, n, a);
      Overwritten(DecodeRow(refs[..a], vals[..a]), t,
                  Map(Zip(Columns(refs[..n][a..]), vals[..n][a..])), Map(Zip(Columns(refs[a..]), vals[a..])));
    }
  }

  lemma RunLast(refs: seq<ColumnRef>, vals: seq<Value>, a: nat)
    requires |refs| == |vals| && a < |refs|
    ensures var n := |refs| - 1;
            Zip(Columns(refs[a..]), vals[a..])
            == (if a < n then Zip(Columns(refs[..n][a..]), vals[..n][a..]) else map[])[refs[n].column := vals[n]]
  {
    var n, cs, vs := |refs| - 1, Columns(refs[a..]), vals[a..];
    ZipLast(cs, vs);
    assert cs[n - a] == refs[n].column && vs[n - a] == vals[n];
    assert cs[..n - a] == Columns(refs[..n][a..]);
    assert vs[..n - a] == vals[..n][a..];
  }

  lemma DecodeRun(
    refs: seq<ColumnRef>, vals: seq<Value>, run: seq<ColumnRef>, runVals: seq<Value>, t: string)
    requires |refs| == |vals| && |run| == |runVals| > 0
    requires forall i :: 0 <= i < |run| ==> run[i].table == t
    requires refs == [] || refs[|refs| - 1].table != t
    ensures DecodeRow(refs + run, vals + runVals)
         == DecodeRow(refs, vals)[t := Map(Zip(Columns(run), runVals))]
  {
    DecodeTrailingRun(refs + run, vals + runVals, |refs|, t);
    assert (refs + run)[..|refs|] == refs && (refs + run)[|refs|..] == run;
    assert (vals + runVals)[..|refs|] == vals && (vals + runVals)[|refs|..] == runVals;
  }

  /** Columns of other tables leave a table's map alone. */
  lemma {:induction false} DecodeOther(refs: seq<ColumnRef>, vals: seq<Value>, b: nat, t: string)
    requires |refs| == |vals|
    requires b <= |refs|
    requires forall i :: b <= i < |refs| ==> refs[i].table != t
    requires t in DecodeRow(refs[..b], vals[..b])
    ensures t in DecodeRow(refs, vals)
    ensures DecodeRow(refs, vals)[t] == DecodeRow(refs[..b], vals[..b])[t]
  {
    if b == |refs| {
      assert refs[..b] == refs && vals[..b] == vals;
    } else {
      var n := |refs| - 1;
      assert refs[..n][..b] == refs[..b] && vals[..n][..b] == vals[..b];
      DecodeOther(refs[..n], vals[..n], b, t);
    }
  }

  /** For any sequence of labels: a table's map is made by the last maximal run of
      that table's labels alone, the last write to a column winning. */
  lemma LastRunWins(refs: seq<ColumnRef>, vals: seq<Value>, t: string, a: nat, b: nat)
    requires |refs| == |vals|
    requires a < b <= |refs|
    requires forall i :: a <= i < b ==> refs[i].table == t
    requires forall i :: b <= i < |refs| ==> refs[i].table != t
    requires a > 0 ==> refs[a - 1].table != t
    ensures t in DecodeRow(refs, vals)
    ensures DecodeRow(refs, vals)[t] == Map(Zip(Columns(refs[a..b]), vals[a..b]))
  {
    DecodeTrailingRun(refs[..b], vals[..b], a, t);
    assert refs[..b][a..] == refs[a..b];
    assert vals[..b][a..] == vals[a..b];
    DecodeOther(refs, vals, b, t);
  }

  /** A cell of the nested map. */
  predicate HasCell(result: Record, ref: ColumnRef) {
    ref.table in result && result[ref.table].Map? && ref.column in result[ref.table].m
  }

  function CellAt(result: Record, ref: ColumnRef): Value
    requires HasCell(result, ref)
  {
    result[ref.table].m[ref.column]
  }

  /** From column `i` on, no other table's column stands before one of its table. */
  ghost predicate InLastRun(refs: seq<ColumnRef>, i: nat)
    requires i < |refs|
  {
    forall j, k :: i < j < k < |refs| && refs[k].table == refs[i].table ==> refs[j].table == refs[i].table
  }

  /** With distinct labels, a column's own value stands under its table and column,
      if and only if its table does not come again after another one. */
  lemma {:induction false} DecodedCell(refs: seq<ColumnRef>, vals: seq<Value>, i: nat)
    requires |refs| == |vals| && i < |refs| && NoDuplicates(refs)
    ensures refs[i].table in DecodeRow(refs, vals)
    ensures HasCell(DecodeRow(refs, vals), refs[i]) <==> InLastRun(refs, i)
    ensures InLastRun(refs, i) ==> CellAt(DecodeRow(refs, vals), refs[i]) == vals[i]
  {
    var n := |refs| - 1;
    DecodeLast(refs, vals);
    if i < n {
      DecodedCell(refs[..n], vals[..n], i);
      LastRunNext(refs, i, n);
      assert refs[i] != refs[n];
    }
  }

  lemma LastRunNext(refs: seq<ColumnRef>, i: nat, n: nat)
    requires |refs| == n + 1 && i < n
    ensures InLastRun(refs, i) <==>
              InLastRun(refs[..n], i) && (refs[n].table == refs[i].table ==> refs[n - 1].table == refs[i].table)
  {
    if i < n - 1 && InLastRun(refs, i) {
      assert refs[n].table == refs[i].table ==> refs[n - 1].table == refs[i].table;
    }
    if InLastRun(refs[..n], i) && refs[n].table == refs[i].table == refs[n - 1].table {
      forall j | i < j < n ensures refs[j].table == refs[i].table {
        assert j == n - 1 || refs[..n][n - 1].table == refs[..n][i].table;
      }
    }
  }

  /** Nothing but the labelled cells. */
  lemma {:induction false} DecodedOnly(refs: seq<ColumnRef>, vals: seq<Value>)
    requires |refs| == |vals|
    ensures forall t :: t in DecodeRow(refs, vals) ==> DecodeRow(refs, vals)[t].Map?
    ensures forall ref :: HasCell(DecodeRow(refs, vals), ref) ==> ref in refs
  {
    if refs != [] {
      var n := |refs| - 1;
      DecodedOnly(refs[..n], vals[..n]);
      DecodeLast(refs, vals);
      forall ref | HasCell(DecodeRow(refs, vals), ref) ensures ref in refs {
        InSnoc(refs, ref);
        if ref != refs[n] { assert HasCell(DecodeRow(refs[..n], vals[..n]), ref); }
      }
    }
  }

  /** The cells of a nested row. */
  ghost predicate HoldsCells(refs: seq<ColumnRef>, vals: seq<Value>, result: Record)
    requires |refs| == |vals|
  {
    && (forall ref :: HasCell(result, ref) ==> ref in refs)
    && forall i :: 0 <= i < |refs| ==>
         && (HasCell(result, refs[i]) <==> InLastRun(refs, i))
         && (HasCell(result, refs[i]) ==> CellAt(result, refs[i]) == vals[i])
  }

  lemma DecodedCells(refs: seq<ColumnRef>, vals: seq<Value>)
    requires |refs| == |vals| && NoDuplicates(refs)
    ensures HoldsCells(refs, vals, DecodeRow(refs, vals))
  {
    DecodedOnly(refs, vals);
    forall i | 0 <= i < |refs|
      ensures HasCell(DecodeRow(refs, vals), refs[i]) <==> InLastRun(refs, i)
      ensures HasCell(DecodeRow(refs, vals), refs[i]) ==> CellAt(DecodeRow(refs, vals), refs[i]) == vals[i]
    {
      DecodedCell(refs, vals, i);
    }
  }

  // ----- scan cells -----

  /** The nullable scan targets of `database/sql` and util.go. */
  datatype Kind = NullBool | NullString | NullInt64 | NullFloat64 | NullTime

  /** How `database/sql` converts a driver value that is not nil for a scan target;
      `None` is a scan error. */
  type Conversion = (Kind, Value) -> Option<Value>

  /** What a scan target of a kind holds after scanning a driver value. `NullTime`
      never fails: anything but a time reads as NULL. */
  function Scanned(conv: Conversion, kind: Kind, raw: Value): Option<Value> {
    if kind.NullTime? then Some(if raw.Time? then raw else Nil)
    else if raw.Nil? then Some(Nil)
    else conv(kind, raw)
  }

  /** The driver's value can be read into a scan target of the kind. */
  predicate Accepts(conv: Conversion, kind: Kind, raw: Value) {
    kind.NullTime? || raw.Nil? || conv(kind, raw).Some?
  }

  /** `v` is what the driver's value is read as: NULL, or what it converts to; by
      `NullTime` the time itself. */
  predicate ReadsAs(conv: Conversion, kind: Kind, raw: Value, v: Value) {
    if kind.NullTime? then v == (if raw.Time? then raw else Nil)
    else if raw.Nil? then v == Nil
    else conv(kind, raw) == Some(v)
  }

  class ScanCell {
    const kind: Kind
    var content: Value

    constructor (kind: Kind)
      ensures this.kind == kind && content == Nil
    {
      this.kind, content := kind, Nil;
    }
  }

  predicate Scannable(conv: Conversion, cells: seq<ScanCell>, raw: seq<Value>) {
    |cells| == |raw| && forall i :: 0 <= i < |cells| ==> Accepts(conv, cells[i].kind, raw[i])
  }

  /** The last position at which a cell is handed to the scanner. */
  function LastUse(cells: seq<ScanCell>, c: ScanCell): (j: nat)
    requires c in cells
    ensures j < |cells| && cells[j] == c
    ensures forall k :: j < k < |cells| ==> cells[k] != c
  {
    var n := |cells| - 1;
    if cells[n] == c then n else LastUse(cells[..n], c)
  }

  /** The values read out of the cells after one scan: a cell handed over more
      than once shows the last value written to it everywhere. */
  function ScanResult(conv: Conversion, cells: seq<ScanCell>, raw: seq<Value>): (vals: seq<Value>)
    requires Scannable(conv, cells, raw)
    ensures |vals| == |cells|
    ensures forall i :: 0 <= i < |cells| ==>
              ReadsAs(conv, cells[i].kind, raw[LastUse(cells, cells[i])], vals[i])
  {
    seq(|cells|, i requires 0 <= i < |cells| => Scanned(conv, cells[i].kind, raw[LastUse(cells, cells[i])]).value)
  }

  /** What each column would read as had it a cell of its own. */
  function Independent(conv: Conversion, cells: seq<ScanCell>, raw: seq<Value>): (vals: seq<Value>)
    requires Scannable(conv, cells, raw)
    ensures |vals| == |cells|
    ensures forall i :: 0 <= i < |cells| ==> ReadsAs(conv, cells[i].kind, raw[i], vals[i])
  {
    seq(|cells|, i requires 0 <= i < |cells| => Scanned(conv, cells[i].kind, raw[i]).value)
  }

  /** Sharing a cell between columns is invisible exactly when the sharing
      columns scan to equal values. */
  lemma SharingInvisible(conv: Conversion, cells: seq<ScanCell>, raw: seq<Value>)
    requires Scannable(conv, cells, raw)
    ensures ScanResult(conv, cells, raw) == Independent(conv, cells, raw)
       <==> forall i, j :: 0 <= i < j < |cells| && cells[i] == cells[j] ==>
              Scanned(conv, cells[i].kind, raw[i]) == Scanned(conv, cells[j].kind, raw[j])
  {
    if ScanResult(conv, cells, raw) == Independent(conv, cells, raw) {
      forall i, j | 0 <= i < j < |cells| && cells[i] == cells[j]
        ensures Scanned(conv, cells[i].kind, raw[i]) == Scanned(conv, cells[j].kind, raw[j])
      {
        assert ScanResult(conv, cells, raw)[i] == Independent(conv, cells, raw)[i];
        assert ScanResult(conv, cells, raw)[j] == Independent(conv, cells, raw)[j];
      }
    } else {
      var i :| 0 <= i < |cells| && ScanResult(conv, cells, raw)[i] != Independent(conv, cells, raw)[i];
      assert i < LastUse(cells, cells[i]);
    }
  }

  /** Into cells that are not shared, a row is scanned as what its values are read as. */
  lemma ScansTo(conv: Conversion, cells: seq<ScanCell>, raw: seq<Value>, row: seq<Value>)
    requires |cells| == |raw| == |row| && NoDuplicates(cells)
    requires forall i :: 0 <= i < |row| ==> ReadsAs(conv, cells[i].kind, raw[i], row[i])
    ensures Scannable(conv, cells, raw) && ScanResult(conv, cells, raw) == row
  {
    forall i | 0 <= i < |cells| ensures Accepts(conv, cells[i].kind, raw[i]) {
      assert ReadsAs(conv, cells[i].kind, raw[i], row[i]);
    }
    forall i | 0 <= i < |cells| ensures ScanResult(conv, cells, raw)[i] == row[i] {
      assert LastUse(cells, cells[i]) == i;
    }
  }

  lemma LastUseExtends(cells: seq<ScanCell>, n: nat, i: nat)
    requires i <= n < |cells|
    ensures LastUse(cells[..n + 1], cells[i])
         == if cells[i] == cells[n] then n else LastUse(cells[..n], cells[i])
  {
    assert cells[..n + 1][i] == cells[i] && cells[..n + 1][..n] == cells[..n];
    if cells[i] != cells[n] { assert cells[..n][i] == cells[i]; }
  }

  /** After `n` scans, cell `i` holds the value last written to it. */
  ghost predicate HoldsLast(conv: Conversion, cells: seq<ScanCell>, raw: seq<Value>, n: nat, i: nat)
    requires i < n <= |cells| == |raw|
    reads cells[i]
  {
    assert cells[..n][i] == cells[i];
    Scanned(conv, cells[i].kind, raw[LastUse(cells[..n], cells[i])]) == Some(cells[i].content)
  }

  method Scan(conv: Conversion, cells: seq<ScanCell>, raw: seq<Value>) returns (ok: bool)
    modifies cells
    ensures ok == Scannable(conv, cells, raw)
    ensures ok ==> forall i :: 0 <= i < |cells| ==> cells[i].content == ScanResult(conv, cells, raw)[i]
    ensures ok ==> forall i :: 0 <= i < |cells| ==>
              ReadsAs(conv, cells[i].kind, raw[LastUse(cells, cells[i])], cells[i].content)
  {
    if |cells| != |raw| { return false; }
    for n := 0 to |cells|
      invariant forall i :: 0 <= i < n ==> Accepts(conv, cells[i].kind, raw[i])
      invariant forall i :: 0 <= i < n ==> HoldsLast(conv, cells, raw, n, i)
    {
      var v := Scanned(conv, cells[n].kind, raw[n]);
      if v.None? { return false; }
      label before:
      cells[n].content := v.value;
      var done := n + 1;
      forall i | 0 <= i < done ensures HoldsLast(conv, cells, raw, done, i) {
        LastUseExtends(cells, n, i);
        assert i < n ==> old@before(HoldsLast(conv, cells, raw, n, i));
      }
    }
    forall i | 0 <= i < |cells| ensures cells[i].content == ScanResult(conv, cells, raw)[i] {
      assert HoldsLast(conv, cells, raw, |cells|, i);
      assert cells[..|cells|] == cells;
    }
    return true;
  }

  /** What one row of the result set becomes. */
  function DecodedRow(conv: Conversion, columns: seq<string>, cells: seq<ScanCell>, raw: seq<Value>): Record
    requires |columns| == |cells| && AllLabels(columns) && Scannable(conv, cells, raw)
  {
    DecodeRow(SplitAll(columns), ScanResult(conv, cells, raw))
  }

  /** The result holds, for each column whose table does not come again after another
      one, what the row's own value is read as, and nothing else. */
  ghost predicate HoldsOwnCells(
    conv: Conversion, columns: seq<string>, cells: seq<ScanCell>, raw: seq<Value>, result: Record)
    requires |columns| == |cells| == |raw| && AllLabels(columns)
  {
    exists vals: seq<Value> ::
      && |vals| == |raw| && HoldsCells(SplitAll(columns), vals, result)
      && forall i :: 0 <= i < |raw| ==> ReadsAs(conv, cells[i].kind, raw[i], vals[i])
  }

  lemma RowHoldsOwnCells(conv: Conversion, columns: seq<string>, cells: seq<ScanCell>, raw: seq<Value>)
    requires |columns| == |cells| && AllLabels(columns) && Scannable(conv, cells, raw)
    requires NoDuplicates(cells) && NoDuplicates(SplitAll(columns))
    ensures HoldsOwnCells(conv, columns, cells, raw, DecodedRow(conv, columns, cells, raw))
  {
    forall i | 0 <= i < |cells|
      ensures ReadsAs(conv, cells[i].kind, raw[i], ScanResult(conv, cells, raw)[i])
    {
      OwnCell(conv, cells, raw, i);
    }
    DecodedCells(SplitAll(columns), ScanResult(conv, cells, raw));
  }

  lemma OwnCell(conv: Conversion, cells: seq<ScanCell>, raw: seq<Value>, i: nat)
    requires Scannable(conv, cells, raw) && NoDuplicates(cells) && i < |cells|
    ensures ReadsAs(conv, cells[i].kind, raw[i], ScanResult(conv, cells, raw)[i])
  {
    assert LastUse(cells, cells[i]) == i;
  }

  method ProcessRow(conv: Conversion, raw: seq<Value>, columns: seq<string>, cells: seq<ScanCell>)
    returns (result: Option<Record>)
    requires |columns| == |cells| && AllLabels(columns)
    modifies cells
    ensures result.Some? == Scannable(conv, cells, raw)
    ensures result.Some? ==> result.value == DecodedRow(conv, columns, cells, raw)
  {
    var ok := Scan(conv, cells, raw);
    if !ok { return None; }
    ghost var refs, vals := SplitAll(columns), ScanResult(conv, cells, raw);
    var nested: Record, tableResult: Record, previous := map[], map[], "";
    for i := 0 to |columns|
      invariant forall k :: 0 <= k < |cells| ==> cells[k].content == vals[k]
      invariant Decoding(refs, vals, i, nested, tableResult, previous)
    {
      DecodingStep(refs, vals, i, nested, tableResult, previous);
      var ref := Split(columns[i]);
      if ref.table != previous {
        tableResult := map[];
      }
      // every kind of cell stores its value, or nil when it is NULL
      tableResult := tableResult[ref.column := cells[i].content];
      nested := nested[ref.table := Map(tableResult)];
      previous := ref.table;
    }
    assert refs[..|refs|] == refs && vals[..|refs|] == vals;
    return Some(nested);
  }

  /** A result set: its rows, and whether iterating over it ended in an error. */
  datatype ResultSet = ResultSet(rows: seq<seq<Value>>, failed: bool)

  /** All rows pass through the same cells, yet row `r` of the results depends on
      row `r` of the result set alone. One bad row fails the whole query. */
  method RowsToResults(conv: Conversion, rs: ResultSet, columns: seq<string>, cells: seq<ScanCell>)
    returns (results: Option<seq<Record>>)
    requires |columns| == |cells| && AllLabels(columns)
    modifies cells
    ensures results.Some? <==> !rs.failed && forall r :: 0 <= r < |rs.rows| ==> Scannable(conv, cells, rs.rows[r])
    ensures results.Some? ==>
              && |results.value| == |rs.rows|
              && forall r :: 0 <= r < |rs.rows| ==>
                   results.value[r] == DecodedRow(conv, columns, cells, rs.rows[r])
    ensures results.Some? && NoDuplicates(cells) && NoDuplicates(SplitAll(columns)) ==>
              forall r :: 0 <= r < |rs.rows| ==> HoldsOwnCells(conv, columns, cells, rs.rows[r], results.value[r])
  {
    var acc: seq<Record> := [];
    for n := 0 to |rs.rows|
      invariant |acc| == n
      invariant forall r :: 0 <= r < n ==> Scannable(conv, cells, rs.rows[r])
      invariant forall r :: 0 <= r < n ==> acc[r] == DecodedRow(conv, columns, cells, rs.rows[r])
    {
      var result := ProcessRow(conv, rs.rows[n], columns, cells);
      if result.None? { return None; }
      acc := acc + [result.value];
    }
    if rs.failed { return None; }
    if NoDuplicates(cells) && NoDuplicates(SplitAll(columns)) {
      forall r | 0 <= r < |rs.rows| ensures HoldsOwnCells(conv, columns, cells, rs.rows[r], acc[r]) {
        RowHoldsOwnCells(conv, columns, cells, rs.rows[r]);
      }
    }
    return Some(acc);
  }
}
