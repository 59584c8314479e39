/** The database side: tables, the nested LEFT JOIN of the GetSingle and
    GetCollection templates, and what its rows decode to. */
module Join {
  import opened Values
  import opened Descriptor
  import opened Decode
  import opened Deduplicate

  /** `blank` is what the driver delivers for the table's columns when a LEFT JOIN
      finds no match: nil, or an empty string where the driver has no NULL text. */
  datatype Table = Table(name: string, columns: seq<string>, rows: seq<Record>, blank: Record)

  ghost predicate RowOf(t: Table, r: Record) {
    r.Keys == set c | c in t.columns
  }

  ghost predicate ValidTable(t: Table) {
    && t.columns != [] && NUL !in t.name
    && (forall r :: r in t.rows ==> RowOf(t, r))
    && RowOf(t, t.blank) && !HasContent(t.blank)
  }

  type Database = map<string, Table>

  predicate HasTable(db: Database, f: Field) {
    f.relationship.Some? && f.relationship.value.withTable in db
  }

  predicate Known(db: Database, rels: seq<Field>) {
    forall k :: 0 <= k < |rels| ==> HasTable(db, rels[k])
  }

  function Related(db: Database, f: Field): Table
    requires HasTable(db, f)
  {
    db[f.relationship.value.withTable]
  }

  /** A base table and relationships of its type descriptor, over distinct tables. */
  ghost predicate ValidQuery(db: Database, base: Table, rels: seq<Field>) {
    && ValidTable(base)
    && Known(db, rels)
    && (forall k :: 0 <= k < |rels| ==>
          && ValidTable(Related(db, rels[k]))
          && Related(db, rels[k]).name == rels[k].relationship.value.withTable != base.name)
    && (forall i, j :: 0 <= i < j < |rels| ==> Related(db, rels[i]).name != Related(db, rels[j]).name)
  }

  // ----- LEFT JOIN -----

  /** The rows whose foreign column equals the local value; NULL equals nothing. */
  function Matching(rows: seq<Record>, foreign: string, v: Value): (m: seq<Record>)
    ensures forall r :: r in m <==> r in rows && v != Nil && At(r, foreign) == v
  {
    if rows == [] then []
    else
      var n := |rows| - 1;
      assert rows == rows[..n] + [rows[n]];
      Matching(rows[..n], foreign, v) + (if v != Nil && At(rows[n], foreign) == v then [rows[n]] else [])
  }

  lemma {:induction false} NullMatchesNothing(rows: seq<Record>, foreign: string)
    ensures |Matching(rows, foreign, Nil)| == 0
  {
    if rows != [] {
      NullMatchesNothing(rows[..|rows| - 1], foreign);
    }
  }

  function Matches(db: Database, f: Field, b: Record): seq<Record>
    requires HasTable(db, f)
  {
    var rel := f.relationship.value;
    Matching(Related(db, f).rows, rel.foreignColumn, At(b, rel.localColumn))
  }

  /** A row of the join: a base row and, per relationship, its match if it has any. */
  datatype Joined = Joined(base: Record, related: seq<Option<Record>>)

  function ExpandOne(matches: seq<Record>, j: Joined): (r: seq<Joined>)
    ensures |r| == if matches == [] then 1 else |matches|
  {
    if matches == [] then [j.(related := j.related + [None])]
    else seq(|matches|, i requires 0 <= i < |matches| => j.(related := j.related + [Some(matches[i])]))
  }

  function Expand(db: Database, f: Field, rows: seq<Joined>): seq<Joined>
    requires HasTable(db, f)
  {
    if rows == [] then []
    else
      var n := |rows| - 1;
      Expand(db, f, rows[..n]) + ExpandOne(Matches(db, f, rows[n].base), rows[n])
  }

  /** `bases LEFT JOIN t1 ON .. LEFT JOIN t2 ON ..`, every ON naming the base table. */
  function LeftJoin(db: Database, bases: seq<Record>, rels: seq<Field>): seq<Joined>
    requires Known(db, rels)
  {
    if rels == [] then seq(|bases|, i requires 0 <= i < |bases| => Joined(bases[i], []))
    else Expand(db, rels[|rels| - 1], LeftJoin(db, bases, rels[..|rels| - 1]))
  }

  predicate Choice(matches: seq<Record>, o: Option<Record>) {
    if o.None? then matches == [] else o.value in matches
  }

  ghost predicate JoinedFrom(db: Database, bases: seq<Record>, rels: seq<Field>, j: Joined)
    requires Known(db, rels)
  {
    && j.base in bases
    && |j.related| == |rels|
    && forall k :: 0 <= k < |rels| ==> Choice(Matches(db, rels[k], j.base), j.related[k])
  }

  lemma {:induction false} ExpandMembers(db: Database, f: Field, rows: seq<Joined>, j: Joined)
    requires HasTable(db, f)
    ensures j in Expand(db, f, rows) <==>
              && |j.related| > 0
              && Shorter(j) in rows
              && Choice(Matches(db, f, j.base), j.related[|j.related| - 1])
  {
    if rows != [] {
      var n := |rows| - 1;
      ExpandMembers(db, f, rows[..n], j);
      ExpandOneMembers(Matches(db, f, rows[n].base), rows[n], j);
      if |j.related| > 0 { InSnoc(rows, Shorter(j)); }
    }
  }

  lemma ExpandOneMembers(matches: seq<Record>, row: Joined, j: Joined)
    ensures j in ExpandOne(matches, row) <==>
              && |j.related| > 0
              && Shorter(j) == row
              && Choice(matches, j.related[|j.related| - 1])
  {
    if |j.related| > 0 && Shorter(j) == row {
      var last := j.related[|j.related| - 1];
      assert j.related == row.related + [last];
      if last.Some? && last.value in matches {
        var i :| 0 <= i < |matches| && matches[i] == last.value;
        assert ExpandOne(matches, row)[i] == j;
      }
      if last.None? && matches == [] {
        assert ExpandOne(matches, row)[0] == j;
      }
    }
    if j in ExpandOne(matches, row) {
      var i :| 0 <= i < |ExpandOne(matches, row)| && ExpandOne(matches, row)[i] == j;
      assert j.related[..|j.related| - 1] == row.related;
    }
  }

  /** The same row before the last join. */
  function Shorter(j: Joined): Joined
    requires |j.related| > 0
  {
    j.(related := j.related[..|j.related| - 1])
  }

  lemma JoinedFromShorter(db: Database, bases: seq<Record>, rels: seq<Field>, j: Joined)
    requires Known(db, rels) && rels != []
    ensures JoinedFrom(db, bases, rels, j) <==>
              && |j.related| > 0
              && JoinedFrom(db, bases, rels[..|rels| - 1], Shorter(j))
              && Choice(Matches(db, rels[|rels| - 1], j.base), j.related[|j.related| - 1])
  {
  }

  /** The join holds exactly the combinations of one base row with, per
      relationship, one of its matches, or none when it has none. */
  lemma {:induction false} JoinMembers(db: Database, bases: seq<Record>, rels: seq<Field>, j: Joined)
    requires Known(db, rels)
    ensures j in LeftJoin(db, bases, rels) <==> JoinedFrom(db, bases, rels, j)
  {
    if rels == [] {
      if j.base in bases && j.related == [] {
        var i :| 0 <= i < |bases| && bases[i] == j.base;
        assert LeftJoin(db, bases, rels)[i] == j;
      }
    } else {
      var n := |rels| - 1;
      ExpandMembers(db, rels[n], LeftJoin(db, bases, rels[..n]), j);
      JoinedFromShorter(db, bases, rels, j);
      if |j.related| > 0 {
        JoinMembers(db, bases, rels[..n], Shorter(j));
      }
    }
  }

  lemma {:induction false} ExpandLength(db: Database, f: Field, rows: seq<Joined>, b: Record)
    requires HasTable(db, f)
    requires forall i :: 0 <= i < |rows| ==> rows[i].base == b
    ensures |Expand(db, f, rows)| >= |rows|
    ensures rows != [] ==> (|Expand(db, f, rows)| == 1 <==> |rows| == 1 && |Matches(db, f, b)| <= 1)
  {
    if rows != [] {
      var n := |rows| - 1;
      ExpandLength(db, f, rows[..n], b);
      assert |Expand(db, f, rows)| == |Expand(db, f, rows[..n])| + |ExpandOne(Matches(db, f, b), rows[n])|;
      assert n == 0 ==> |Expand(db, f, rows[..n])| == 0;
    }
  }

  lemma {:induction false} EmptyJoin(db: Database, rels: seq<Field>)
    requires Known(db, rels)
    ensures LeftJoin(db, [], rels) == []
  {
    if rels != [] {
      EmptyJoin(db, rels[..|rels| - 1]);
    }
  }

  ghost predicate MatchedAtMostOnce(db: Database, b: Record, rels: seq<Field>)
    requires Known(db, rels)
  {
    forall k :: 0 <= k < |rels| ==> |Matches(db, rels[k], b)| <= 1
  }

  lemma AtMostOnceShorter(db: Database, b: Record, rels: seq<Field>)
    requires Known(db, rels) && rels != []
    ensures var n := |rels| - 1;
            MatchedAtMostOnce(db, b, rels) <==>
            MatchedAtMostOnce(db, b, rels[..n]) && |Matches(db, rels[n], b)| <= 1
  {
  }

  lemma BaseOfJoined(db: Database, b: Record, rels: seq<Field>)
    requires Known(db, rels)
    ensures forall i :: 0 <= i < |LeftJoin(db, [b], rels)| ==> LeftJoin(db, [b], rels)[i].base == b
  {
    var all := LeftJoin(db, [b], rels);
    forall i | 0 <= i < |all| ensures all[i].base == b {
      assert all[i] in all;
      JoinMembers(db, [b], rels, all[i]);
    }
  }

  /** One base row gives one joined row exactly when no relationship matches twice. */
  lemma {:induction false} FanOut(db: Database, b: Record, rels: seq<Field>)
    requires Known(db, rels)
    ensures |LeftJoin(db, [b], rels)| >= 1
    ensures |LeftJoin(db, [b], rels)| == 1 <==> MatchedAtMostOnce(db, b, rels)
  {
    if rels != [] {
      var n := |rels| - 1;
      var init := rels[..n];
      FanOut(db, b, init);
      BaseOfJoined(db, b, init);
      ExpandLength(db, rels[n], LeftJoin(db, [b], init), b);
      AtMostOnceShorter(db, b, rels);
    }
  }

  // ----- the joined result set -----

  /** What one table contributes to a joined row. */
  datatype Segment = Segment(table: string, columns: seq<string>, record: Record)

  /** `SELECT *`: the base table's segment, then that of each joined table. */
  function Segments(db: Database, base: Table, rels: seq<Field>, j: Joined): (segs: seq<Segment>)
    requires Known(db, rels) && |j.related| == |rels|
    ensures |segs| == |rels| + 1
  {
    [Segment(base.name, base.columns, j.base)]
    + seq(|rels|, k requires 0 <= k < |rels| =>
        var t := Related(db, rels[k]);
        Segment(t.name, t.columns, if j.related[k].Some? then j.related[k].value else t.blank))
  }

  ghost predicate ValidSegments(segs: seq<Segment>) {
    && (forall k :: 0 <= k < |segs| ==>
          && segs[k].columns != [] && NUL !in segs[k].table
          && segs[k].record.Keys == set c | c in segs[k].columns)
    && (forall i, k :: 0 <= i < k < |segs| ==> segs[i].table != segs[k].table)
  }

  function FlatRow(segs: seq<Segment>): seq<Value> {
    if segs == [] then []
    else
      var last := segs[|segs| - 1];
      FlatRow(segs[..|segs| - 1]) + Cells(last.columns, last.record)
  }

  function Refs(table: string, columns: seq<string>): (refs: seq<ColumnRef>)
    ensures |refs| == |columns|
  {
    seq(|columns|, i requires 0 <= i < |columns| => ColumnRef(table, columns[i]))
  }

  /** Table and column of every cell of the flat row. */
  function FlatRefs(segs: seq<Segment>): (refs: seq<ColumnRef>)
    ensures |refs| == |FlatRow(segs)|
  {
    if segs == [] then []
    else
      var last := segs[|segs| - 1];
      FlatRefs(segs[..|segs| - 1]) + Refs(last.table, last.columns)
  }

  /** A joined row as the nested map the rest of the program works on. */
  function NestedRow(segs: seq<Segment>): Record {
    if segs == [] then map[]
    else NestedRow(segs[..|segs| - 1])[segs[|segs| - 1].table := Map(segs[|segs| - 1].record)]
  }

  lemma ZipSegment(s: Segment)
    requires s.record.Keys == set c | c in s.columns
    ensures Zip(s.columns, Cells(s.columns, s.record)) == s.record
    ensures Columns(Refs(s.table, s.columns)) == s.columns
  {
    ZipCells(s.columns, s.record);
    assert (map c | c in s.columns :: s.record[c]) == s.record;
  }

  lemma FlatLast(segs: seq<Segment>)
    requires segs != []
    ensures var n := |segs| - 1;
            && FlatRow(segs) == FlatRow(segs[..n]) + Cells(segs[n].columns, segs[n].record)
            && FlatRefs(segs) == FlatRefs(segs[..n]) + Refs(segs[n].table, segs[n].columns)
            && NestedRow(segs) == NestedRow(segs[..n])[segs[n].table := Map(segs[n].record)]
  {
  }

  lemma LastRef(segs: seq<Segment>)
    requires segs != [] && segs[|segs| - 1].columns != []
    ensures var refs := FlatRefs(segs);
            refs != [] && refs[|refs| - 1].table == segs[|segs| - 1].table
  {
    FlatLast(segs);
  }

  /** Decoding undoes the flattening of the join: every cell ends up under its own
      table and column, whatever column names the tables share. */
  lemma {:induction false} DecodeFlatRow(segs: seq<Segment>)
    requires ValidSegments(segs)
    ensures DecodeRow(FlatRefs(segs), FlatRow(segs)) == NestedRow(segs)
  {
    if segs != [] {
      var n := |segs| - 1;
      var init, last := segs[..n], segs[n];
      FlatLast(segs);
      DecodeFlatRow(init);
      if n > 0 {
        LastRef(init);
        assert init[n - 1] == segs[n - 1];
      }
      DecodeSegment(FlatRefs(init), FlatRow(init), last);
    }
  }

  lemma DecodeSegment(refs: seq<ColumnRef>, vals: seq<Value>, s: Segment)
    requires |refs| == |vals| && s.columns != []
    requires s.record.Keys == set c | c in s.columns
    requires refs == [] || refs[|refs| - 1].table != s.table
    ensures DecodeRow(refs + Refs(s.table, s.columns), vals + Cells(s.columns, s.record))
         == DecodeRow(refs, vals)[s.table := Map(s.record)]
  {
    ZipSegment(s);
    DecodeRun(refs, vals, Refs(s.table, s.columns), Cells(s.columns, s.record), s.table);
  }

  /** Reading a nested row back. */
  lemma {:induction false} NestedParts(segs: seq<Segment>, k: nat)
    requires ValidSegments(segs) && k < |segs|
    ensures Part(NestedRow(segs), segs[k].table) == Some(segs[k].record)
  {
    if k < |segs| - 1 {
      NestedParts(segs[..|segs| - 1], k);
    }
  }

  // ----- the labels of the join -----

  function Names(segs: seq<Segment>): seq<string> {
    seq(|segs|, k requires 0 <= k < |segs| => segs[k].table)
  }

  /** The schema's column counts agree with the tables. */
  ghost predicate SchemaFits(widths: map<string, nat>, segs: seq<Segment>) {
    forall k :: 0 <= k < |segs| ==> segs[k].table in widths && widths[segs[k].table] == |segs[k].columns|
  }

  lemma {:induction false} OwnersOfColumns(widths: map<string, nat>, segs: seq<Segment>)
    requires ValidSegments(segs) && SchemaFits(widths, segs)
    ensures forall t :: t in Names(segs) ==> t in widths
    ensures Width(widths, Names(segs)) == |FlatRefs(segs)|
    ensures forall i :: 0 <= i < |FlatRefs(segs)| ==>
              && FlatRefs(segs)[i].table == Owner(widths, Names(segs), i)
              && NUL !in FlatRefs(segs)[i].table
  {
    if segs != [] {
      var n := |segs| - 1;
      OwnersOfColumns(widths, segs[..n]);
      FlatLast(segs);
      assert Names(segs)[..n] == Names(segs[..n]);
    }
  }

  /** The labels the schema mapping stores for a join name every column's owner. */
  lemma LabelsNameOwners(widths: map<string, nat>, segs: seq<Segment>, labels: seq<string>)
    requires ValidSegments(segs) && SchemaFits(widths, segs)
    requires forall t :: t in Names(segs) ==> t in widths
    requires LabelledByOwner(labels, widths, Names(segs), Columns(FlatRefs(segs)))
    ensures AllLabels(labels) && SplitAll(labels) == FlatRefs(segs)
  {
    OwnersOfColumns(widths, segs);
    var refs := FlatRefs(segs);
    forall i | 0 <= i < |labels| ensures IsLabel(labels[i]) && Split(labels[i]) == refs[i] {
      LabelSplits(refs[i].table, refs[i].column);
    }
  }

  // ----- joined rows as segments -----

  /** A base row without any match. */
  function Unmatched(base: Table, rels: seq<Field>): (j: Joined)
    ensures |j.related| == |rels|
  {
    Joined(base.blank, seq(|rels|, _ => None))
  }

  /** Table and column of every cell of the join's rows. */
  function JoinRefs(db: Database, base: Table, rels: seq<Field>): seq<ColumnRef>
    requires Known(db, rels)
  {
    FlatRefs(Segments(db, base, rels, Unmatched(base, rels)))
  }

  lemma {:induction false} SameRefs(a: seq<Segment>, b: seq<Segment>)
    requires |a| == |b|
    requires forall k :: 0 <= k < |a| ==> a[k].table == b[k].table && a[k].columns == b[k].columns
    ensures FlatRefs(a) == FlatRefs(b)
  {
    if a != [] {
      SameRefs(a[..|a| - 1], b[..|b| - 1]);
    }
  }

  /** All rows of a join have the same columns. */
  lemma RefsOfJoin(db: Database, base: Table, rels: seq<Field>, j: Joined)
    requires Known(db, rels) && |j.related| == |rels|
    ensures FlatRefs(Segments(db, base, rels, j)) == JoinRefs(db, base, rels)
  {
    SameRefs(Segments(db, base, rels, j), Segments(db, base, rels, Unmatched(base, rels)));
  }

  lemma {:induction false} RefOfTable(segs: seq<Segment>, k: nat)
    requires k < |segs| && segs[k].columns != []
    ensures exists c :: c in FlatRefs(segs) && c.table == segs[k].table
  {
    FlatLast(segs);
    var n := |segs| - 1;
    if k == n {
      LastRef(segs);
    } else {
      RefOfTable(segs[..n], k);
    }
  }

  /** Some column of the join is the base table's. */
  lemma BaseInRefs(db: Database, base: Table, rels: seq<Field>)
    requires Known(db, rels) && base.columns != []
    ensures exists c :: c in JoinRefs(db, base, rels) && c.table == base.name
  {
    RefOfTable(Segments(db, base, rels, Unmatched(base, rels)), 0);
  }

  lemma NamesOfSegments(db: Database, base: Table, rels: seq<Field>, j: Joined)
    requires ValidQuery(db, base, rels) && |j.related| == |rels|
    requires forall f :: f in rels ==> f.relationship.Some?
    ensures Names(Segments(db, base, rels, j)) == [base.name] + WithTables(rels)
  {
  }

  lemma UnmatchedValid(db: Database, base: Table, rels: seq<Field>)
    requires ValidQuery(db, base, rels)
    ensures ValidSegments(Segments(db, base, rels, Unmatched(base, rels)))
  {
  }

  lemma SegmentsValid(db: Database, base: Table, bases: seq<Record>, rels: seq<Field>, j: Joined)
    requires ValidQuery(db, base, rels) && JoinedFrom(db, bases, rels, j)
    requires forall b :: b in bases ==> RowOf(base, b)
    ensures ValidSegments(Segments(db, base, rels, j))
  {
    var segs := Segments(db, base, rels, j);
    forall k | 0 <= k < |segs|
      ensures segs[k].columns != [] && NUL !in segs[k].table
      ensures segs[k].record.Keys == set c | c in segs[k].columns
    {
      if k == 0 {
        assert RowOf(base, j.base);
      } else {
        RelatedRow(db, base, bases, rels, j, k - 1);
      }
    }
  }

  lemma RelatedRow(db: Database, base: Table, bases: seq<Record>, rels: seq<Field>, j: Joined, k: nat)
    requires ValidQuery(db, base, rels) && JoinedFrom(db, bases, rels, j) && k < |rels|
    ensures ValidTable(Related(db, rels[k]))
    ensures RowOf(Related(db, rels[k]), if j.related[k].Some? then j.related[k].value else Related(db, rels[k]).blank)
  {
    assert Choice(Matches(db, rels[k], j.base), j.related[k]);
  }

  /** A decoded joined row holds its base row and, per relationship, its match or the blank row. */
  lemma JoinedParts(db: Database, base: Table, bases: seq<Record>, rels: seq<Field>, j: Joined)
    requires ValidQuery(db, base, rels) && JoinedFrom(db, bases, rels, j)
    requires forall b :: b in bases ==> RowOf(base, b)
    ensures Part(NestedRow(Segments(db, base, rels, j)), base.name) == Some(j.base)
    ensures forall k :: 0 <= k < |rels| ==>
              Part(NestedRow(Segments(db, base, rels, j)), Related(db, rels[k]).name)
              == Some(if j.related[k].Some? then j.related[k].value else Related(db, rels[k]).blank)
  {
    var segs := Segments(db, base, rels, j);
    var row := NestedRow(segs);
    SegmentsValid(db, base, bases, rels, j);
    forall k | 0 <= k < |segs| ensures Part(row, segs[k].table) == Some(segs[k].record) {
      NestedParts(segs, k);
    }
    assert segs[0].table == base.name;
    forall k | 0 <= k < |rels|
      ensures Part(row, Related(db, rels[k]).name)
           == Some(if j.related[k].Some? then j.related[k].value else Related(db, rels[k]).blank)
    {
      assert segs[k + 1].table == Related(db, rels[k]).name;
    }
  }
}
