/** Formatting results as workflow records (jsonForWorkflowAccelerator.go). */
module Formatting {
  import opened Values
  import opened Descriptor
  import opened Strings

  /** What a request fixes: the library printers, the configured type descriptors,
      and whether the client asked for related records in full (`$denormalize`). */
  datatype Env = Env(p: Printers, cfg: seq<TypeDescriptor>, denormalize: bool)

  // ----- writing a record key by key -----

  /** A write to the record being built; `None` leaves the key alone. */
  datatype Write = Write(key: string, value: Option<Value>)

  function Apply(writes: seq<Write>): Record {
    if writes == [] then map[]
    else
      var before, w := Apply(writes[..|writes| - 1]), writes[|writes| - 1];
      if w.value.Some? then before[w.key := w.value.value] else before
  }

  ghost predicate DistinctWrites(writes: seq<Write>) {
    forall i, j :: 0 <= i < j < |writes| ==> writes[i].key != writes[j].key
  }

  /** A key of the record comes from some write. */
  lemma {:induction false} ApplyKey(writes: seq<Write>, k: string) returns (i: nat)
    requires k in Apply(writes)
    ensures i < |writes| && writes[i].key == k && writes[i].value.Some?
  {
    i := |writes| - 1;
    if writes[i].key != k || writes[i].value.None? {
      i := ApplyKey(writes[..i], k);
    }
  }

  /** With one writer per key, the record is what each writer put there. */
  lemma {:induction false} ApplyAt(writes: seq<Write>, i: nat)
    requires DistinctWrites(writes) && i < |writes|
    ensures var w, r := writes[i], Apply(writes);
            if w.value.Some? then w.key in r && r[w.key] == w.value.value else w.key !in r
  {
    var n := |writes| - 1;
    if i < n {
      ApplyAt(writes[..n], i);
    } else if writes[n].value.None? && writes[n].key in Apply(writes) {
      var j := ApplyKey(writes[..n], writes[n].key);
      assert false;
    }
  }

  lemma {:induction false} ApplyAppend(a: seq<Write>, b: seq<Write>)
    ensures Apply(a + b) == Apply(a) + Apply(b)
  {
    if b == [] {
      assert a + b == a;
    } else {
      var n := |b| - 1;
      assert (a + b)[..|a| + n] == a + b[..n];
      ApplyAppend(a, b[..n]);
    }
  }

  /** With one writer per key, the order of the writes does not matter. */
  lemma ApplyPermuted(a: seq<Write>, b: seq<Write>)
    requires DistinctWrites(a) && DistinctWrites(b)
    requires forall w :: w in a <==> w in b
    ensures Apply(a) == Apply(b)
  {
    forall k | k in Apply(a) ensures k in Apply(b) && Apply(b)[k] == Apply(a)[k] {
      ApplyElsewhere(a, b, k);
    }
    forall k | k in Apply(b) ensures k in Apply(a) {
      ApplyElsewhere(b, a, k);
    }
  }

  lemma ApplyElsewhere(a: seq<Write>, b: seq<Write>, k: string)
    requires DistinctWrites(a) && DistinctWrites(b)
    requires forall w :: w in a ==> w in b
    requires k in Apply(a)
    ensures k in Apply(b) && Apply(a)[k] == Apply(b)[k]
  {
    var i := ApplyKey(a, k);
    ApplyAt(a, i);
    assert a[i] in b;
    var j :| 0 <= j < |b| && b[j] == a[i];
    ApplyAt(b, j);
  }

  // ----- fields that are not relationships -----

  /** The option-name column is always presented as `name`, the unique id column as `id`. */
  function OutputKey(td: TypeDescriptor, f: Field): string {
    if f.relationship.Some? then f.key
    else if f.fromColumn == td.columnAsOptionName then "name"
    else if f.fromColumn == td.uniqueIdColumn then "id"
    else f.key
  }

  function Money(rec: Record, f: Field): Value {
    var amount, currency := At(rec, f.typ.amount.fromColumn), At(rec, f.typ.currency.fromColumn);
    if amount == Nil && currency == Nil then Nil
    else
      Map(map["amount" := amount,
              "currency" := if f.typ.currency.fromColumn != "" then currency
                            else if f.typ.currency.value == "" then Str("EUR")
                            else Str(f.typ.currency.value)])
  }

  predicate IsDate(td: TypeDescriptor, f: Field) {
    && f.fromColumn != td.columnAsOptionName && f.fromColumn != td.uniqueIdColumn
    && f.typ.name != "money" && f.typ.kind in {"datetime", "date", "time"}
  }

  function PlainValue(p: Printers, td: TypeDescriptor, rec: Record, f: Field): Value {
    var v := At(rec, f.fromColumn);
    if f.fromColumn == td.columnAsOptionName || f.fromColumn == td.uniqueIdColumn then Stringify(p, v)
    else if f.typ.name == "money" then Money(rec, f)
    else if f.typ.kind == "datetime" then if v.Time? then Str(p.utc(v.t)) else Nil
    else if f.typ.kind == "date" || f.typ.kind == "time" then if v.Time? then Str(p.local(v.t)) else Nil
    else if f.typ.name == "text" then Stringify(p, v)
    else v
  }

  function PlainWrites(p: Printers, td: TypeDescriptor, rec: Record, fields: seq<Field>): (writes: seq<Write>)
    ensures |writes| == |fields|
  {
    seq(|fields|, i requires 0 <= i < |fields| =>
      Write(OutputKey(td, fields[i]), Some(PlainValue(p, td, rec, fields[i]))))
  }

  /** What a row's money is shown as: null without an amount and a currency, else the
      amount, and the currency of its column, of the descriptor, or euros. */
  ghost predicate ShowsMoney(row: Record, typ: WorkflowType, v: Value) {
    var amount, currency := At(row, typ.amount.fromColumn), At(row, typ.currency.fromColumn);
    if amount == Nil && currency == Nil then v == Nil
    else
      && v.Map? && v.m.Keys == {"amount", "currency"}
      && v.m["amount"] == amount
      && (typ.currency.fromColumn != "" ==> v.m["currency"] == currency)
      && (typ.currency.fromColumn == "" && typ.currency.value != "" ==> v.m["currency"] == Str(typ.currency.value))
      && (typ.currency.fromColumn == "" && typ.currency.value == "" ==> v.m["currency"] == Str("EUR"))
  }

  /** What a field's cell is shown as, by the field's type: a datetime in UTC, a date or
      a time as it is, text as text, and any other cell unchanged. */
  ghost predicate ShowsCell(p: Printers, row: Record, f: Field, v: Value) {
    var cell := At(row, f.fromColumn);
    if f.typ.name == "money" then ShowsMoney(row, f.typ, v)
    else if f.typ.kind in {"datetime", "date", "time"} then
      && (!cell.Time? ==> v == Nil)
      && (cell.Time? && f.typ.kind == "datetime" ==> v == Str(p.utc(cell.t)))
      && (cell.Time? && f.typ.kind != "datetime" ==> v == Str(p.local(cell.t)))
    else if f.typ.name == "text" then IsTextOf(p, cell, v)
    else v == cell
  }

  /** What a record has of a field of its row: the option name as text under `name`, the
      id as text under `id`, and any other cell under the field's key. */
  ghost predicate ShowsField(p: Printers, td: TypeDescriptor, row: Record, f: Field, r: Record) {
    if f.fromColumn == td.columnAsOptionName then
      "name" in r && IsTextOf(p, At(row, f.fromColumn), r["name"])
    else if f.fromColumn == td.uniqueIdColumn then
      "id" in r && IsTextOf(p, At(row, f.fromColumn), r["id"])
    else
      f.key in r && ShowsCell(p, row, f, r[f.key])
  }

  /** No later field writes where field `n` does. */
  ghost predicate LastToWrite(td: TypeDescriptor, fields: seq<Field>, n: nat)
    requires n < |fields|
  {
    forall m :: n < m < |fields| ==> OutputKey(td, fields[m]) != OutputKey(td, fields[n])
  }

  /** The record shows every field that is the last to write its key. */
  ghost predicate ShowsFields(p: Printers, td: TypeDescriptor, row: Record, fields: seq<Field>, r: Record) {
    forall n :: 0 <= n < |fields| && LastToWrite(td, fields, n) ==> ShowsField(p, td, row, fields[n], r)
  }

  lemma {:induction false} ApplyLast(writes: seq<Write>, n: nat)
    requires n < |writes| && writes[n].value.Some?
    requires forall m :: n < m < |writes| ==> writes[m].key != writes[n].key
    ensures writes[n].key in Apply(writes) && Apply(writes)[writes[n].key] == writes[n].value.value
  {
    var last := |writes| - 1;
    if n < last {
      ApplyLast(writes[..last], n);
    }
  }

  lemma PlainValueShown(p: Printers, td: TypeDescriptor, row: Record, f: Field, r: Record)
    requires f.relationship.None?
    requires OutputKey(td, f) in r && r[OutputKey(td, f)] == PlainValue(p, td, row, f)
    ensures ShowsField(p, td, row, f, r)
  {
    StringifyIsText(p, At(row, f.fromColumn), Stringify(p, At(row, f.fromColumn)));
  }

  /** Written onto anything, the fields of a row are all shown. */
  lemma PlainShown(p: Printers, td: TypeDescriptor, row: Record, fields: seq<Field>, onto: Record)
    requires forall f :: f in fields ==> f.relationship.None?
    ensures ShowsFields(p, td, row, fields, onto + Apply(PlainWrites(p, td, row, fields)))
  {
    var writes := PlainWrites(p, td, row, fields);
    forall n | 0 <= n < |fields| && LastToWrite(td, fields, n)
      ensures ShowsField(p, td, row, fields[n], onto + Apply(writes))
    {
      ApplyLast(writes, n);
      assert fields[n] in fields;
      PlainValueShown(p, td, row, fields[n], onto + Apply(writes));
    }
  }

  /** A related record as it is embedded: its own relationships are left out. */
  function Embedded(p: Printers, td: TypeDescriptor, rec: Record): Record {
    Apply(PlainWrites(p, td, rec, Plain(td.fields)))
  }

  // ----- relationships -----

  /** The related rows collected for a relationship. */
  function Collection(rec: Record, f: Field): seq<Record> {
    if f.relationship.Some? && At(rec, f.key).Map? && At(At(rec, f.key).m, f.relationship.value.withTable).Rows?
    then At(At(rec, f.key).m, f.relationship.value.withTable).rows
    else []
  }

  function Denormalized(p: Printers, td: TypeDescriptor, list: seq<Record>): (r: seq<Record>)
    ensures |r| == |list|
  {
    seq(|list|, i requires 0 <= i < |list| => Embedded(p, td, list[i]))
  }

  function Normalized(p: Printers, td: TypeDescriptor, list: seq<Record>): (r: seq<Value>)
    ensures |r| == |list|
  {
    seq(|list|, i requires 0 <= i < |list| => At(Embedded(p, td, list[i]), td.uniqueIdColumn))
  }

  /** The last of the records whose id reads the same as `local`. */
  function LastMatch(p: Printers, local: Value, list: seq<Record>, idColumn: string): Option<Record> {
    if list == [] then None
    else
      var n := |list| - 1;
      if Stringify(p, local) == Stringify(p, At(list[n], idColumn)) then Some(list[n])
      else LastMatch(p, local, list[..n], idColumn)
  }

  /** What a relationship field contributes, given the collected related rows. */
  function RelationshipValue(env: Env, td: TypeDescriptor, local: Value, list: seq<Record>, f: Field): Option<Value>
    requires f.relationship.Some?
  {
    var rel := f.relationship.value;
    var full := Denormalized(env.p, td, list);
    if list == [] then Some(List([]))
    else if rel.kind == "oneToMany" then
      Some(if env.denormalize then Rows(full) else List(Normalized(env.p, td, list)))
    else
      var idColumn := if env.denormalize then rel.foreignColumn else td.uniqueIdColumn;
      var found := LastMatch(env.p, local, full, idColumn);
      if found.None? then None
      else if env.denormalize then Some(Map(found.value))
      else Some(At(found.value, td.uniqueIdColumn))
  }

  function RelationshipWrite(env: Env, rec: Record, f: Field): Write
    requires f.relationship.Some?
  {
    var rel := f.relationship.value;
    var td := DescriptorOf(env.cfg, rel.withTable);
    Write(f.key,
          if td.None? then Some(List([]))
          else RelationshipValue(env, td.value, At(rec, rel.localColumn), Collection(rec, f), f))
  }

  function RelationshipWrites(env: Env, rec: Record, fields: seq<Field>): (writes: seq<Write>)
    requires forall f :: f in fields ==> f.relationship.Some?
    ensures |writes| == |fields|
  {
    seq(|fields|, i requires 0 <= i < |fields| => RelationshipWrite(env, rec, fields[i]))
  }

  /** The workflow record for a base record: relationships first, then the rest. */
  function Formatted(env: Env, td: TypeDescriptor, rec: Record, fields: seq<Field>): Record {
    Apply(RelationshipWrites(env, rec, Relationships(fields)) + PlainWrites(env.p, td, rec, Plain(fields)))
  }

  // ----- when formatting does not panic -----

  predicate PlainFormattable(td: TypeDescriptor, rec: Record, f: Field) {
    IsDate(td, f) ==> At(rec, f.fromColumn).Nil? || At(rec, f.fromColumn).Time?
  }

  predicate HasCollection(rec: Record, f: Field) {
    f.relationship.Some? && At(rec, f.key).Map? && At(At(rec, f.key).m, f.relationship.value.withTable).Rows?
  }

  predicate RelationshipFormattable(env: Env, rec: Record, f: Field) {
    && HasCollection(rec, f)
    && (Collection(rec, f) != [] ==> RelatedFormattable(env, rec, f))
  }

  predicate RelatedFormattable(env: Env, rec: Record, f: Field)
    requires f.relationship.Some?
  {
    var rel := f.relationship.value;
    var td := DescriptorOf(env.cfg, rel.withTable);
    && td.Some?
    && !At(rec, rel.localColumn).Map?
    && forall r, g | r in Collection(rec, f) && g in Plain(td.value.fields) :: PlainFormattable(td.value, r, g)
  }

  /** The type assertions of the formatter all succeed. */
  predicate Formattable(env: Env, queryResults: Record, table: string, fields: seq<Field>) {
    && At(queryResults, table).Map?
    && DescriptorOf(env.cfg, table).Some?
    && (forall f | f in Plain(fields) ::
          PlainFormattable(DescriptorOf(env.cfg, table).value, queryResults[table].m, f))
    && (forall f | f in Relationships(fields) :: RelationshipFormattable(env, queryResults[table].m, f))
  }

  // ----- the formatter -----

  method SegregateFields(fields: seq<Field>) returns (relationships: seq<Field>, notRelationships: seq<Field>)
    ensures relationships == Relationships(fields) && notRelationships == Plain(fields)
  {
    relationships, notRelationships := [], [];
    for i := 0 to |fields|
      invariant relationships == Relationships(fields[..i]) && notRelationships == Plain(fields[..i])
    {
      assert fields[..i + 1][..i] == fields[..i];
      if fields[i].relationship.Some? {
        relationships := relationships + [fields[i]];
      } else {
        notRelationships := notRelationships + [fields[i]];
      }
    }
    assert fields[..|fields|] == fields;
  }

  method WithRelationshipFieldsOmitted(env: Env, table: string) returns (fields: seq<Field>)
    requires DescriptorOf(env.cfg, table).Some?
    ensures fields == Plain(DescriptorOf(env.cfg, table).value.fields)
  {
    var td := GetTypeDescriptorUsingDBTableName(env.cfg, table);
    var _, plain := SegregateFields(td.value.fields);
    return plain;
  }

  function Put(formatted: Record, w: Write): Record {
    if w.value.Some? then formatted[w.key := w.value.value] else formatted
  }

  lemma ApplyNext(writes: seq<Write>, n: nat)
    requires n < |writes|
    ensures Apply(writes[..n + 1]) == Put(Apply(writes[..n]), writes[n])
  {
    assert writes[..n + 1][..n] == writes[..n];
  }

  lemma ApplyNextOnto(formatted: Record, writes: seq<Write>, n: nat)
    requires n < |writes| && writes[n].value.Some?
    ensures formatted + Apply(writes[..n + 1])
         == (formatted + Apply(writes[..n]))[writes[n].key := writes[n].value.value]
  {
    ApplyNext(writes, n);
  }

  /** Formatting terminates on every set of descriptors, however their
      relationships refer to one another: it recurses into records without any. */
  method FormatAsAWorkflowType(env: Env, queryResults: Record, table: string, fields: seq<Field>)
    returns (formatted: Record)
    requires Formattable(env, queryResults, table, fields)
    ensures formatted == Formatted(env, DescriptorOf(env.cfg, table).value, queryResults[table].m, fields)
    ensures ShowsFields(env.p, DescriptorOf(env.cfg, table).value, queryResults[table].m, Plain(fields), formatted)
    decreases |Relationships(fields)|, 2, 0
  {
    var rec := queryResults[table].m;
    var relationships, plain := SegregateFields(fields);
    ghost var first := RelationshipWrites(env, rec, relationships);
    formatted := map[];
    for i := 0 to |relationships|
      invariant formatted == Apply(first[..i])
    {
      formatted := BuildAndRecursivelyResolveRelationships(env, formatted, rec, relationships[i]);
      ApplyNext(first, i);
    }
    assert first[..|first|] == first;
    formatted := BuildWithoutRelationships(env, formatted, rec, table, plain);
    ApplyAppend(first, PlainWrites(env.p, DescriptorOf(env.cfg, table).value, rec, plain));
  }

  method BuildWithoutRelationships(env: Env, formatted: Record, rec: Record, table: string, plain: seq<Field>)
    returns (formatted': Record)
    requires DescriptorOf(env.cfg, table).Some?
    requires forall f :: f in plain ==>
               f.relationship.None? && PlainFormattable(DescriptorOf(env.cfg, table).value, rec, f)
    ensures formatted' == formatted + Apply(PlainWrites(env.p, DescriptorOf(env.cfg, table).value, rec, plain))
    ensures ShowsFields(env.p, DescriptorOf(env.cfg, table).value, rec, plain, formatted')
  {
    var td := GetTypeDescriptorUsingDBTableName(env.cfg, table);
    ghost var writes := PlainWrites(env.p, td.value, rec, plain);
    formatted' := formatted;
    for i := 0 to |plain|
      invariant formatted' == formatted + Apply(writes[..i])
    {
      formatted' := BuildField(env.p, formatted', rec, td.value, plain[i]);
      ApplyNextOnto(formatted, writes, i);
    }
    assert writes[..|writes|] == writes;
    PlainShown(env.p, td.value, rec, plain, formatted);
  }

  /** Each field type writes its one key; a cell of a date that holds anything but a
      time or NULL would fail a type assertion. */
  method BuildField(p: Printers, formatted: Record, rec: Record, td: TypeDescriptor, f: Field)
    returns (formatted': Record)
    requires f.relationship.None? && PlainFormattable(td, rec, f)
    ensures formatted' == formatted[OutputKey(td, f) := PlainValue(p, td, rec, f)]
  {
    var cell := At(rec, f.fromColumn);
    if f.fromColumn == td.columnAsOptionName {
      return formatted["name" := Stringify(p, cell)];
    } else if f.fromColumn == td.uniqueIdColumn {
      return formatted["id" := Stringify(p, cell)];
    } else if f.typ.name == "money" {
      var money := BuildForFieldTypeMoney(rec, f);
      return formatted[f.key := money];
    } else if f.typ.kind == "datetime" {
      return formatted[f.key := if cell.Nil? then Nil else Str(p.utc(cell.t))];
    } else if f.typ.kind == "date" || f.typ.kind == "time" {
      return formatted[f.key := if cell.Nil? then Nil else Str(p.local(cell.t))];
    } else if f.typ.name == "text" {
      return formatted[f.key := Stringify(p, cell)];
    } else {
      return formatted[f.key := cell];
    }
  }

  method BuildForFieldTypeMoney(rec: Record, f: Field) returns (money: Value)
    ensures money == Money(rec, f)
    ensures ShowsMoney(rec, f.typ, money)
  {
    var amount := At(rec, f.typ.amount.fromColumn);
    if amount == Nil && At(rec, f.typ.currency.fromColumn) == Nil { return Nil; }
    var currency: Value;
    if f.typ.currency.fromColumn == "" {
      currency := Str(if f.typ.currency.value == "" then "EUR" else f.typ.currency.value);
    } else {
      currency := At(rec, f.typ.currency.fromColumn);
    }
    return Map(map["amount" := amount, "currency" := currency]);
  }

  method BuildAndRecursivelyResolveRelationships(env: Env, formatted: Record, rec: Record, f: Field)
    returns (formatted': Record)
    requires RelationshipFormattable(env, rec, f)
    ensures formatted' == Put(formatted, RelationshipWrite(env, rec, f))
    decreases 1, 1, 1
  {
    var related := rec[f.key].m[f.relationship.value.withTable].rows;
    if |related| == 0 {
      formatted' := formatted[f.key := List([])];
    } else if f.relationship.value.kind == "oneToMany" {
      formatted' := ResolveOneToManyRelationship(env, formatted, rec, f);
    } else {
      formatted' := ResolveOneToOneOrManyToOneRelationship(env, formatted, rec, f);
    }
  }

  method ResolveOneToManyRelationship(env: Env, formatted: Record, rec: Record, f: Field)
    returns (formatted': Record)
    requires RelationshipFormattable(env, rec, f) && Collection(rec, f) != []
    requires f.relationship.value.kind == "oneToMany"
    ensures formatted' == Put(formatted, RelationshipWrite(env, rec, f))
    decreases 1, 1, 0
  {
    var related := rec[f.key].m[f.relationship.value.withTable].rows;
    if env.denormalize {
      var results := DenormalizeResultSet(env, related, f);
      formatted' := formatted[f.key := Rows(results)];
    } else {
      var results := NormalizeResultSet(env, related, f);
      formatted' := formatted[f.key := List(results)];
    }
  }

  method ResolveOneToOneOrManyToOneRelationship(env: Env, formatted: Record, rec: Record, f: Field)
    returns (formatted': Record)
    requires RelationshipFormattable(env, rec, f) && Collection(rec, f) != []
    requires f.relationship.value.kind != "oneToMany"
    ensures formatted' == Put(formatted, RelationshipWrite(env, rec, f))
    decreases 1, 1, 0
  {
    var rel := f.relationship.value;
    var related := rec[f.key].m[rel.withTable].rows;
    var local := At(rec, rel.localColumn);
    if env.denormalize {
      var results := DenormalizeResultSet(env, related, f);
      formatted' := WriteMatchingRecords(env.p, formatted, f.key, local, results, rel.foreignColumn);
    } else {
      ghost var td := DescriptorOf(env.cfg, rel.withTable).value;
      var results := NormalizeResultSet(env, related, f);
      formatted' := WriteMatchingIds(env.p, formatted, f.key, local, results,
                                     Denormalized(env.p, td, related), td.uniqueIdColumn);
    }
  }

  /** Every match overwrites the one before. */
  method WriteMatchingRecords(
    p: Printers, formatted: Record, key: string, local: Value, results: seq<Record>, foreignColumn: string)
    returns (formatted': Record)
    ensures var found := LastMatch(p, local, results, foreignColumn);
            formatted' == if found.None? then formatted else formatted[key := Map(found.value)]
  {
    formatted' := formatted;
    for i := 0 to |results|
      invariant var found := LastMatch(p, local, results[..i], foreignColumn);
                formatted' == if found.None? then formatted else formatted[key := Map(found.value)]
    {
      assert results[..i + 1][..i] == results[..i];
      if Stringify(p, local) == Stringify(p, At(results[i], foreignColumn)) {
        formatted' := formatted'[key := Map(results[i])];
      }
    }
    assert results[..|results|] == results;
  }

  method WriteMatchingIds(
    p: Printers, formatted: Record, key: string, local: Value, ids: seq<Value>,
    ghost full: seq<Record>, ghost idColumn: string)
    returns (formatted': Record)
    requires |ids| == |full| && forall i :: 0 <= i < |ids| ==> ids[i] == At(full[i], idColumn)
    ensures var found := LastMatch(p, local, full, idColumn);
            formatted' == if found.None? then formatted else formatted[key := At(found.value, idColumn)]
  {
    formatted' := formatted;
    for i := 0 to |ids|
      invariant var found := LastMatch(p, local, full[..i], idColumn);
                formatted' == if found.None? then formatted else formatted[key := At(found.value, idColumn)]
    {
      assert full[..i + 1][..i] == full[..i];
      if Stringify(p, local) == Stringify(p, ids[i]) {
        formatted' := formatted'[key := ids[i]];
      }
    }
    assert full[..|full|] == full;
  }

  /** Without relationship fields, formatting is plain embedding. */
  lemma FormattedPlain(env: Env, td: TypeDescriptor, rec: Record)
    ensures Relationships(Plain(td.fields)) == []
    ensures Formatted(env, td, rec, Plain(td.fields)) == Embedded(env.p, td, rec)
  {
    PlainOfPlain(td.fields);
    var writes := PlainWrites(env.p, td, rec, Plain(td.fields));
    assert RelationshipWrites(env, rec, []) == [];
    assert [] + writes == writes;
  }

  method FormatRelated(env: Env, r: Record, f: Field) returns (formatted: Record)
    requires f.relationship.Some? && DescriptorOf(env.cfg, f.relationship.value.withTable).Some?
    requires var td := DescriptorOf(env.cfg, f.relationship.value.withTable).value;
             forall g :: g in Plain(td.fields) ==> PlainFormattable(td, r, g)
    ensures formatted == Embedded(env.p, DescriptorOf(env.cfg, f.relationship.value.withTable).value, r)
    decreases 1, 0, 0
  {
    var table := f.relationship.value.withTable;
    ghost var td := DescriptorOf(env.cfg, table).value;
    FormattedPlain(env, td, r);
    PlainOfPlain(td.fields);
    var fields := WithRelationshipFieldsOmitted(env, table);
    formatted := FormatAsAWorkflowType(env, map[table := Map(r)], table, fields);
  }

  method DenormalizeResultSet(env: Env, related: seq<Record>, f: Field) returns (results: seq<Record>)
    requires f.relationship.Some? && DescriptorOf(env.cfg, f.relationship.value.withTable).Some?
    requires var td := DescriptorOf(env.cfg, f.relationship.value.withTable).value;
             forall r, g :: r in related && g in Plain(td.fields) ==> PlainFormattable(td, r, g)
    ensures results == Denormalized(env.p, DescriptorOf(env.cfg, f.relationship.value.withTable).value, related)
    decreases 1, 0, 1
  {
    ghost var td := DescriptorOf(env.cfg, f.relationship.value.withTable).value;
    results := [];
    for i := 0 to |related|
      invariant results == Denormalized(env.p, td, related[..i])
    {
      var resolved := FormatRelated(env, related[i], f);
      results := results + [resolved];
    }
    assert related[..|related|] == related;
  }

  method NormalizeResultSet(env: Env, related: seq<Record>, f: Field) returns (results: seq<Value>)
    requires f.relationship.Some? && DescriptorOf(env.cfg, f.relationship.value.withTable).Some?
    requires var td := DescriptorOf(env.cfg, f.relationship.value.withTable).value;
             forall r, g :: r in related && g in Plain(td.fields) ==> PlainFormattable(td, r, g)
    ensures results == Normalized(env.p, DescriptorOf(env.cfg, f.relationship.value.withTable).value, related)
    decreases 1, 0, 1
  {
    var td := GetTypeDescriptorUsingDBTableName(env.cfg, f.relationship.value.withTable);
    results := [];
    for i := 0 to |related|
      invariant results == Normalized(env.p, td.value, related[..i])
    {
      var resolved := FormatRelated(env, related[i], f);
      results := results + [At(resolved, td.value.uniqueIdColumn)];
    }
    assert related[..|related|] == related;
  }
}
