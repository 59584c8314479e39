/** What a formatted record owes to its descriptor. */
module FormattingProperties {
  import opened Values
  import opened Descriptor
  import opened Strings
  import opened Formatting

  // ----- one writer per key -----

  /** Each output key is written by one field only. */
  ghost predicate OneWriter(td: TypeDescriptor, fields: seq<Field>) {
    && NoDuplicates(fields)
    && forall f, g :: f in fields && g in fields && OutputKey(td, f) == OutputKey(td, g) ==> f == g
  }

  /** A descriptor as the documentation asks for: it passes the sanity checks, its
      keys and source columns are distinct, and a field called `id` or `name` is a
      column of that name. */
  ghost predicate WellKeyed(td: TypeDescriptor) {
    && Sane(td)
    && NoDuplicates(td.fields)
    && td.uniqueIdColumn != "" && td.columnAsOptionName != ""
    && (forall f, g :: f in td.fields && g in td.fields && f.key == g.key ==> f == g)
    && (forall f, g :: f in Plain(td.fields) && g in Plain(td.fields) && f.fromColumn == g.fromColumn != "" ==> f == g)
    && (forall f :: f in td.fields && (f.key == "id" || f.key == "name") ==>
          f.relationship.None? && f.fromColumn == f.key)
  }

  lemma WellKeyedHasOneWriter(td: TypeDescriptor)
    requires WellKeyed(td)
    ensures OneWriter(td, td.fields)
  {
    forall f, g | f in td.fields && g in td.fields && OutputKey(td, f) == OutputKey(td, g)
      ensures f == g
    {
      assert f.relationship.None? ==> f in Plain(td.fields);
      assert g.relationship.None? ==> g in Plain(td.fields);
      assert "id" != "name";
    }
  }

  function WriteOf(env: Env, td: TypeDescriptor, rec: Record, f: Field): Write {
    if f.relationship.Some? then RelationshipWrite(env, rec, f)
    else Write(OutputKey(td, f), Some(PlainValue(env.p, td, rec, f)))
  }

  /** The fields in the order in which they are written. */
  function Ordered(fields: seq<Field>): seq<Field> {
    Relationships(fields) + Plain(fields)
  }

  function Writes(env: Env, td: TypeDescriptor, rec: Record, fields: seq<Field>): (writes: seq<Write>)
    ensures |writes| == |fields|
  {
    seq(|fields|, i requires 0 <= i < |fields| => WriteOf(env, td, rec, fields[i]))
  }

  lemma FormattedWrites(env: Env, td: TypeDescriptor, rec: Record, fields: seq<Field>)
    ensures Formatted(env, td, rec, fields) == Apply(Writes(env, td, rec, Ordered(fields)))
  {
    var a, b := RelationshipWrites(env, rec, Relationships(fields)), PlainWrites(env.p, td, rec, Plain(fields));
    var ordered := Ordered(fields);
    forall i | 0 <= i < |ordered|
      ensures (a + b)[i] == WriteOf(env, td, rec, ordered[i])
    {
      assert ordered[i] in (if i < |a| then Relationships(fields) else Plain(fields));
    }
    assert a + b == Writes(env, td, rec, ordered);
  }

  lemma OrderedDistinct(env: Env, td: TypeDescriptor, rec: Record, fields: seq<Field>)
    requires OneWriter(td, fields)
    ensures DistinctWrites(Writes(env, td, rec, Ordered(fields)))
    ensures forall f :: f in Ordered(fields) <==> f in fields
  {
    SelectNoDuplicates(fields, true);
    SelectNoDuplicates(fields, false);
    var ordered, n := Ordered(fields), |Relationships(fields)|;
    forall i, j | 0 <= i < j < |ordered|
      ensures WriteOf(env, td, rec, ordered[i]).key != WriteOf(env, td, rec, ordered[j]).key
    {
      assert ordered[i] in fields && ordered[j] in fields;
      if i < n <= j {
        assert ordered[i] in Relationships(fields) && ordered[j] in Plain(fields);
      }
      assert ordered[i] != ordered[j];
    }
  }

  /** Every field's key holds that field's value, and no key comes from elsewhere. */
  lemma FormattedAt(env: Env, td: TypeDescriptor, rec: Record, fields: seq<Field>, f: Field)
    requires OneWriter(td, fields) && f in fields
    ensures var w, r := WriteOf(env, td, rec, f), Formatted(env, td, rec, fields);
            if w.value.Some? then w.key in r && r[w.key] == w.value.value else w.key !in r
    ensures f.relationship.None? ==> ShowsField(env.p, td, rec, f, Formatted(env, td, rec, fields))
  {
    var ordered := Ordered(fields);
    FormattedWrites(env, td, rec, fields);
    OrderedDistinct(env, td, rec, fields);
    assert f in ordered;
    var i :| 0 <= i < |ordered| && ordered[i] == f;
    ApplyAt(Writes(env, td, rec, ordered), i);
    if f.relationship.None? { PlainValueShown(env.p, td, rec, f, Formatted(env, td, rec, fields)); }
  }

  /** Listing the fields of the descriptor in another order formats the same record. */
  lemma FieldOrderIrrelevant(env: Env, td: TypeDescriptor, rec: Record, fields: seq<Field>, fields': seq<Field>)
    requires OneWriter(td, fields) && NoDuplicates(fields')
    requires forall f :: f in fields <==> f in fields'
    ensures Formatted(env, td, rec, fields) == Formatted(env, td, rec, fields')
  {
    FormattedWrites(env, td, rec, fields);
    FormattedWrites(env, td, rec, fields');
    OrderedDistinct(env, td, rec, fields);
    OrderedDistinct(env, td, rec, fields');
    var a, b := Ordered(fields), Ordered(fields');
    WritesSubset(env, td, rec, a, b);
    WritesSubset(env, td, rec, b, a);
    ApplyPermuted(Writes(env, td, rec, a), Writes(env, td, rec, b));
  }

  lemma WritesSubset(env: Env, td: TypeDescriptor, rec: Record, a: seq<Field>, b: seq<Field>)
    requires forall f :: f in a ==> f in b
    ensures forall w :: w in Writes(env, td, rec, a) ==> w in Writes(env, td, rec, b)
  {
    var as_, bs := Writes(env, td, rec, a), Writes(env, td, rec, b);
    forall w | w in as_ ensures w in bs {
      var i :| 0 <= i < |as_| && as_[i] == w;
      assert a[i] in b;
      var j :| 0 <= j < |b| && b[j] == a[i];
      assert bs[j] == w;
    }
  }

  // ----- relationship keys -----

  /** Each relationship has a key of its own, which no other field writes. */
  ghost predicate KeysApart(td: TypeDescriptor, fields: seq<Field>) {
    var rels := Relationships(fields);
    && (forall i, j :: 0 <= i < j < |rels| ==> rels[i].key != rels[j].key)
    && (forall i, g :: 0 <= i < |rels| && g in Plain(fields) ==> OutputKey(td, g) != rels[i].key)
  }

  lemma OneWriterKeysApart(td: TypeDescriptor, fields: seq<Field>)
    requires OneWriter(td, fields)
    ensures KeysApart(td, fields)
  {
    var rels := Relationships(fields);
    SelectNoDuplicates(fields, true);
    forall i, j | 0 <= i < j < |rels| ensures rels[i].key != rels[j].key {
      assert rels[i] in rels && rels[j] in rels;
      assert OutputKey(td, rels[i]) != OutputKey(td, rels[j]);
    }
    forall i, g | 0 <= i < |rels| && g in Plain(fields) ensures OutputKey(td, g) != rels[i].key {
      assert rels[i] in rels;
      assert OutputKey(td, rels[i]) != OutputKey(td, g);
    }
  }

  lemma PlainLeavesKey(p: Printers, td: TypeDescriptor, rec: Record, plain: seq<Field>, key: string)
    requires forall g :: g in plain ==> OutputKey(td, g) != key
    ensures key !in Apply(PlainWrites(p, td, rec, plain))
  {
    var writes := PlainWrites(p, td, rec, plain);
    forall i | 0 <= i < |writes| ensures writes[i].key != key {
      assert plain[i] in plain;
    }
    if key in Apply(writes) {
      var i := ApplyKey(writes, key);
      assert false;
    }
  }

  lemma RelationshipWritesAt(env: Env, rec: Record, rels: seq<Field>, k: nat)
    requires (forall f :: f in rels ==> f.relationship.Some?) && k < |rels|
    requires forall i, j :: 0 <= i < j < |rels| ==> rels[i].key != rels[j].key
    ensures var w, r := RelationshipWrite(env, rec, rels[k]), Apply(RelationshipWrites(env, rec, rels));
            if w.value.Some? then w.key in r && r[w.key] == w.value.value else w.key !in r
  {
    ApplyAt(RelationshipWrites(env, rec, rels), k);
  }

  /** A relationship's key holds what the relationship contributes, whatever the plain
      fields do among themselves. */
  lemma RelationshipAt(env: Env, td: TypeDescriptor, rec: Record, fields: seq<Field>, k: nat)
    requires KeysApart(td, fields) && k < |Relationships(fields)|
    ensures Relationships(fields)[k].relationship.Some?
    ensures var w, r := RelationshipWrite(env, rec, Relationships(fields)[k]), Formatted(env, td, rec, fields);
            if w.value.Some? then w.key in r && r[w.key] == w.value.value else w.key !in r
  {
    var rels := Relationships(fields);
    assert rels[k] in rels;
    RelationshipWritesAt(env, rec, rels, k);
    PlainLeavesKey(env.p, td, rec, Plain(fields), rels[k].key);
    ApplyAppend(RelationshipWrites(env, rec, rels), PlainWrites(env.p, td, rec, Plain(fields)));
  }

  // ----- embedded records -----

  function LastWriter(td: TypeDescriptor, fields: seq<Field>, key: string): (w: Option<Field>)
    ensures w.Some? ==> w.value in fields && OutputKey(td, w.value) == key
  {
    if fields == [] then None
    else
      var n := |fields| - 1;
      if OutputKey(td, fields[n]) == key then Some(fields[n])
      else
        assert fields == fields[..n] + [fields[n]];
        LastWriter(td, fields[..n], key)
  }

  /** The field that writes a key of an embedded record: the last one to do so. */
  function Writer(td: TypeDescriptor, key: string): Option<Field> {
    LastWriter(td, Plain(td.fields), key)
  }

  lemma {:induction false} PlainWritesAt(p: Printers, td: TypeDescriptor, rec: Record, fields: seq<Field>, key: string)
    ensures var r, w := Apply(PlainWrites(p, td, rec, fields)), LastWriter(td, fields, key);
            if w.None? then key !in r else key in r && r[key] == PlainValue(p, td, rec, w.value)
  {
    if fields != [] {
      var n := |fields| - 1;
      PlainWritesAt(p, td, rec, fields[..n], key);
      PlainWritesInit(p, td, rec, fields);
    }
  }

  lemma PlainWritesInit(p: Printers, td: TypeDescriptor, rec: Record, fields: seq<Field>)
    requires fields != []
    ensures var n, writes := |fields| - 1, PlainWrites(p, td, rec, fields);
            && writes[..n] == PlainWrites(p, td, rec, fields[..n])
            && writes[n] == Write(OutputKey(td, fields[n]), Some(PlainValue(p, td, rec, fields[n])))
  {
  }

  /** An embedded record has a key exactly when some plain field writes it, and then
      the value is that of the last such field. */
  lemma EmbeddedAt(p: Printers, td: TypeDescriptor, rec: Record, key: string)
    ensures var r, w := Embedded(p, td, rec), Writer(td, key);
            if w.None? then key !in r else key in r && r[key] == PlainValue(p, td, rec, w.value)
  {
    PlainWritesAt(p, td, rec, Plain(td.fields), key);
  }

  /** An embedded record shows the row's own plain fields. */
  lemma EmbeddedShows(p: Printers, td: TypeDescriptor, rec: Record)
    ensures ShowsFields(p, td, rec, Plain(td.fields), Embedded(p, td, rec))
  {
    PlainShown(p, td, rec, Plain(td.fields), map[]);
    assert map[] + Embedded(p, td, rec) == Embedded(p, td, rec);
  }

  /** However descriptors refer to one another, an embedded record shows none of
      its own relationships. */
  lemma EmbeddedHasNoRelationships(p: Printers, td: TypeDescriptor, rec: Record, f: Field)
    requires OneWriter(td, td.fields)
    requires f in td.fields && f.relationship.Some?
    ensures f.key !in Embedded(p, td, rec)
  {
    EmbeddedAt(p, td, rec, f.key);
  }

  lemma {:induction false} LastWriterExists(td: TypeDescriptor, fields: seq<Field>, f: Field)
    requires f in fields
    ensures LastWriter(td, fields, OutputKey(td, f)).Some?
  {
    var n := |fields| - 1;
    if OutputKey(td, fields[n]) != OutputKey(td, f) {
      assert fields == fields[..n] + [fields[n]];
      LastWriterExists(td, fields[..n], f);
    }
  }

  lemma OnlyWriter(td: TypeDescriptor, f: Field)
    requires OneWriter(td, td.fields) && f in Plain(td.fields)
    ensures Writer(td, OutputKey(td, f)) == Some(f)
  {
    LastWriterExists(td, Plain(td.fields), f);
  }

  /** Whatever the unique id column is called, an embedded record carries its
      stringified value under `id`, unless the column also serves as option name;
      the option name is found under `name`. */
  lemma EmbeddedId(p: Printers, td: TypeDescriptor, rec: Record, f: Field)
    requires OneWriter(td, td.fields) && f in Plain(td.fields)
    requires f.fromColumn in {td.uniqueIdColumn, td.columnAsOptionName}
    ensures At(Embedded(p, td, rec), if f.fromColumn == td.columnAsOptionName then "name" else "id")
         == Stringify(p, At(rec, f.fromColumn))
  {
    OnlyWriter(td, f);
    EmbeddedAt(p, td, rec, OutputKey(td, f));
  }

  // ----- do embedded records show their ids? -----

  /** The field's value reads the same as its column's: neither money nor a date. */
  predicate ReadsAsColumn(td: TypeDescriptor, f: Field) {
    || f.fromColumn in {td.columnAsOptionName, td.uniqueIdColumn}
    || (f.typ.name != "money" && f.typ.kind !in {"datetime", "date", "time"})
  }

  /** What an embedded record has under `key` identifies the row by `column`. */
  predicate Identifies(td: TypeDescriptor, key: string, column: string) {
    var w := Writer(td, key);
    w.Some? && w.value.fromColumn == column && ReadsAsColumn(td, w.value)
  }

  /** What an embedded record has under the name of its unique id column is that id. */
  predicate ShowsId(td: TypeDescriptor) {
    Identifies(td, td.uniqueIdColumn, td.uniqueIdColumn)
  }

  lemma IdentifiesRow(p: Printers, td: TypeDescriptor, rec: Record, key: string, column: string)
    requires Identifies(td, key, column)
    ensures Stringify(p, At(Embedded(p, td, rec), key)) == Stringify(p, At(rec, column))
    ensures column == td.uniqueIdColumn ==> At(Embedded(p, td, rec), key) == Stringify(p, At(rec, column))
  {
    EmbeddedAt(p, td, rec, key);
    StringifyTwice(p, At(rec, column));
  }

  /** A row with nothing but an id, and a value in that place which does not read so. */
  lemma NotIdentified(p: Printers, td: TypeDescriptor, key: string, column: string)
    requires !Identifies(td, key, column)
    ensures !Stringify(p, At(Embedded(p, td, map[column := Int(1)]), key)).Str?
  {
    var rec: Record := map[column := Int(1)];
    EmbeddedAt(p, td, rec, key);
  }

  /** Among embedded rows a key identifies by a column exactly when its last writer
      reads that column, as neither money nor a date. */
  lemma IdentifiesExactly(p: Printers, td: TypeDescriptor, key: string, column: string)
    ensures Identifies(td, key, column) <==>
              forall rec :: Stringify(p, At(Embedded(p, td, rec), key)) == Stringify(p, At(rec, column))
  {
    if Identifies(td, key, column) {
      forall rec ensures Stringify(p, At(Embedded(p, td, rec), key)) == Stringify(p, At(rec, column)) {
        IdentifiesRow(p, td, rec, key, column);
      }
    } else {
      NotIdentified(p, td, key, column);
      var rec: Record := map[column := Int(1)];
      assert Stringify(p, At(rec, column)).Str?;
      assert Stringify(p, At(Embedded(p, td, rec), key)) != Stringify(p, At(rec, column));
    }
  }

  /** A normalised list holds the ids of its rows, whatever the rows, if and only if
      the last field written under the unique id column's name reads that column. */
  lemma NormalizedShowsIds(p: Printers, td: TypeDescriptor)
    ensures ShowsId(td) <==> forall list: seq<Record>, i :: 0 <= i < |list| ==>
              Normalized(p, td, list)[i] == Stringify(p, At(list[i], td.uniqueIdColumn))
  {
    var uid := td.uniqueIdColumn;
    if ShowsId(td) {
      forall list: seq<Record>, i | 0 <= i < |list|
        ensures Normalized(p, td, list)[i] == Stringify(p, At(list[i], uid))
      {
        IdentifiesRow(p, td, list[i], uid, uid);
      }
    } else {
      NotIdentified(p, td, uid, uid);
      var list := [map[uid := Int(1)]];
      assert Stringify(p, At(list[0], uid)) == Str(Decimal(1));
      assert Normalized(p, td, list)[0] != Str(Decimal(1));
    }
  }

  /** Without any field that writes the unique id column's name, a normalised list
      holds nothing but nulls. */
  lemma NormalizedNulls(p: Printers, td: TypeDescriptor, list: seq<Record>)
    requires Writer(td, td.uniqueIdColumn).None?
    ensures Normalized(p, td, list) == seq(|list|, i => Nil)
  {
    forall i | 0 <= i < |list| ensures Normalized(p, td, list)[i] == Nil {
      EmbeddedAt(p, td, list[i], td.uniqueIdColumn);
    }
  }

  /** With one writer per key and an `id` column that is no option name, an embedded
      record identifies its row. */
  lemma IdFieldIdentifies(td: TypeDescriptor, f: Field)
    requires OneWriter(td, td.fields) && f in Plain(td.fields)
    requires f.fromColumn == td.uniqueIdColumn == "id" != td.columnAsOptionName
    ensures ShowsId(td) && Identifies(td, "id", "id")
  {
    OnlyWriter(td, f);
  }

  // ----- normalised and denormalised results -----

  /** Keeping, of each embedded record, its value in one column only. */
  function Project(v: Value, column: string): Value {
    match v
    case Rows(rs) => List(seq(|rs|, i requires 0 <= i < |rs| => At(rs[i], column)))
    case Map(m) => At(m, column)
    case _ => v
  }

  /** Both look-ups of a to-one field find the same in each of these records. */
  ghost predicate SameLookups(p: Printers, td: TypeDescriptor, list: seq<Record>, foreignColumn: string) {
    forall i :: 0 <= i < |list| ==>
      var full := Embedded(p, td, list[i]);
      Stringify(p, At(full, foreignColumn)) == Stringify(p, At(full, td.uniqueIdColumn))
  }

  lemma {:induction false} SameLastMatch(p: Printers, local: Value, full: seq<Record>, a: string, b: string)
    requires forall i :: 0 <= i < |full| ==> Stringify(p, At(full[i], a)) == Stringify(p, At(full[i], b))
    ensures LastMatch(p, local, full, a) == LastMatch(p, local, full, b)
  {
    if full != [] {
      SameLastMatch(p, local, full[..|full| - 1], a, b);
    }
  }

  /** What the client gets without `$denormalize` is the projection, on the unique
      id column, of what it gets with it, and is present exactly when that is. */
  lemma NormalizedIsProjection(
    p: Printers, cfg: seq<TypeDescriptor>, td: TypeDescriptor, local: Value, list: seq<Record>, f: Field)
    requires f.relationship.Some?
    requires || f.relationship.value.kind == "oneToMany"
             || SameLookups(p, td, list, f.relationship.value.foreignColumn)
    ensures var full := RelationshipValue(Env(p, cfg, true), td, local, list, f);
            RelationshipValue(Env(p, cfg, false), td, local, list, f)
            == if full.None? then None else Some(Project(full.value, td.uniqueIdColumn))
  {
    var full := Denormalized(p, td, list);
    assert Normalized(p, td, list) == seq(|full|, i requires 0 <= i < |full| => At(full[i], td.uniqueIdColumn));
    if f.relationship.value.kind != "oneToMany" {
      SameLastMatch(p, local, full, f.relationship.value.foreignColumn, td.uniqueIdColumn);
    }
  }
}
