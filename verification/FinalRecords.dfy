/** The final records of a query. */
module FinalRecords {
  import opened Values
  import opened Descriptor
  import opened Decode
  import opened Deduplicate
  import opened Join
  import opened Strings
  import opened Formatting
  import opened FormattingProperties
  import opened RelatedRecords

  /** The base record of row `i` with its lists attached. */
  ghost function BaseRecord(q: Query, joined: seq<Joined>, i: nat): Record
    requires q.Valid() && q.Produces(joined) && i < |joined|
  {
    DataHasBase(q, joined);
    Deduplicated(q.Data(joined), q.base.name, q.Rels())[i][q.base.name].m
  }

  /** The workflow record of row `i`. */
  ghost function Final(env: Env, q: Query, joined: seq<Joined>, i: nat): Record
    requires q.Valid() && q.Produces(joined) && i < |joined|
  {
    Formatted(env, q.td, BaseRecord(q, joined, i), q.td.fields)
  }

  /** The configured descriptor of a related table. */
  ghost predicate Configured(env: Env, q: Query, k: nat, rtd: TypeDescriptor)
    requires q.Valid() && k < |q.Rels()|
  {
    DescriptorOf(env.cfg, q.Rels()[k].relationship.value.withTable) == Some(rtd)
  }

  lemma RelsKeys(q: Query)
    requires q.Valid()
    ensures DistinctKeys(q.Rels()) && NoSelfJoin(q.base.name, q.Rels())
    ensures forall f :: f in q.Rels() ==> f in q.td.fields && f.relationship.Some?
  {
    var rels := q.Rels();
    forall f | f in rels ensures f.relationship.value.withTable != q.base.name {
      var k :| 0 <= k < |rels| && rels[k] == f;
      assert Related(q.db, rels[k]).name != q.base.name;
    }
  }

  /** Attaching the lists changes no column. */
  lemma BaseRecordColumn(q: Query, joined: seq<Joined>, i: nat, c: string)
    requires q.Valid() && q.Produces(joined) && i < |joined|
    requires forall f :: f in q.Rels() ==> f.key != c
    ensures At(BaseRecord(q, joined, i), c) == At(joined[i].base, c)
  {
    RelsKeys(q);
    DataHasBase(q, joined);
    DeduplicatedColumn(q.Data(joined), q.base.name, q.Rels(), i, c);
  }

  lemma BaseRecordList(q: Query, joined: seq<Joined>, k: nat, i: nat)
    requires q.Valid() && q.Produces(joined) && k < |q.Rels()| && i < |joined|
    ensures var f, list := q.Rels()[k], q.Link(joined, k).Listed(i);
            At(BaseRecord(q, joined, i), f.key) == Map(map[f.relationship.value.withTable := Rows(list)])
  {
    RelsKeys(q);
    DataHasBase(q, joined);
    DataParts(q, joined, k);
    DeduplicatedList(q.Data(joined), q.base.name, q.Rels(), q.Rels()[k], i);
  }

  lemma BaseRecordLists(q: Query, joined: seq<Joined>, k: nat, i: nat)
    requires q.Valid() && q.Produces(joined) && k < |q.Rels()| && i < |joined|
    ensures var f, rec, l := q.Rels()[k], BaseRecord(q, joined, i), q.Link(joined, k);
            && HasCollection(rec, f)
            && Collection(rec, f) == l.Listed(i)
            && At(rec, f.relationship.value.localColumn) == l.locals[i]
  {
    RelsKeys(q);
    assert q.Rels()[k] in q.Rels();
    BaseRecordList(q, joined, k, i);
    BaseRecordColumn(q, joined, i, q.Rels()[k].relationship.value.localColumn);
  }

  /** A record holds a value under a key, or has no such key. */
  predicate Holds(r: Record, key: string, v: Option<Value>) {
    if v.Some? then key in r && r[key] == v.value else key !in r
  }

  /** A relationship's key in the final record is decided by the row's local value
      and its list; plain fields do not interfere. */
  lemma FinalRelationship(env: Env, q: Query, joined: seq<Joined>, k: nat, i: nat, rtd: TypeDescriptor)
    requires q.Valid() && q.Produces(joined) && k < |q.Rels()| && i < |joined|
    requires Configured(env, q, k, rtd)
    ensures var f, l := q.Rels()[k], q.Link(joined, k);
            Holds(Final(env, q, joined, i), f.key, RelationshipValue(env, rtd, l.locals[i], l.Listed(i), f))
  {
    BaseRecordLists(q, joined, k, i);
    RelationshipAt(env, q.td, BaseRecord(q, joined, i), q.td.fields, k);
  }

  /** The columns a field's value is made from. */
  function SourceColumns(f: Field): set<string> {
    if f.typ.name == "money" then {f.fromColumn, f.typ.amount.fromColumn, f.typ.currency.fromColumn} else {f.fromColumn}
  }

  lemma SameCellsShown(p: Printers, td: TypeDescriptor, a: Record, b: Record, f: Field, r: Record)
    requires forall c :: c in SourceColumns(f) ==> At(a, c) == At(b, c)
    ensures ShowsField(p, td, a, f, r) == ShowsField(p, td, b, f, r)
  {
  }

  /** A final record shows, of its row, every field that is no relationship and the last
      to write its key, unless a relationship's key is one of its columns. */
  lemma FinalPlain(env: Env, q: Query, joined: seq<Joined>, i: nat, n: nat)
    requires q.Valid() && q.Produces(joined) && i < |joined|
    requires n < |Plain(q.td.fields)| && LastToWrite(q.td, Plain(q.td.fields), n)
    requires forall g :: g in q.Rels() ==> g.key !in SourceColumns(Plain(q.td.fields)[n])
    ensures ShowsField(env.p, q.td, joined[i].base, Plain(q.td.fields)[n], Final(env, q, joined, i))
  {
    var f, rec := Plain(q.td.fields)[n], BaseRecord(q, joined, i);
    forall g | g in Plain(q.td.fields) ensures g.relationship.None? {
    }
    var first := Apply(RelationshipWrites(env, rec, q.Rels()));
    PlainShown(env.p, q.td, rec, Plain(q.td.fields), first);
    ApplyAppend(RelationshipWrites(env, rec, q.Rels()), PlainWrites(env.p, q.td, rec, Plain(q.td.fields)));
    forall c | c in SourceColumns(f) ensures At(rec, c) == At(joined[i].base, c) {
      BaseRecordColumn(q, joined, i, c);
    }
    SameCellsShown(env.p, q.td, rec, joined[i].base, f, Final(env, q, joined, i));
  }
}
