/** What the to-one fields of final records show, and when that is wrong. */
module ToOneFields {
  import opened Values
  import opened Descriptor
  import opened Decode
  import opened Deduplicate
  import opened Join
  import opened Strings
  import opened Formatting
  import opened FormattingProperties
  import opened RelatedRecords
  import opened FinalRecords

  // ----- what is looked up -----

  /** The key of the embedded records whose value is compared with the local one. */
  function LookupKey(env: Env, rtd: TypeDescriptor, rel: Relationship): string {
    if env.denormalize then rel.foreignColumn else rtd.uniqueIdColumn
  }

  /** What is shown of a related record: all of it, or its unique id. */
  function Shown(env: Env, rtd: TypeDescriptor, r: Record): Value {
    var full := Embedded(env.p, rtd, r);
    if env.denormalize then Map(full) else At(full, rtd.uniqueIdColumn)
  }

  predicate ReadAlike(p: Printers, a: Value, b: Value) {
    Stringify(p, a) == Stringify(p, b)
  }

  lemma {:induction false} LastMatchIs(
    p: Printers, local: Value, list: seq<Record>, idColumn: string, r: Option<Record>)
    requires forall i :: 0 <= i < |list| && ReadAlike(p, local, At(list[i], idColumn)) ==> r == Some(list[i])
    requires r.Some? ==> r.value in list && ReadAlike(p, local, At(r.value, idColumn))
    ensures LastMatch(p, local, list, idColumn) == r
  {
    if list != [] {
      var n := |list| - 1;
      if !ReadAlike(p, local, At(list[n], idColumn)) {
        if r.Some? { InSnoc(list, r.value); }
        LastMatchIs(p, local, list[..n], idColumn, r);
      }
    }
  }

  lemma {:induction false} LastMatchFound(p: Printers, local: Value, list: seq<Record>, idColumn: string, w: nat)
    returns (j: nat)
    requires w < |list| && ReadAlike(p, local, At(list[w], idColumn))
    ensures j < |list| && ReadAlike(p, local, At(list[j], idColumn))
    ensures LastMatch(p, local, list, idColumn) == Some(list[j])
  {
    j := |list| - 1;
    if !ReadAlike(p, local, At(list[j], idColumn)) {
      j := LastMatchFound(p, local, list[..j], idColumn, w);
    }
  }

  /** A to-one relationship whose embedded records are identified by what is looked up. */
  predicate Identified(env: Env, rtd: TypeDescriptor, f: Field) {
    && f.relationship.Some? && f.relationship.value.kind != "oneToMany"
    && Identifies(rtd, LookupKey(env, rtd, f.relationship.value), f.relationship.value.foreignColumn)
  }

  /** Of a list with a record that reads like the local value, some such record is shown. */
  lemma SomeShown(env: Env, rtd: TypeDescriptor, local: Value, list: seq<Record>, f: Field, r: Record)
    returns (x: Record)
    requires Identified(env, rtd, f) && r in list
    requires ReadAlike(env.p, local, At(r, f.relationship.value.foreignColumn))
    ensures x in list && ReadAlike(env.p, local, At(x, f.relationship.value.foreignColumn))
    ensures RelationshipValue(env, rtd, local, list, f) == Some(Shown(env, rtd, x))
  {
    var rel := f.relationship.value;
    var key, full := LookupKey(env, rtd, rel), Denormalized(env.p, rtd, list);
    var w :| 0 <= w < |list| && list[w] == r;
    IdentifiesRow(env.p, rtd, list[w], key, rel.foreignColumn);
    assert full[w] == Embedded(env.p, rtd, list[w]);
    var j := LastMatchFound(env.p, local, full, key, w);
    x := list[j];
    IdentifiesRow(env.p, rtd, x, key, rel.foreignColumn);
  }

  /** Of a list without one, nothing is shown. */
  lemma NoneShown(env: Env, rtd: TypeDescriptor, local: Value, list: seq<Record>, f: Field)
    requires Identified(env, rtd, f) && |list| > 0
    requires forall x :: x in list ==> !ReadAlike(env.p, local, At(x, f.relationship.value.foreignColumn))
    ensures RelationshipValue(env, rtd, local, list, f) == None
  {
    var rel := f.relationship.value;
    var key, full := LookupKey(env, rtd, rel), Denormalized(env.p, rtd, list);
    forall i | 0 <= i < |full| ensures !ReadAlike(env.p, local, At(full[i], key)) {
      IdentifiesRow(env.p, rtd, list[i], key, rel.foreignColumn);
      assert list[i] in list;
    }
    LastMatchIs(env.p, local, full, key, None);
  }

  // ----- keys that read alike -----

  /** A related row that a local value can match. */
  predicate Keyed(rows: seq<Record>, column: string, r: Record) {
    r in rows && At(r, column) != Nil
  }

  /** Whatever reads like a row's key is shown like the row: text tells the rows apart,
      from one another and from a blank record, as far as they look different. */
  ghost predicate AlikeShownAlike(env: Env, rtd: TypeDescriptor, rows: seq<Record>, blank: Record, column: string) {
    forall r, s ::
      && Keyed(rows, column, r) && (s == blank || Keyed(rows, column, s))
      && ReadAlike(env.p, At(r, column), At(s, column))
      ==> Shown(env, rtd, r) == Shown(env, rtd, s)
  }

  /** Values of which the text is neither missing nor empty. */
  predicate Reads(p: Printers, v: Value) {
    Stringify(p, v) != Nil && Stringify(p, v) != Str("")
  }

  /** An identifier column of any type: every row has an id that reads as something,
      and no two rows have ids that read alike. */
  ghost predicate IdColumn(p: Printers, rows: seq<Record>, column: string) {
    && (forall r :: r in rows ==> Reads(p, At(r, column)))
    && (forall r, s :: r in rows && s in rows && ReadAlike(p, At(r, column), At(s, column)) ==> r == s)
  }

  /** A blank record has nothing that reads like an identifier. */
  lemma BlankReadsEmpty(p: Printers, blank: Record, column: string)
    requires !HasContent(blank)
    ensures !Reads(p, At(blank, column))
  {
    assert column in blank ==> !NonEmpty(blank[column]);
  }

  lemma IdColumnTellsApart(env: Env, rtd: TypeDescriptor, rows: seq<Record>, blank: Record, column: string)
    requires IdColumn(env.p, rows, column) && !HasContent(blank)
    ensures AlikeShownAlike(env, rtd, rows, blank, column)
  {
    BlankReadsEmpty(env.p, blank, column);
  }

  /** Unique integers, or unique non-empty texts. */
  ghost predicate TypedIds(rows: seq<Record>, column: string) {
    forall r, s :: r in rows && s in rows ==>
      && NonEmpty(At(r, column))
      && SameIdType(At(r, column), At(s, column))
      && (At(r, column) == At(s, column) ==> r == s)
  }

  /** They are identifiers under any printing. */
  lemma TypedIdColumn(p: Printers, rows: seq<Record>, column: string)
    requires TypedIds(rows, column)
    ensures IdColumn(p, rows, column)
  {
    forall r | r in rows ensures Reads(p, At(r, column)) {
      var v := At(r, column);
      assert SameIdType(v, v) && NonEmpty(v);
      if v.Int? { assert Decimal(v.i) != ""; }
    }
    forall r, s | r in rows && s in rows && ReadAlike(p, At(r, column), At(s, column)) ensures r == s {
      IdsAreText(p, At(r, column), At(s, column));
    }
  }

  // ----- to-one fields -----

  /** The text of row `i`'s key leads to the right record: what reads like it is shown
      like its match, or, without a match, no row's key reads like it. */
  ghost predicate ReadsClearly(env: Env, rtd: TypeDescriptor, l: Links, i: nat)
    requires i < |l.locals| == |l.matches|
  {
    if l.Matched(i) then AlikeShownAlike(env, rtd, l.rows, l.blank, l.foreign)
    else NoneReadsLike(env.p, l, l.locals[i])
  }

  /** No row's key reads like the value. */
  ghost predicate NoneReadsLike(p: Printers, l: Links, v: Value) {
    forall r :: Keyed(l.rows, l.foreign, r) ==> !ReadAlike(p, v, At(r, l.foreign))
  }

  /** What a to-one field holds: the row's own related record if there is one;
      otherwise an empty list until some row has matched, and then nothing, unless
      the local value reads like a blank record's. */
  ghost function ToOneOutcome(env: Env, rtd: TypeDescriptor, l: Links, i: nat): Option<Value>
    requires i < |l.locals| == |l.matches|
  {
    if l.Matched(i) then Some(Shown(env, rtd, l.matches[i].value))
    else if !l.MatchedBefore(i) then Some(List([]))
    else if ReadAlike(env.p, l.locals[i], At(l.blank, l.foreign)) then Some(Shown(env, rtd, l.blank))
    else None
  }

  lemma MatchedReads(l: Links, i: nat)
    requires l.Valid() && i < |l.matches| && l.Matched(i)
    ensures Keyed(l.rows, l.foreign, l.Contribution(i))
    ensures At(l.Contribution(i), l.foreign) == l.locals[i]
  {
    ContentIsMatch(l, i);
  }

  /** Only rows that have matched, and blank records, are ever listed. */
  lemma ListedAreKeyed(l: Links, i: nat, x: Record)
    requires l.Valid() && i < |l.matches| && x in l.Listed(i)
    ensures x == l.blank || Keyed(l.rows, l.foreign, x)
  {
    var m, j := ListedFrom(l, x, i);
    if l.Matched(j) { MatchedReads(l, j); }
  }

  /** A matched row's field shows a record that reads like its key. */
  lemma MatchedValue(env: Env, rtd: TypeDescriptor, l: Links, i: nat, f: Field)
    requires l.Valid() && i < |l.matches| && l.Matched(i)
    requires Identified(env, rtd, f) && f.relationship.value.foreignColumn == l.foreign
    requires AlikeShownAlike(env, rtd, l.rows, l.blank, l.foreign)
    ensures RelationshipValue(env, rtd, l.locals[i], l.Listed(i), f) == Some(Shown(env, rtd, l.matches[i].value))
  {
    var own := l.Contribution(i);
    MatchedReads(l, i);
    ContributionListed(l, i, i, i);
    var x := SomeShown(env, rtd, l.locals[i], l.Listed(i), f, own);
    ListedAreKeyed(l, i, x);
    assert Shown(env, rtd, own) == Shown(env, rtd, x);
  }

  lemma UnmatchedValue(env: Env, rtd: TypeDescriptor, l: Links, i: nat, f: Field)
    requires l.Valid() && i < |l.matches| && !l.Matched(i) && NoneReadsLike(env.p, l, l.locals[i])
    requires Identified(env, rtd, f) && f.relationship.value.foreignColumn == l.foreign
    ensures RelationshipValue(env, rtd, l.locals[i], l.Listed(i), f) == ToOneOutcome(env, rtd, l, i)
  {
    if l.MatchedBefore(i) {
      UnmatchedLater(env, rtd, l, i, f);
    } else {
      NothingYet(env, rtd, l, i, f);
    }
  }

  lemma UnmatchedLater(env: Env, rtd: TypeDescriptor, l: Links, i: nat, f: Field)
    requires l.Valid() && i < |l.matches| && l.MatchedBefore(i) && !l.Matched(i) && NoneReadsLike(env.p, l, l.locals[i])
    requires Identified(env, rtd, f) && f.relationship.value.foreignColumn == l.foreign
    ensures RelationshipValue(env, rtd, l.locals[i], l.Listed(i), f) == ToOneOutcome(env, rtd, l, i)
  {
    var m: nat :| m < i && l.Matched(m);
    ContributionListed(l, m, i, i);
    BlankOrNone(env, rtd, l, i, f);
  }

  lemma NothingYet(env: Env, rtd: TypeDescriptor, l: Links, i: nat, f: Field)
    requires l.Valid() && i < |l.matches| && f.relationship.Some?
    requires !l.MatchedBefore(i) && !l.Matched(i)
    ensures RelationshipValue(env, rtd, l.locals[i], l.Listed(i), f) == Some(List([]))
  {
    assert |l.Listed(i)| == 0 by {
      ListedEmpty(l, i);
      forall m: nat | m <= i ensures !l.Matched(m) {
        assert m < i || m == i;
      }
    }
  }

  lemma BlankOrNone(env: Env, rtd: TypeDescriptor, l: Links, i: nat, f: Field)
    requires l.Valid() && i < |l.matches| && l.blank in l.Listed(i)
    requires NoneReadsLike(env.p, l, l.locals[i])
    requires Identified(env, rtd, f) && f.relationship.value.foreignColumn == l.foreign
    ensures RelationshipValue(env, rtd, l.locals[i], l.Listed(i), f)
         == if ReadAlike(env.p, l.locals[i], At(l.blank, l.foreign)) then Some(Shown(env, rtd, l.blank)) else None
  {
    var local, list := l.locals[i], l.Listed(i);
    forall x | x in list && ReadAlike(env.p, local, At(x, l.foreign)) ensures x == l.blank {
      ListedAreKeyed(l, i, x);
    }
    if ReadAlike(env.p, local, At(l.blank, l.foreign)) {
      var x := SomeShown(env, rtd, local, list, f, l.blank);
    } else {
      NoneShown(env, rtd, local, list, f);
    }
  }

  /** In every row of every collection a to-one field shows the row's own related
      record whenever its foreign key exists, although the list searched holds the
      records of other rows. */
  lemma ToOneShowsOwnRecord(env: Env, q: Query, joined: seq<Joined>, k: nat, i: nat, rtd: TypeDescriptor)
    requires q.Valid() && q.Produces(joined) && k < |q.Rels()| && i < |joined|
    requires Configured(env, q, k, rtd) && Identified(env, rtd, q.Rels()[k])
    requires ReadsClearly(env, rtd, q.Link(joined, k), i)
    ensures Holds(Final(env, q, joined, i), q.Rels()[k].key, ToOneOutcome(env, rtd, q.Link(joined, k), i))
  {
    var l := q.Link(joined, k);
    LinkValid(q, joined, k);
    FinalRelationship(env, q, joined, k, i, rtd);
    if l.Matched(i) {
      MatchedValue(env, rtd, l, i, q.Rels()[k]);
    } else {
      UnmatchedValue(env, rtd, l, i, q.Rels()[k]);
    }
  }

  /** What reads like a row's key is shown like the row, in the table of relationship `k`. */
  ghost predicate TellsApart(env: Env, q: Query, k: nat, rtd: TypeDescriptor)
    requires q.Valid() && k < |q.Rels()|
  {
    var t := Related(q.db, q.Rels()[k]);
    AlikeShownAlike(env, rtd, t.rows, t.blank, q.Rels()[k].relationship.value.foreignColumn)
  }

  /** The same in the database's terms: a foreign key that exists is resolved. */
  lemma ForeignKeyResolved(
    env: Env, q: Query, joined: seq<Joined>, k: nat, i: nat, rtd: TypeDescriptor, r: Record)
    requires q.Valid() && q.Produces(joined) && k < |q.Rels()| && i < |joined|
    requires Configured(env, q, k, rtd) && Identified(env, rtd, q.Rels()[k]) && TellsApart(env, q, k, rtd)
    requires r in Matches(q.db, q.Rels()[k], joined[i].base)
    ensures Holds(Final(env, q, joined, i), q.Rels()[k].key, Some(Shown(env, rtd, r)))
  {
    var l := q.Link(joined, k);
    LinkValid(q, joined, k);
    LinkOwn(q, joined, k, i, joined[i].base);
    ContentIsMatch(l, i);
    assert l.Matched(i);
    MatchedReads(l, i);
    ToOneShowsOwnRecord(env, q, joined, k, i, rtd);
    assert Keyed(l.rows, l.foreign, r) && ReadAlike(env.p, At(r, l.foreign), At(l.Contribution(i), l.foreign));
    assert Shown(env, rtd, r) == Shown(env, rtd, l.Contribution(i));
  }

  // ----- which descriptors show a to-one field at all? -----

  /** Without a field that writes the key looked up, a matched row loses its field. */
  lemma NeverShown(env: Env, q: Query, joined: seq<Joined>, k: nat, i: nat, rtd: TypeDescriptor)
    requires q.Valid() && q.Produces(joined) && k < |q.Rels()| && i < |joined| && Configured(env, q, k, rtd)
    requires var f, l := q.Rels()[k], q.Link(joined, k);
             && f.relationship.value.kind != "oneToMany"
             && Writer(rtd, LookupKey(env, rtd, f.relationship.value)).None?
             && l.Matched(i) && Stringify(env.p, l.locals[i]) != Nil
    ensures q.Rels()[k].key !in Final(env, q, joined, i)
  {
    var f, l := q.Rels()[k], q.Link(joined, k);
    LinkValid(q, joined, k);
    FinalRelationship(env, q, joined, k, i, rtd);
    ContributionListed(l, i, i, i);
    NothingFound(env.p, rtd, l.locals[i], l.Listed(i), LookupKey(env, rtd, f.relationship.value));
  }

  lemma NothingFound(p: Printers, rtd: TypeDescriptor, local: Value, list: seq<Record>, key: string)
    requires Writer(rtd, key).None? && Stringify(p, local) != Nil
    ensures LastMatch(p, local, Denormalized(p, rtd, list), key) == None
  {
    var full := Denormalized(p, rtd, list);
    forall i | 0 <= i < |full| ensures !ReadAlike(p, local, At(full[i], key)) {
      EmbeddedAt(p, rtd, list[i], key);
    }
    LastMatchIs(p, local, full, key, None);
  }

  /** The rows of a join, of which relationship `k` is `f` and row `i` has a match for it. */
  ghost predicate MatchedToOne(
    env: Env, f: Field, rtd: TypeDescriptor, q: Query, joined: seq<Joined>, k: nat, i: nat)
  {
    && q.Valid() && Covers(q, joined) && k < |q.Rels()| && i < |joined|
    && q.Rels()[k] == f && Configured(env, q, k, rtd) && q.Link(joined, k).Matched(i)
  }

  ghost predicate ShowsMatch(
    env: Env, f: Field, rtd: TypeDescriptor, q: Query, joined: seq<Joined>, k: nat, i: nat)
    requires MatchedToOne(env, f, rtd, q, joined, k, i)
  {
    Holds(Final(env, q, joined, i), f.key, Some(Shown(env, rtd, q.Link(joined, k).matches[i].value)))
  }

  /** In every database of which text tells the related rows apart, a matched row shows
      its related record. */
  ghost predicate AlwaysShown(env: Env, f: Field, rtd: TypeDescriptor) {
    forall q, joined, k: nat, i: nat ::
      MatchedToOne(env, f, rtd, q, joined, k, i) && TellsApart(env, q, k, rtd) ==>
        ShowsMatch(env, f, rtd, q, joined, k, i)
  }

  lemma OneRelationshipApart(td: TypeDescriptor, f: Field)
    requires f.relationship.Some?
    ensures KeysApart(td, [f])
  {
    OneRelationship(f);
  }

  /** One base row with the key 1, one related row with the id 1, and nothing else. */
  function Smallest(f: Field): Query
    requires f.relationship.Some?
  {
    var rel, name := f.relationship.value, f.relationship.value.withTable + "_";
    Query(map[rel.withTable := Table(rel.withTable, [rel.foreignColumn], [map[rel.foreignColumn := Int(1)]],
                                     map[rel.foreignColumn := Nil])],
          Table(name, [rel.localColumn], [map[rel.localColumn := Int(1)]], map[rel.localColumn := Nil]),
          TypeDescriptor("", name, "", "", [f]),
          [map[rel.localColumn := Int(1)]])
  }

  function SmallestJoin(f: Field): seq<Joined>
    requires f.relationship.Some?
  {
    var rel := f.relationship.value;
    [Joined(map[rel.localColumn := Int(1)], [Some(map[rel.foreignColumn := Int(1)])])]
  }

  lemma SmallestTables(f: Field)
    requires f.relationship.Some? && NUL !in f.relationship.value.withTable
    ensures ValidTable(Smallest(f).base) && ValidTable(Smallest(f).db[f.relationship.value.withTable])
    ensures forall r :: r in Smallest(f).db[f.relationship.value.withTable].rows ==> HasContent(r)
    ensures forall b :: b in Smallest(f).selected ==> RowOf(Smallest(f).base, b)
    ensures Smallest(f).base.name != f.relationship.value.withTable
    ensures KeysApart(Smallest(f).td, [f])
  {
    var r: Record := map[f.relationship.value.foreignColumn := Int(1)];
    assert NonEmpty(r[f.relationship.value.foreignColumn]);
    assert |Smallest(f).base.name| == |f.relationship.value.withTable| + 1;
    OneRelationshipApart(Smallest(f).td, f);
  }

  lemma SmallestRels(f: Field)
    requires f.relationship.Some?
    ensures Smallest(f).Rels() == [f]
  {
    OneRelationship(f);
  }

  lemma SmallestValid(f: Field)
    requires f.relationship.Some? && NUL !in f.relationship.value.withTable
    requires f.key != f.relationship.value.localColumn
    ensures Smallest(f).Rels() == [f] && Smallest(f).Valid()
  {
    SmallestRels(f);
    SmallestTables(f);
    OneRelationshipValid(Smallest(f), f);
  }

  /** A base row whose key belongs to one related row has one row in the join. */
  lemma OneChoice(db: Database, f: Field, b: Record, r: Record, o: Option<Record>)
    requires HasTable(db, f) && UniqueKeys(Related(db, f).rows, f.relationship.value.foreignColumn)
    requires Keyed(Related(db, f).rows, f.relationship.value.foreignColumn, r)
    requires At(r, f.relationship.value.foreignColumn) == At(b, f.relationship.value.localColumn)
    ensures Choice(Matches(db, f, b), o) <==> o == Some(r)
  {
    assert r in Matches(db, f, b);
  }

  /** No two related rows have the same key. */
  ghost predicate UniqueKeys(rows: seq<Record>, column: string) {
    forall r, s :: Keyed(rows, column, r) && Keyed(rows, column, s) && At(r, column) == At(s, column) ==> r == s
  }

  lemma SmallestCovers(f: Field)
    requires f.relationship.Some? && Smallest(f).Rels() == [f] && Smallest(f).Valid()
    ensures Covers(Smallest(f), SmallestJoin(f))
  {
    var q, rel := Smallest(f), f.relationship.value;
    var b, r: Record := map[rel.localColumn := Int(1)], map[rel.foreignColumn := Int(1)];
    OneChoice(q.db, f, b, r, Some(r));
    forall j | JoinedFrom(q.db, q.selected, q.Rels(), j) ensures j in SmallestJoin(f) {
      OneChoice(q.db, f, b, r, j.related[0]);
      assert j == Joined(b, [Some(r)]);
    }
  }

  lemma SmallestLink(f: Field)
    requires f.relationship.Some? && Smallest(f).Rels() == [f] && Smallest(f).Valid()
    requires Smallest(f).Produces(SmallestJoin(f))
    ensures var column, l := f.relationship.value.foreignColumn, Smallest(f).Link(SmallestJoin(f), 0);
            l == Links([map[column := Int(1)]], map[column := Nil], column, [Int(1)], [Some(map[column := Int(1)])])
  {
  }

  lemma SmallestMatched(env: Env, f: Field, rtd: TypeDescriptor)
    requires f.relationship.Some? && NUL !in f.relationship.value.withTable
    requires f.key != f.relationship.value.localColumn
    requires DescriptorOf(env.cfg, f.relationship.value.withTable) == Some(rtd)
    ensures MatchedToOne(env, f, rtd, Smallest(f), SmallestJoin(f), 0, 0)
    ensures TellsApart(env, Smallest(f), 0, rtd)
  {
    SmallestValid(f);
    SmallestCovers(f);
    SmallestLink(f);
    var column := f.relationship.value.foreignColumn;
    assert Stringify(env.p, Int(1)) != Stringify(env.p, Nil);
  }

  lemma SmallestDropped(env: Env, f: Field, rtd: TypeDescriptor)
    requires f.relationship.Some? && f.relationship.value.kind != "oneToMany"
    requires MatchedToOne(env, f, rtd, Smallest(f), SmallestJoin(f), 0, 0)
    requires !Identifies(rtd, LookupKey(env, rtd, f.relationship.value), f.relationship.value.foreignColumn)
    ensures f.key !in Final(env, Smallest(f), SmallestJoin(f), 0)
  {
    var q, joined, rel := Smallest(f), SmallestJoin(f), f.relationship.value;
    SmallestLink(f);
    LinkValid(q, joined, 0);
    FinalRelationship(env, q, joined, 0, 0, rtd);
    OneRowDropped(env, rtd, q.Link(joined, 0), f);
  }

  lemma OneRowDropped(env: Env, rtd: TypeDescriptor, l: Links, f: Field)
    requires l.Valid() && f.relationship.Some? && f.relationship.value.kind != "oneToMany"
    requires f.relationship.value.foreignColumn == l.foreign
    requires !Identifies(rtd, LookupKey(env, rtd, f.relationship.value), l.foreign)
    requires var r := map[l.foreign := Int(1)];
             l.locals == [Int(1)] && l.matches == [Some(r)]
    ensures RelationshipValue(env, rtd, Int(1), l.Listed(0), f) == None
  {
    var key := LookupKey(env, rtd, f.relationship.value);
    ContributionListed(l, 0, 0, 0);
    var full := Denormalized(env.p, rtd, l.Listed(0));
    forall x | 0 <= x < |full| ensures !ReadAlike(env.p, Int(1), At(full[x], key)) {
      var m, j := ListedFrom(l, l.Listed(0)[x], 0);
      NotIdentified(env.p, rtd, key, l.foreign);
    }
    LastMatchIs(env.p, Int(1), full, key, None);
  }

  lemma MatchedShows(
    env: Env, f: Field, rtd: TypeDescriptor, q: Query, joined: seq<Joined>, k: nat, i: nat)
    requires MatchedToOne(env, f, rtd, q, joined, k, i) && TellsApart(env, q, k, rtd) && Identified(env, rtd, f)
    ensures ShowsMatch(env, f, rtd, q, joined, k, i)
  {
    ToOneShowsOwnRecord(env, q, joined, k, i, rtd);
  }

  /** As long as text tells the related rows apart, a to-one field always shows the row's
      own related record if and only if the last plain field of the related type written
      under the key looked up reads the foreign column, as neither money nor a date. */
  lemma AlwaysShownExactly(env: Env, f: Field, rtd: TypeDescriptor)
    requires f.relationship.Some? && f.relationship.value.kind != "oneToMany"
    requires DescriptorOf(env.cfg, f.relationship.value.withTable) == Some(rtd)
    requires NUL !in f.relationship.value.withTable && f.key != f.relationship.value.localColumn
    ensures AlwaysShown(env, f, rtd) <==> Identified(env, rtd, f)
  {
    if Identified(env, rtd, f) {
      forall q, joined, k: nat, i: nat |
        MatchedToOne(env, f, rtd, q, joined, k, i) && TellsApart(env, q, k, rtd)
        ensures ShowsMatch(env, f, rtd, q, joined, k, i)
      {
        MatchedShows(env, f, rtd, q, joined, k, i);
      }
    } else {
      SmallestNotShown(env, f, rtd);
    }
  }

  lemma SmallestNotShown(env: Env, f: Field, rtd: TypeDescriptor)
    requires f.relationship.Some? && f.relationship.value.kind != "oneToMany" && !Identified(env, rtd, f)
    requires DescriptorOf(env.cfg, f.relationship.value.withTable) == Some(rtd)
    requires NUL !in f.relationship.value.withTable && f.key != f.relationship.value.localColumn
    ensures !AlwaysShown(env, f, rtd)
  {
    SmallestFails(env, f, rtd);
    CounterExample(env, f, rtd, Smallest(f), SmallestJoin(f), 0, 0);
  }

  lemma SmallestFails(env: Env, f: Field, rtd: TypeDescriptor)
    requires f.relationship.Some? && f.relationship.value.kind != "oneToMany" && !Identified(env, rtd, f)
    requires DescriptorOf(env.cfg, f.relationship.value.withTable) == Some(rtd)
    requires NUL !in f.relationship.value.withTable && f.key != f.relationship.value.localColumn
    ensures MatchedToOne(env, f, rtd, Smallest(f), SmallestJoin(f), 0, 0) && TellsApart(env, Smallest(f), 0, rtd)
    ensures f.key !in Final(env, Smallest(f), SmallestJoin(f), 0)
  {
    SmallestMatched(env, f, rtd);
    SmallestDropped(env, f, rtd);
  }

  lemma CounterExample(
    env: Env, f: Field, rtd: TypeDescriptor, q: Query, joined: seq<Joined>, k: nat, i: nat)
    requires MatchedToOne(env, f, rtd, q, joined, k, i) && TellsApart(env, q, k, rtd)
    requires f.key !in Final(env, q, joined, i)
    ensures !AlwaysShown(env, f, rtd)
  {
    assert !ShowsMatch(env, f, rtd, q, joined, k, i);
  }

  // ----- which tables does a to-one field show rightly? -----

  /** In every collection over the related table `t`, a matched row shows its related record. */
  ghost predicate AlwaysShownOf(env: Env, f: Field, rtd: TypeDescriptor, t: Table) {
    forall q, joined, k: nat, i: nat ::
      MatchedToOne(env, f, rtd, q, joined, k, i) && Related(q.db, f) == t ==>
        ShowsMatch(env, f, rtd, q, joined, k, i)
  }

  /** Three base rows: two that belong to `r`, and between them one with the key `y`. */
  function BaseRow(f: Field, n: int, v: Value): Record
    requires f.relationship.Some?
  {
    var local := f.relationship.value.localColumn;
    map[local := v, local + "_" := Int(n)]
  }

  function Three(f: Field, t: Table, x: Value, y: Value): Query
    requires f.relationship.Some?
  {
    var rel := f.relationship.value;
    var name, rows := rel.withTable + "_", [BaseRow(f, 0, x), BaseRow(f, 1, y), BaseRow(f, 2, x)];
    var columns := [rel.localColumn, rel.localColumn + "_"];
    Query(map[rel.withTable := t],
          Table(name, columns, rows, map[rel.localColumn := Nil, rel.localColumn + "_" := Nil]),
          TypeDescriptor("", name, "", "", [f]), rows)
  }

  function ThreeJoin(f: Field, x: Value, y: Value, r: Record, s: Option<Record>): seq<Joined>
    requires f.relationship.Some?
  {
    [Joined(BaseRow(f, 0, x), [Some(r)]), Joined(BaseRow(f, 1, y), [s]), Joined(BaseRow(f, 2, x), [Some(r)])]
  }

  /** A table that can be related by `f`: its keys are unique and no row is empty. */
  ghost predicate RelatedBy(f: Field, t: Table) {
    && f.relationship.Some? && f.key != f.relationship.value.localColumn
    && ValidTable(t) && t.name == f.relationship.value.withTable
    && UniqueKeys(t.rows, f.relationship.value.foreignColumn)
    && forall r :: r in t.rows ==> HasContent(r)
  }

  lemma ThreeBase(f: Field, t: Table, x: Value, y: Value)
    requires RelatedBy(f, t)
    ensures var q := Three(f, t, x, y);
            && ValidTable(q.base) && (forall b :: b in q.selected ==> RowOf(q.base, b))
            && q.base.name != f.relationship.value.withTable
  {
    OtherName(t.name);
    OtherName(f.relationship.value.localColumn);
  }

  lemma OtherName(name: string)
    ensures name + "_" != name && (NUL !in name ==> NUL !in name + "_")
  {
    assert |name + "_"| == |name| + 1;
  }

  lemma ThreeValid(f: Field, t: Table, x: Value, y: Value)
    requires RelatedBy(f, t)
    ensures Three(f, t, x, y).Rels() == [f] && Three(f, t, x, y).Valid()
  {
    OneRelationship(f);
    ThreeBase(f, t, x, y);
    OneRelationshipApart(Three(f, t, x, y).td, f);
    OneRelationshipValid(Three(f, t, x, y), f);
  }

  /** A key of `t` and its row, or NULL and none. */
  ghost predicate Partner(f: Field, t: Table, y: Value, s: Option<Record>)
    requires f.relationship.Some?
  {
    var column := f.relationship.value.foreignColumn;
    if s.Some? then Keyed(t.rows, column, s.value) && At(s.value, column) == y else y == Nil
  }

  lemma PartnerChoice(f: Field, t: Table, x: Value, y: Value, n: int, v: Value, s: Option<Record>, o: Option<Record>)
    requires RelatedBy(f, t) && Partner(f, t, v, s)
    ensures Choice(Matches(Three(f, t, x, y).db, f, BaseRow(f, n, v)), o) <==> o == s
  {
    var local := f.relationship.value.localColumn;
    OtherName(local);
    assert At(BaseRow(f, n, v), local) == v;
    if s.Some? {
      OneChoice(Three(f, t, x, y).db, f, BaseRow(f, n, v), s.value, o);
    } else {
      NullMatchesNothing(t.rows, f.relationship.value.foreignColumn);
    }
  }

  lemma PartnerJoined(f: Field, t: Table, x: Value, y: Value, n: int, v: Value, s: Option<Record>)
    requires RelatedBy(f, t) && Partner(f, t, v, s) && BaseRow(f, n, v) in Three(f, t, x, y).selected
    requires Known(Three(f, t, x, y).db, [f])
    ensures JoinedFrom(Three(f, t, x, y).db, Three(f, t, x, y).selected, [f], Joined(BaseRow(f, n, v), [s]))
  {
    PartnerChoice(f, t, x, y, n, v, s, s);
  }

  lemma ProducesThree(q: Query, joined: seq<Joined>, f: Field)
    requires q.Valid() && q.Rels() == [f] && |joined| == 3
    requires JoinedFrom(q.db, q.selected, [f], joined[0]) && JoinedFrom(q.db, q.selected, [f], joined[1])
    requires JoinedFrom(q.db, q.selected, [f], joined[2])
    ensures q.Produces(joined)
  {
  }

  lemma ThreeCovers(f: Field, t: Table, x: Value, y: Value, r: Record, s: Option<Record>)
    requires RelatedBy(f, t) && Partner(f, t, x, Some(r)) && Partner(f, t, y, s)
    requires Three(f, t, x, y).Rels() == [f] && Three(f, t, x, y).Valid()
    ensures Covers(Three(f, t, x, y), ThreeJoin(f, x, y, r, s))
  {
    var q, joined := Three(f, t, x, y), ThreeJoin(f, x, y, r, s);
    assert q.Produces(joined) by {
      PartnerJoined(f, t, x, y, 0, x, Some(r));
      PartnerJoined(f, t, x, y, 1, y, s);
      PartnerJoined(f, t, x, y, 2, x, Some(r));
      ProducesThree(q, joined, f);
    }
    forall j | JoinedFrom(q.db, q.selected, [f], j) ensures j in joined {
      ThreeRow(f, t, x, y, r, s, j);
    }
  }

  lemma ThreeRow(f: Field, t: Table, x: Value, y: Value, r: Record, s: Option<Record>, j: Joined)
    requires RelatedBy(f, t) && Partner(f, t, x, Some(r)) && Partner(f, t, y, s)
    requires Known(Three(f, t, x, y).db, [f])
    requires JoinedFrom(Three(f, t, x, y).db, Three(f, t, x, y).selected, [f], j)
    ensures j in ThreeJoin(f, x, y, r, s)
  {
    var o := j.related[0];
    assert j.related == [o];
    PartnerChoice(f, t, x, y, 0, x, Some(r), o);
    PartnerChoice(f, t, x, y, 1, y, s, o);
    PartnerChoice(f, t, x, y, 2, x, Some(r), o);
    if j.base == BaseRow(f, 0, x) {
      assert j == ThreeJoin(f, x, y, r, s)[0];
    } else if j.base == BaseRow(f, 1, y) {
      assert j == ThreeJoin(f, x, y, r, s)[1];
    } else {
      assert j == ThreeJoin(f, x, y, r, s)[2];
    }
  }

  lemma CollectedNext(parts: seq<Option<Record>>, x: Record)
    requires ContentSeen(parts) || HasContent(x)
    ensures ContentSeen(parts + [Some(x)])
    ensures Collected(parts + [Some(x)])
         == if x in Collected(parts) then Collected(parts) else Collected(parts) + [x]
  {
    ContentSeenSnoc(parts, Some(x));
    CollectedStep(parts, Some(x));
  }

  lemma CollectedOne(one: seq<Option<Record>>, r: Record)
    requires one == [Some(r)] && HasContent(r)
    ensures ContentSeen(one) && |Collected(one)| == 1 && Collected(one)[0] == r
  {
    var none: seq<Option<Record>> := [];
    assert one == none + [Some(r)];
    CollectedNext(none, r);
    assert |Collected(none)| == 0;
  }

  /** After contributions `r` and `s`, the list ends with `s`, and `r` is in it. */
  lemma CollectedTwo(one: seq<Option<Record>>, r: Record, s: Record)
    requires one == [Some(r)] && HasContent(r) && r != s
    ensures ContentSeen(one + [Some(s)])
    ensures var list := Collected(one + [Some(s)]);
            |list| == 2 && list[0] == r && list[1] == s
  {
    CollectedOne(one, r);
    CollectedNext(one, s);
  }

  /** Contributions `r`, `s` and again `r`: the list is `r` and `s`. */
  lemma CollectedThree(parts: seq<Option<Record>>, r: Record, s: Record)
    requires parts == [Some(r), Some(s), Some(r)] && HasContent(r) && r != s
    ensures |Collected(parts)| == 2 && Collected(parts)[1] == s
  {
    var one := [Some(r)];
    CollectedTwo(one, r, s);
    CollectedNext(one + [Some(s)], r);
    assert parts == one + [Some(s)] + [Some(r)];
  }

  lemma ThreeListed(l: Links, r: Record, s: Record)
    requires l.Valid() && |l.matches| == 3 && HasContent(r) && r != s
    requires l.Contribution(0) == r && l.Contribution(1) == s && l.Contribution(2) == r
    ensures |l.Listed(2)| == 2 && l.Listed(2)[1] == s
  {
    CollectedThree(l.Contributions()[..3], r, s);
  }

  lemma LastListed(env: Env, rtd: TypeDescriptor, local: Value, list: seq<Record>, n: nat, f: Field)
    requires Identified(env, rtd, f) && |list| == n + 1
    requires ReadAlike(env.p, local, At(list[n], f.relationship.value.foreignColumn))
    ensures RelationshipValue(env, rtd, local, list, f) == Some(Shown(env, rtd, list[n]))
  {
    var rel := f.relationship.value;
    var key, full := LookupKey(env, rtd, rel), Denormalized(env.p, rtd, list);
    IdentifiesRow(env.p, rtd, list[n], key, rel.foreignColumn);
    LastOfList(env.p, local, full, key, n);
  }

  lemma LastOfList(p: Printers, local: Value, full: seq<Record>, key: string, n: nat)
    requires |full| == n + 1 && ReadAlike(p, local, At(full[n], key))
    ensures LastMatch(p, local, full, key) == Some(full[n])
  {
  }

  /** What row `s`, or no row, contributes. */
  function Contributed(t: Table, s: Option<Record>): Record {
    if s.Some? then s.value else t.blank
  }

  lemma ThreeMatched(
    env: Env, f: Field, rtd: TypeDescriptor, t: Table, x: Value, y: Value, r: Record, s: Option<Record>)
    requires RelatedBy(f, t) && Partner(f, t, x, Some(r)) && Partner(f, t, y, s)
    requires DescriptorOf(env.cfg, f.relationship.value.withTable) == Some(rtd)
    ensures var q, joined := Three(f, t, x, y), ThreeJoin(f, x, y, r, s);
            && MatchedToOne(env, f, rtd, q, joined, 0, 2) && Related(q.db, f) == t
            && q.Rels() == [f] && q.Link(joined, 0).matches[2] == Some(r)
  {
    ThreeValid(f, t, x, y);
    ThreeCovers(f, t, x, y, r, s);
    ThreeLink(f, t, x, y, r, s);
  }

  /** The last of three rows is given the record that the second one contributed, if
      that reads like its key. */
  lemma WrongRecord(
    env: Env, f: Field, rtd: TypeDescriptor, t: Table, x: Value, y: Value, r: Record, s: Option<Record>)
    requires RelatedBy(f, t) && Identified(env, rtd, f) && Partner(f, t, x, Some(r)) && Partner(f, t, y, s)
    requires DescriptorOf(env.cfg, f.relationship.value.withTable) == Some(rtd)
    requires r != Contributed(t, s)
    requires ReadAlike(env.p, x, At(Contributed(t, s), f.relationship.value.foreignColumn))
    ensures var q, joined := Three(f, t, x, y), ThreeJoin(f, x, y, r, s);
            && MatchedToOne(env, f, rtd, q, joined, 0, 2) && Related(q.db, f) == t
            && q.Link(joined, 0).matches[2] == Some(r)
            && Holds(Final(env, q, joined, 2), f.key, Some(Shown(env, rtd, Contributed(t, s))))
  {
    ThreeMatched(env, f, rtd, t, x, y, r, s);
    WrongShown(env, f, rtd, t, x, y, r, s);
  }

  lemma WrongShown(
    env: Env, f: Field, rtd: TypeDescriptor, t: Table, x: Value, y: Value, r: Record, s: Option<Record>)
    requires RelatedBy(f, t) && Identified(env, rtd, f) && r in t.rows && r != Contributed(t, s)
    requires MatchedToOne(env, f, rtd, Three(f, t, x, y), ThreeJoin(f, x, y, r, s), 0, 2)
    requires Three(f, t, x, y).Rels() == [f]
    requires ReadAlike(env.p, x, At(Contributed(t, s), f.relationship.value.foreignColumn))
    ensures var q, joined := Three(f, t, x, y), ThreeJoin(f, x, y, r, s);
            Holds(Final(env, q, joined, 2), f.key, Some(Shown(env, rtd, Contributed(t, s))))
  {
    ThreeLink(f, t, x, y, r, s);
    GivenOther(env, f, rtd, Three(f, t, x, y), ThreeJoin(f, x, y, r, s), r, Contributed(t, s));
  }

  lemma GivenOther(env: Env, f: Field, rtd: TypeDescriptor, q: Query, joined: seq<Joined>, r: Record, s: Record)
    requires MatchedToOne(env, f, rtd, q, joined, 0, 2) && Identified(env, rtd, f) && |joined| == 3
    requires HasContent(r) && r != s
    requires var l := q.Link(joined, 0);
             && l.matches[0] == Some(r) && l.Contribution(1) == s && l.matches[2] == Some(r)
             && ReadAlike(env.p, l.locals[2], At(s, f.relationship.value.foreignColumn))
    ensures Holds(Final(env, q, joined, 2), f.key, Some(Shown(env, rtd, s)))
  {
    LinkValid(q, joined, 0);
    FinalRelationship(env, q, joined, 0, 2, rtd);
    ThreeShown(env, rtd, q.Link(joined, 0), f, r, s);
  }

  lemma ThreeShown(env: Env, rtd: TypeDescriptor, l: Links, f: Field, r: Record, s: Record)
    requires l.Valid() && |l.matches| == 3 && HasContent(r) && r != s
    requires l.matches[0] == Some(r) && l.Contribution(1) == s && l.matches[2] == Some(r)
    requires Identified(env, rtd, f) && ReadAlike(env.p, l.locals[2], At(s, f.relationship.value.foreignColumn))
    ensures RelationshipValue(env, rtd, l.locals[2], l.Listed(2), f) == Some(Shown(env, rtd, s))
  {
    ThreeListed(l, r, s);
    LastListed(env, rtd, l.locals[2], l.Listed(2), 1, f);
  }

  lemma ThreeLink(f: Field, t: Table, x: Value, y: Value, r: Record, s: Option<Record>)
    requires f.relationship.Some? && Three(f, t, x, y).Rels() == [f] && Three(f, t, x, y).Valid()
    requires Three(f, t, x, y).Produces(ThreeJoin(f, x, y, r, s))
    ensures var l := Three(f, t, x, y).Link(ThreeJoin(f, x, y, r, s), 0);
            && |l.matches| == |l.locals| == 3 && l.blank == t.blank && l.locals[2] == x
            && l.matches[0] == Some(r) && l.matches[1] == s && l.matches[2] == Some(r)
  {
    var local := f.relationship.value.localColumn;
    OtherName(local);
    assert At(BaseRow(f, 2, x), local) == x;
  }

  /** With unique keys, whose type is identified by what is looked up: every matched row
      of every collection over the table shows its own record if and only if whatever
      reads like a row's key is shown like the row. */
  lemma AlwaysShownOfExactly(env: Env, f: Field, rtd: TypeDescriptor, t: Table)
    requires RelatedBy(f, t) && Identified(env, rtd, f)
    requires DescriptorOf(env.cfg, f.relationship.value.withTable) == Some(rtd)
    ensures AlwaysShownOf(env, f, rtd, t) <==>
              AlikeShownAlike(env, rtd, t.rows, t.blank, f.relationship.value.foreignColumn)
  {
    var column := f.relationship.value.foreignColumn;
    if AlikeShownAlike(env, rtd, t.rows, t.blank, column) {
      forall q, joined, k: nat, i: nat |
        MatchedToOne(env, f, rtd, q, joined, k, i) && Related(q.db, f) == t
        ensures ShowsMatch(env, f, rtd, q, joined, k, i)
      {
        MatchedShows(env, f, rtd, q, joined, k, i);
      }
    }
    if AlwaysShownOf(env, f, rtd, t) {
      forall r, s |
        && Keyed(t.rows, column, r) && (s == t.blank || Keyed(t.rows, column, s))
        && ReadAlike(env.p, At(r, column), At(s, column))
        ensures Shown(env, rtd, r) == Shown(env, rtd, s)
      {
        ShownSame(env, f, rtd, t, r, s);
      }
    }
  }

  lemma ShownSame(env: Env, f: Field, rtd: TypeDescriptor, t: Table, r: Record, s: Record)
    requires RelatedBy(f, t) && Identified(env, rtd, f) && AlwaysShownOf(env, f, rtd, t)
    requires DescriptorOf(env.cfg, f.relationship.value.withTable) == Some(rtd)
    requires var column := f.relationship.value.foreignColumn;
             && Keyed(t.rows, column, r) && (s == t.blank || Keyed(t.rows, column, s))
             && ReadAlike(env.p, At(r, column), At(s, column))
    ensures Shown(env, rtd, r) == Shown(env, rtd, s)
  {
    if r != s {
      var column, o := f.relationship.value.foreignColumn, if s == t.blank then None else Some(s);
      var x, y := At(r, column), if o.Some? then At(s, column) else Nil;
      WrongRecord(env, f, rtd, t, x, y, r, o);
      assert ShowsMatch(env, f, rtd, Three(f, t, x, y), ThreeJoin(f, x, y, r, o), 0, 2);
    }
  }
}
