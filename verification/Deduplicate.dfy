/** Collecting the related rows of a joined result (db.go, `deduplicateSingleResource`,
    and util.go, `AppendNoDuplicates`). No joined row is ever removed: each row's base
    record gains, per relationship, a list that keeps growing from row to row. */
module Deduplicate {
  import opened Values
  import opened Descriptor

  // ----- what the list after some rows is -----

  /** An empty string counts as no value: Oracle returns it for NULL text. */
  predicate NonEmpty(v: Value): (b: bool)
    ensures b <==> v != Nil && v != Str("")
  {
    if v.Str? then v.s != "" else v != Nil
  }

  predicate HasContent(r: Record) {
    exists c | c in r :: NonEmpty(r[c])
  }

  /** The related table's part of a joined row, if the row has one. */
  function Part(row: Record, table: string): Option<Record> {
    if table in row && row[table].Map? then Some(row[table].m) else None
  }

  function Parts(data: seq<Record>, table: string): (parts: seq<Option<Record>>)
    ensures |parts| == |data|
  {
    seq(|data|, i requires 0 <= i < |data| => Part(data[i], table))
  }

  predicate Contentful(part: Option<Record>) {
    part.Some? && HasContent(part.value)
  }

  predicate ContentSeen(parts: seq<Option<Record>>) {
    exists p | p in parts :: Contentful(p)
  }

  /** The parts from the first one with content on. */
  ghost function FromFirstContent(parts: seq<Option<Record>>): seq<Option<Record>> {
    if parts == [] || Contentful(parts[0]) then parts else FromFirstContent(parts[1..])
  }

  /** The values of a list of options, each kept at its first occurrence only. */
  ghost function FirstOccurrences(parts: seq<Option<Record>>): seq<Record> {
    if parts == [] then []
    else
      var before := FirstOccurrences(parts[..|parts| - 1]);
      var last := parts[|parts| - 1];
      if last.None? || last.value in before then before else before + [last.value]
  }

  ghost function Collected(parts: seq<Option<Record>>): seq<Record> {
    FirstOccurrences(FromFirstContent(parts))
  }

  // ----- the list, step by step -----

  lemma ContentSeenSnoc(parts: seq<Option<Record>>, p: Option<Record>)
    ensures ContentSeen(parts + [p]) <==> ContentSeen(parts) || Contentful(p)
  {
  }

  lemma {:induction false} FromFirstContentSnoc(parts: seq<Option<Record>>, p: Option<Record>)
    ensures FromFirstContent(parts + [p]) ==
              if ContentSeen(parts) then FromFirstContent(parts) + [p]
              else if Contentful(p) then [p] else []
    ensures !ContentSeen(parts) ==> FromFirstContent(parts) == []
  {
    if parts == [] {
      assert parts + [p] == [p];
    } else {
      assert (parts + [p])[1..] == parts[1..] + [p];
      assert parts == [parts[0]] + parts[1..];
      FromFirstContentSnoc(parts[1..], p);
    }
  }

  /** One more joined row: appended unless nothing has had content yet, the row has
      no such part, or an equal record is there already. */
  lemma CollectedStep(parts: seq<Option<Record>>, p: Option<Record>)
    ensures Collected(parts + [p]) ==
              if p.None? || !ContentSeen(parts + [p]) || p.value in Collected(parts)
              then Collected(parts)
              else Collected(parts) + [p.value]
  {
    FromFirstContentSnoc(parts, p);
    ContentSeenSnoc(parts, p);
    var start := FromFirstContent(parts);
    assert (start + [p])[..|start|] == start;
    assert [p][..0] == [];
  }

  // ----- what is in the list -----

  /** The first part to be counted is one with content; row `j` is not before it. */
  ghost predicate Counts(parts: seq<Option<Record>>, j: nat)
    requires j < |parts|
  {
    exists k :: 0 <= k <= j && Contentful(parts[k])
  }

  ghost predicate Kept(parts: seq<Option<Record>>, r: Record) {
    exists j :: 0 <= j < |parts| && parts[j] == Some(r) && Counts(parts, j)
  }

  lemma KeptSnoc(parts: seq<Option<Record>>, p: Option<Record>, r: Record)
    ensures Kept(parts + [p], r) <==> Kept(parts, r) || (p == Some(r) && ContentSeen(parts + [p]))
  {
    var all, n := parts + [p], |parts|;
    assert ContentSeen(all) ==> Counts(all, n) by {
      if ContentSeen(all) {
        var q :| q in all && Contentful(q);
        var k :| 0 <= k < |all| && all[k] == q;
      }
    }
    forall j | 0 <= j < n
      ensures Counts(all, j) == Counts(parts, j)
    {
      assert forall k :: 0 <= k <= j ==> all[k] == parts[k];
    }
    if Kept(parts, r) {
      var j :| 0 <= j < n && parts[j] == Some(r) && Counts(parts, j);
      assert all[j] == Some(r) && Counts(all, j);
    }
  }

  /** The list holds exactly the parts from the first one with content on, each once. */
  lemma {:induction false} CollectedMembers(parts: seq<Option<Record>>)
    ensures NoDuplicates(Collected(parts))
    ensures forall r :: r in Collected(parts) <==> Kept(parts, r)
  {
    if parts != [] {
      var n := |parts| - 1;
      CollectedMembers(parts[..n]);
      CollectedStep(parts[..n], parts[n]);
      assert parts == parts[..n] + [parts[n]];
      forall r ensures r in Collected(parts) <==> Kept(parts, r) {
        KeptSnoc(parts[..n], parts[n], r);
      }
    }
  }

  /** Lists only grow along the rows. */
  lemma {:induction false} CollectedPrefix(parts: seq<Option<Record>>, i: nat)
    requires i <= |parts|
    ensures Collected(parts[..i]) <= Collected(parts)
  {
    if i == |parts| {
      assert parts[..i] == parts;
    } else {
      var n := |parts| - 1;
      assert parts[..n][..i] == parts[..i] && parts == parts[..n] + [parts[n]];
      CollectedPrefix(parts[..n], i);
      CollectedStep(parts[..n], parts[n]);
    }
  }

  // ----- the loops -----

  method AppendNoDuplicates(list: seq<Record>, item: Record) returns (r: seq<Record>)
    ensures r == if item in list then list else list + [item]
  {
    var found := false;
    for i := 0 to |list|
      invariant found == (item in list[..i])
    {
      if list[i] == item {
        found := true;
      }
    }
    assert list[..|list|] == list;
    return if found then list else list + [item];
  }

  method AnyNonEmpty(r: Record) returns (any: bool)
    ensures any == HasContent(r)
    ensures any <==> exists c :: c in r && r[c] != Nil && r[c] != Str("")
  {
    any := false;
    var rest := r.Keys;
    while rest != {}
      invariant rest <= r.Keys
      invariant any == exists c :: c in r.Keys - rest && NonEmpty(r[c])
      decreases |rest|
    {
      var c :| c in rest;
      if NonEmpty(r[c]) {
        any := true;
      }
      rest := rest - {c};
    }
  }

  /** A joined row to which a relationship's list can be attached. */
  predicate HasBase(row: Record, base: string) {
    base in row && row[base].Map?
  }

  predicate HaveBase(data: seq<Record>, base: string) {
    forall i :: 0 <= i < |data| ==> HasBase(data[i], base)
  }

  function Attach(row: Record, base: string, f: Field, list: seq<Record>): Record
    requires HasBase(row, base) && f.relationship.Some?
  {
    row[base := Map(row[base].m[f.key := Map(map[f.relationship.value.withTable := Rows(list)])])]
  }

  /** All rows after the pass for one relationship field. */
  ghost function AttachAll(data: seq<Record>, base: string, f: Field): (result: seq<Record>)
    requires HaveBase(data, base)
    requires f.relationship.Some?
    ensures |result| == |data|
    ensures HaveBase(result, base)
  {
    seq(|data|, i requires 0 <= i < |data| =>
      Attach(data[i], base, f, Collected(Parts(data, f.relationship.value.withTable)[..i + 1])))
  }

  ghost function Deduplicated(data: seq<Record>, base: string, fields: seq<Field>): (result: seq<Record>)
    requires HaveBase(data, base)
    requires forall f :: f in fields ==> f.relationship.Some?
    ensures |result| == |data|
    ensures HaveBase(result, base)
  {
    if fields == [] then data
    else AttachAll(Deduplicated(data, base, fields[..|fields| - 1]), base, fields[|fields| - 1])
  }

  /** No relationship leads back to the base table: its rows would be changed
      while they are being collected. */
  predicate NoSelfJoin(base: string, fields: seq<Field>) {
    forall f :: f in fields && f.relationship.Some? ==> f.relationship.value.withTable != base
  }

  method DeduplicateSingleResource(data: array<Record>, td: TypeDescriptor)
    requires HaveBase(data[..], td.tableName)
    requires NoSelfJoin(td.tableName, td.fields)
    modifies data
    ensures data[..] == Deduplicated(old(data[..]), td.tableName, Relationships(td.fields))
  {
    var base := td.tableName;
    var fields := TypeDescriptorRelationships(td);
    ghost var start := data[..];
    for k := 0 to |fields|
      invariant data[..] == Deduplicated(start, base, fields[..k])
    {
      AttachPass(data, base, fields[k]);
      assert fields[..k + 1][..k] == fields[..k];
    }
    assert fields[..|fields|] == fields;
  }

  lemma AttachAllAt(data: seq<Record>, base: string, f: Field, i: nat)
    requires HaveBase(data, base) && f.relationship.Some? && i < |data|
    ensures AttachAll(data, base, f)[i]
         == Attach(data[i], base, f, Collected(Parts(data, f.relationship.value.withTable)[..i + 1]))
  {
  }

  method AttachPass(data: array<Record>, base: string, f: Field)
    requires HaveBase(data[..], base)
    requires f.relationship.Some? && f.relationship.value.withTable != base
    modifies data
    ensures data[..] == AttachAll(old(data[..]), base, f)
  {
    var table := f.relationship.value.withTable;
    ghost var start := data[..];
    ghost var parts := Parts(start, table);
    ghost var goal := AttachAll(start, base, f);
    var fieldResultSet: seq<Record> := [];
    var relationshipTableContainsResults := false;
    for i := 0 to data.Length
      invariant data[..] == goal[..i] + start[i..]
      invariant fieldResultSet == Collected(parts[..i])
      invariant relationshipTableContainsResults == ContentSeen(parts[..i])
    {
      assert data[i] == data[..][i] == start[i] && HasBase(start[i], base);
      var datum := data[i];
      PartsNext(start, table, i);
      fieldResultSet, relationshipTableContainsResults :=
        CollectRow(datum, table, fieldResultSet, relationshipTableContainsResults);
      AttachAllAt(start, base, f, i);
      data[i] := Attach(datum, base, f, fieldResultSet);
      PatchNext(goal, start, i);
    }
    assert goal[..|goal|] + start[|start|..] == goal;
  }

  /** What the next row adds to the list and to the flag. */
  lemma PartsNext(data: seq<Record>, table: string, i: nat)
    requires i < |data|
    ensures var parts, p := Parts(data, table), Part(data[i], table);
            && (ContentSeen(parts[..i + 1]) <==> ContentSeen(parts[..i]) || Contentful(p))
            && Collected(parts[..i + 1]) ==
                 if p.None? || !ContentSeen(parts[..i + 1]) || p.value in Collected(parts[..i])
                 then Collected(parts[..i])
                 else Collected(parts[..i]) + [p.value]
  {
    var parts := Parts(data, table);
    assert parts[..i + 1] == parts[..i] + [parts[i]];
    CollectedStep(parts[..i], parts[i]);
    ContentSeenSnoc(parts[..i], parts[i]);
  }

  /** What one joined row does to the list and to the sticky flag. */
  method CollectRow(datum: Record, table: string, list: seq<Record>, seen: bool)
    returns (list': seq<Record>, seen': bool)
    ensures seen' == (seen || Contentful(Part(datum, table)))
    ensures var part := Part(datum, table);
            list' == if part.None? || !seen' || part.value in list then list else list + [part.value]
  {
    list', seen' := list, seen;
    if table in datum && datum[table].Map? {
      var tableResults := datum[table].m;
      var any := AnyNonEmpty(tableResults);
      if any {
        seen' := true;
      }
      if seen' {
        list' := AppendNoDuplicates(list, tableResults);
      }
    }
  }

  // ----- what the whole pass leaves -----

  /** The list of one relationship at row `i`, read off the joined rows alone. */
  ghost function ListAt(data: seq<Record>, table: string, i: nat): seq<Record>
    requires i < |data|
  {
    Collected(Parts(data, table)[..i + 1])
  }

  predicate DistinctKeys(fields: seq<Field>) {
    forall i, j :: 0 <= i < j < |fields| ==> fields[i].key != fields[j].key
  }

  /** The exact result for arbitrary rows: every relationship's list is that of the
      original rows, whatever the other relationships are. */
  lemma {:induction false} DeduplicatedList(data: seq<Record>, base: string, fields: seq<Field>, f: Field, i: nat)
    requires HaveBase(data, base)
    requires forall g :: g in fields ==> g.relationship.Some?
    requires NoSelfJoin(base, fields) && DistinctKeys(fields)
    requires f in fields && i < |data|
    ensures var t := f.relationship.value.withTable;
            At(Deduplicated(data, base, fields)[i][base].m, f.key) == Map(map[t := Rows(ListAt(data, t, i))])
  {
    var n := |fields| - 1;
    var init, last := fields[..n], fields[n];
    assert fields == init + [last];
    if f == last {
      DeduplicatedParts(data, base, init, last.relationship.value.withTable);
    } else {
      assert DistinctKeys(init) && NoSelfJoin(base, init);
      DeduplicatedList(data, base, init, f, i);
      assert last.key != f.key;
    }
  }

  lemma AttachFrame(data: seq<Record>, base: string, f: Field, i: nat)
    requires HaveBase(data, base) && f.relationship.Some? && i < |data|
    ensures var row := AttachAll(data, base, f)[i];
            && row - {base} == data[i] - {base}
            && row[base].m.Keys == data[i][base].m.Keys + {f.key}
  {
    AttachAllAt(data, base, f, i);
  }

  function KeysOf(fields: seq<Field>): set<string> {
    set f | f in fields :: f.key
  }

  lemma KeysSnoc(fields: seq<Field>)
    requires fields != []
    ensures KeysOf(fields) == KeysOf(fields[..|fields| - 1]) + {fields[|fields| - 1].key}
  {
    assert fields == fields[..|fields| - 1] + [fields[|fields| - 1]];
  }

  /** Nothing but the relationship keys changes: no other table's part .. */
  lemma {:induction false} DeduplicatedFrame(data: seq<Record>, base: string, fields: seq<Field>, i: nat)
    requires HaveBase(data, base)
    requires forall f :: f in fields ==> f.relationship.Some?
    requires i < |data|
    ensures var row := Deduplicated(data, base, fields)[i];
            && row - {base} == data[i] - {base}
            && row[base].m.Keys == data[i][base].m.Keys + KeysOf(fields)
  {
    if fields != [] {
      var n := |fields| - 1;
      DeduplicatedFrame(data, base, fields[..n], i);
      AttachFrame(Deduplicated(data, base, fields[..n]), base, fields[n], i);
      KeysSnoc(fields);
    }
  }

  /** .. and no other column of the base record. */
  lemma {:induction false} DeduplicatedColumn(data: seq<Record>, base: string, fields: seq<Field>, i: nat, c: string)
    requires HaveBase(data, base)
    requires forall f :: f in fields ==> f.relationship.Some? && f.key != c
    requires i < |data|
    ensures At(Deduplicated(data, base, fields)[i][base].m, c) == At(data[i][base].m, c)
  {
    if fields != [] {
      var n := |fields| - 1;
      DeduplicatedColumn(data, base, fields[..n], i, c);
      AttachAllAt(Deduplicated(data, base, fields[..n]), base, fields[n], i);
    }
  }

  lemma {:induction false} DeduplicatedParts(data: seq<Record>, base: string, fields: seq<Field>, table: string)
    requires HaveBase(data, base)
    requires forall f :: f in fields ==> f.relationship.Some?
    requires NoSelfJoin(base, fields) && table != base
    ensures Parts(Deduplicated(data, base, fields), table) == Parts(data, table)
  {
    if fields != [] {
      DeduplicatedParts(data, base, fields[..|fields| - 1], table);
    }
  }

  /** Collecting a second time changes nothing. */
  lemma DeduplicatedTwice(data: seq<Record>, base: string, fields: seq<Field>)
    requires HaveBase(data, base)
    requires forall f :: f in fields ==> f.relationship.Some?
    requires NoSelfJoin(base, fields) && DistinctKeys(fields)
    ensures Deduplicated(Deduplicated(data, base, fields), base, fields) == Deduplicated(data, base, fields)
  {
    var once := Deduplicated(data, base, fields);
    var twice := Deduplicated(once, base, fields);
    forall i | 0 <= i < |data|
      ensures twice[i] == once[i]
    {
      DeduplicatedFrame(once, base, fields, i);
      DeduplicatedFrame(data, base, fields, i);
      var a, b := once[i][base].m, twice[i][base].m;
      forall c | c in a
        ensures a[c] == b[c]
      {
        if f :| f in fields && f.key == c {
          DeduplicatedList(data, base, fields, f, i);
          DeduplicatedList(once, base, fields, f, i);
          DeduplicatedParts(data, base, fields, f.relationship.value.withTable);
        } else {
          DeduplicatedColumn(once, base, fields, i, c);
          assert At(a, c) == At(b, c);
        }
      }
      assert a.Keys == b.Keys;
      SameRow(once[i], twice[i], base);
    }
  }

  lemma SameRow(a: Record, b: Record, base: string)
    requires HasBase(a, base) && HasBase(b, base)
    requires a - {base} == b - {base} && a[base].m == b[base].m
    ensures a == b
  {
    assert a == (a - {base})[base := a[base]] && b == (b - {base})[base := b[base]];
  }
}
