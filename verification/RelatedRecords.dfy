/** From the database to the final record: which related rows a record is given. */
module RelatedRecords {
  import opened Values
  import opened Descriptor
  import opened Deduplicate
  import opened Join
  import opened Formatting
  import opened FormattingProperties

  // ----- one relationship, along the joined rows -----

  /** The rows of the related table, what the driver delivers without a match, the
      foreign column, and per joined row the local value and the match, if any. */
  datatype Links = Links(
    rows: seq<Record>, blank: Record, foreign: string, locals: seq<Value>, matches: seq<Option<Record>>)
  {
    /** The related rows of joined row `i`. */
    function Own(i: nat): seq<Record>
      requires i < |locals|
    {
      Matching(rows, foreign, locals[i])
    }

    ghost predicate Valid() {
      && |locals| == |matches|
      && (forall r :: r in rows ==> HasContent(r)) && !HasContent(blank)
      && forall i :: 0 <= i < |locals| ==> Choice(Own(i), matches[i])
    }

    predicate Matched(i: nat)
      requires i < |matches|
    {
      matches[i].Some?
    }

    /** Some row before row `i` has a match. */
    ghost predicate MatchedBefore(i: nat)
      requires i <= |matches|
    {
      exists m: nat :: m < i && Matched(m)
    }

    /** What joined row `i` contributes to the list. */
    function Contribution(i: nat): Record
      requires i < |matches|
    {
      if Matched(i) then matches[i].value else blank
    }

    function Contributions(): (parts: seq<Option<Record>>)
      ensures |parts| == |matches|
    {
      seq(|matches|, i requires 0 <= i < |matches| => Some(Contribution(i)))
    }

    /** The list that the record of joined row `i` is given. */
    ghost function Listed(i: nat): seq<Record>
      requires i < |matches|
    {
      Collected(Contributions()[..i + 1])
    }

    /** Some row from the first match to row `i` contributes `r`. */
    ghost predicate Contributes(r: Record, i: nat)
      requires i < |matches|
    {
      exists m: nat, j: nat :: m <= j <= i && Matched(m) && Contribution(j) == r
    }
  }

  /** A row counts as having related data exactly when the join matched. */
  lemma ContentIsMatch(l: Links, i: nat)
    requires l.Valid() && i < |l.matches|
    ensures HasContent(l.Contribution(i)) <==> l.Matched(i)
    ensures l.Matched(i) ==> l.Contribution(i) in l.Own(i) && l.Contribution(i) in l.rows
    ensures !l.Matched(i) ==> l.Own(i) == []
  {
    assert Choice(l.Own(i), l.matches[i]);
  }

  lemma PartAt(l: Links, i: nat, j: nat)
    requires l.Valid() && j <= i < |l.matches|
    ensures l.Contributions()[..i + 1][j] == Some(l.Contribution(j))
    ensures Contentful(l.Contributions()[..i + 1][j]) <==> l.Matched(j)
  {
    ContentIsMatch(l, j);
  }

  lemma KeptIsContributed(l: Links, i: nat, r: Record)
    requires l.Valid() && i < |l.matches|
    requires Kept(l.Contributions()[..i + 1], r)
    ensures l.Contributes(r, i)
  {
    var parts := l.Contributions()[..i + 1];
    var j :| 0 <= j < |parts| && parts[j] == Some(r) && Counts(parts, j);
    var m :| 0 <= m <= j && Contentful(parts[m]);
    PartAt(l, i, j);
    PartAt(l, i, m);
    assert l.Matched(m) && l.Contribution(j) == r;
  }

  lemma ContributedIsKept(l: Links, i: nat, r: Record)
    requires l.Valid() && i < |l.matches|
    requires l.Contributes(r, i)
    ensures Kept(l.Contributions()[..i + 1], r)
  {
    var parts := l.Contributions()[..i + 1];
    var m: nat, j: nat :| m <= j <= i && l.Matched(m) && l.Contribution(j) == r;
    PartAt(l, i, j);
    PartAt(l, i, m);
    assert Counts(parts, j);
  }

  /** The list of row `i`: every contribution from the first match to row `i`, once. */
  lemma ListedMembers(l: Links, i: nat)
    requires l.Valid() && i < |l.matches|
    ensures NoDuplicates(l.Listed(i))
    ensures forall r :: r in l.Listed(i) <==> l.Contributes(r, i)
  {
    CollectedMembers(l.Contributions()[..i + 1]);
    forall r ensures r in l.Listed(i) <==> l.Contributes(r, i) {
      if r in l.Listed(i) { KeptIsContributed(l, i, r); }
      if l.Contributes(r, i) { ContributedIsKept(l, i, r); }
    }
  }

  /** The contributions of row `j` are in all later lists once a row has matched. */
  lemma ContributionListed(l: Links, m: nat, j: nat, i: nat)
    requires l.Valid() && m <= j <= i < |l.matches| && l.Matched(m)
    ensures l.Contribution(j) in l.Listed(i)
  {
    ListedMembers(l, i);
    assert l.Contributes(l.Contribution(j), i);
  }

  /** Where a listed record comes from. */
  lemma ListedFrom(l: Links, r: Record, i: nat) returns (m: nat, j: nat)
    requires l.Valid() && i < |l.matches| && r in l.Listed(i)
    ensures m <= j <= i && l.Matched(m) && l.Contribution(j) == r
  {
    ListedMembers(l, i);
    assert l.Contributes(r, i);
    m, j :| m <= j <= i && l.Matched(m) && l.Contribution(j) == r;
  }

  lemma ListedAreRows(l: Links, i: nat, r: Record)
    requires l.Valid() && i < |l.matches| && r in l.Listed(i)
    ensures r in l.rows || r == l.blank
  {
    var m, j := ListedFrom(l, r, i);
    ContentIsMatch(l, j);
  }

  /** Nothing is listed until a row has matched. */
  lemma ListedEmpty(l: Links, i: nat)
    requires l.Valid() && i < |l.matches|
    ensures |l.Listed(i)| == 0 <==> forall m: nat :: m <= i ==> !l.Matched(m)
  {
    if |l.Listed(i)| > 0 {
      var m, j := ListedFrom(l, l.Listed(i)[0], i);
    } else if m: nat :| m <= i && l.Matched(m) {
      ContributionListed(l, m, m, i);
      assert false;
    }
  }

  // ----- whose records are listed -----

  /** From the first matched row on, every row up to `i` has the local value of row `i`. */
  ghost predicate OnlyOwnRows(l: Links, i: nat)
    requires |l.locals| == |l.matches| && i < |l.matches|
  {
    forall m: nat, j: nat :: m <= j <= i && l.Matched(m) ==> l.locals[j] == l.locals[i]
  }

  /** The join has delivered all of row `i`'s own matches by row `i`. */
  ghost predicate AllDelivered(l: Links, i: nat)
    requires |l.locals| == |l.matches| && i < |l.matches|
  {
    forall r :: r in l.Own(i) ==> DeliveredBy(l, i, r)
  }

  ghost predicate DeliveredBy(l: Links, i: nat, r: Record)
    requires i < |l.matches|
  {
    exists j: nat :: j <= i && l.matches[j] == Some(r)
  }

  ghost function Elements(s: seq<Record>): set<Record> {
    set r | r in s
  }

  ghost predicate ListIsOwn(l: Links, i: nat)
    requires |l.locals| == |l.matches| && i < |l.matches|
  {
    Elements(l.Listed(i)) == Elements(l.Own(i))
  }

  /** A related record foreign to row `i`, or a blank one, in the list of row `i`. */
  lemma Intruder(l: Links, i: nat, m: nat, j: nat)
    requires l.Valid() && m <= j <= i < |l.matches| && l.Matched(m)
    requires l.locals[j] != l.locals[i]
    ensures l.Contribution(j) in l.Listed(i) && l.Contribution(j) !in l.Own(i)
  {
    ContributionListed(l, m, j, i);
    ContentIsMatch(l, j);
  }

  lemma IntruderCounts(l: Links, i: nat, m: nat, j: nat)
    requires l.Valid() && m <= j <= i < |l.matches| && l.Matched(m)
    requires l.locals[j] != l.locals[i]
    ensures !ListIsOwn(l, i)
  {
    Intruder(l, i, m, j);
    assert l.Contribution(j) in Elements(l.Listed(i)) - Elements(l.Own(i));
  }

  lemma OwnListSuffices(l: Links, i: nat, r: Record)
    requires l.Valid() && i < |l.matches| && OnlyOwnRows(l, i) && AllDelivered(l, i)
    ensures r in l.Listed(i) <==> r in l.Own(i)
  {
    if r in l.Listed(i) {
      var m, j := ListedFrom(l, r, i);
      ContentIsMatch(l, m);
      ContentIsMatch(l, j);
      assert l.locals[m] == l.locals[j] == l.locals[i];
    }
    if r in l.Own(i) {
      assert DeliveredBy(l, i, r);
      var j: nat :| j <= i && l.matches[j] == Some(r);
      ContributionListed(l, j, j, i);
    }
  }

  lemma OwnListDelivered(l: Links, i: nat, r: Record)
    requires l.Valid() && i < |l.matches| && ListIsOwn(l, i) && r in l.Own(i)
    ensures DeliveredBy(l, i, r)
  {
    assert r in Elements(l.Listed(i));
    var m, j := ListedFrom(l, r, i);
    ContentIsMatch(l, j);
    assert HasContent(r);
    assert l.matches[j] == Some(r);
  }

  /** The list holds exactly the row's own related rows if and only if no row with
      another local value comes after the first match, and all own matches have come. */
  lemma ListIsOwnExactly(l: Links, i: nat)
    requires l.Valid() && i < |l.matches|
    ensures ListIsOwn(l, i) <==> OnlyOwnRows(l, i) && AllDelivered(l, i)
  {
    if OnlyOwnRows(l, i) && AllDelivered(l, i) {
      forall r ensures r in Elements(l.Listed(i)) <==> r in Elements(l.Own(i)) {
        OwnListSuffices(l, i, r);
      }
    }
    if ListIsOwn(l, i) {
      forall r | r in l.Own(i) ensures DeliveredBy(l, i, r) {
        OwnListDelivered(l, i, r);
      }
      forall m: nat, j: nat | m <= j <= i && l.Matched(m) ensures l.locals[j] == l.locals[i] {
        if l.locals[j] != l.locals[i] {
          IntruderCounts(l, i, m, j);
        }
      }
    }
  }

  /** Such a list is complete: it is empty exactly when there is nothing to list. */
  lemma ListComplete(l: Links, i: nat)
    requires l.Valid() && i < |l.matches| && OnlyOwnRows(l, i) && AllDelivered(l, i)
    ensures NoDuplicates(l.Listed(i)) && Elements(l.Listed(i)) == Elements(l.Own(i))
    ensures |l.Listed(i)| == 0 <==> |l.Own(i)| == 0
  {
    ListIsOwnExactly(l, i);
    CollectedMembers(l.Contributions()[..i + 1]);
    SameElements(l.Listed(i), l.Own(i));
  }

  lemma SameElements(a: seq<Record>, b: seq<Record>)
    requires Elements(a) == Elements(b)
    ensures |a| == 0 <==> |b| == 0
  {
    if |a| > 0 { assert a[0] in Elements(a); }
    if |b| > 0 { assert b[0] in Elements(b); }
  }

  // ----- rows in groups -----

  /** The joined rows come in groups, one for each of the values `local`, in order and
      none empty: row `i` belongs to group `owner[i]`, which has a match or has not. */
  ghost predicate InGroups(l: Links, owner: seq<nat>, local: seq<Value>, has: seq<bool>) {
    && |owner| == |l.matches| == |l.locals| && |local| == |has|
    && (forall i :: 0 <= i < |owner| ==> InGroup(l, i, owner[i], local, has))
    && (forall i, j :: 0 <= i < j < |owner| ==> owner[i] <= owner[j])
    && (forall m: nat :: m < |local| ==> m in owner)
  }

  ghost predicate InGroup(l: Links, i: nat, m: nat, local: seq<Value>, has: seq<bool>)
    requires i < |l.matches| == |l.locals| && |local| == |has|
  {
    m < |local| && l.locals[i] == local[m] && (l.Matched(i) <==> has[m])
  }

  /** Every group from the first one with a match through group `m` has its value. */
  ghost predicate OnlyOwnGroups(local: seq<Value>, has: seq<bool>, m: nat)
    requires m < |local| == |has|
  {
    forall a: nat, b: nat :: a <= b <= m && has[a] ==> local[b] == local[m]
  }

  lemma GroupRow(l: Links, owner: seq<nat>, local: seq<Value>, has: seq<bool>, a: nat, b: nat, i: nat)
    returns (x: nat, y: nat)
    requires InGroups(l, owner, local, has) && i < |owner| && a <= b < owner[i]
    ensures x <= y <= i && owner[x] == a && owner[y] == b
  {
    assert InGroup(l, i, owner[i], local, has);
    assert a in owner && b in owner;
    x :| 0 <= x < |owner| && owner[x] == a;
    y := x;
    if a < b {
      y :| 0 <= y < |owner| && owner[y] == b;
    }
  }

  /** Up to any row, no row has another local value after the first match if and only
      if the same can be said of the groups. */
  lemma OnlyOwnInGroups(l: Links, owner: seq<nat>, local: seq<Value>, has: seq<bool>, i: nat)
    requires InGroups(l, owner, local, has) && i < |owner|
    ensures owner[i] < |local|
    ensures OnlyOwnRows(l, i) <==> OnlyOwnGroups(local, has, owner[i])
  {
    assert InGroup(l, i, owner[i], local, has);
    if OnlyOwnGroups(local, has, owner[i]) {
      forall m: nat, j: nat | m <= j <= i && l.Matched(m) ensures l.locals[j] == l.locals[i] {
        assert InGroup(l, m, owner[m], local, has) && InGroup(l, j, owner[j], local, has);
      }
    }
    if OnlyOwnRows(l, i) {
      forall a: nat, b: nat | a <= b <= owner[i] && has[a] ensures local[b] == local[owner[i]] {
        if b < owner[i] {
          var x, y := GroupRow(l, owner, local, has, a, b, i);
          assert InGroup(l, x, a, local, has) && InGroup(l, y, b, local, has);
        }
      }
    }
  }

  // ----- queries -----

  /** A GetSingle or GetCollection query: the selected rows of the table of `td`. */
  datatype Query = Query(db: Database, base: Table, td: TypeDescriptor, selected: seq<Record>) {
    function Rels(): seq<Field> { Relationships(td.fields) }

    ghost predicate Valid() {
      && ValidQuery(db, base, Rels())
      && td.tableName == base.name
      && (forall b :: b in selected ==> RowOf(base, b))
      && KeysApart(td, td.fields)
      // rows of related tables have some non-empty value
      && (forall k, r :: 0 <= k < |Rels()| && r in Related(db, Rels()[k]).rows ==> HasContent(r))
      // the keys of relationships are no columns
      && (forall f, g :: f in Rels() && g in Rels() ==> f.key != g.relationship.value.localColumn)
    }

    /** Rows of the LEFT JOIN, in any order, repeated or not. */
    ghost predicate Produces(joined: seq<Joined>)
      requires Valid()
    {
      forall i :: 0 <= i < |joined| ==> JoinedFrom(db, selected, Rels(), joined[i])
    }

    /** The decoded result set. */
    function Data(joined: seq<Joined>): (data: seq<Record>)
      requires Known(db, Rels())
      requires forall i :: 0 <= i < |joined| ==> |joined[i].related| == |Rels()|
      ensures |data| == |joined|
    {
      seq(|joined|, i requires 0 <= i < |joined| => NestedRow(Segments(db, base, Rels(), joined[i])))
    }

    /** Relationship `k` along the joined rows. */
    ghost function Link(joined: seq<Joined>, k: nat): (l: Links)
      requires Valid() && Produces(joined) && k < |Rels()|
      ensures |l.locals| == |l.matches| == |joined|
    {
      var t, rel := Related(db, Rels()[k]), Rels()[k].relationship.value;
      Links(t.rows, t.blank, rel.foreignColumn,
            seq(|joined|, i requires 0 <= i < |joined| => At(joined[i].base, rel.localColumn)),
            seq(|joined|, i requires 0 <= i < |joined| => joined[i].related[k]))
    }
  }

  /** Rows of the join in any order, each of them at least once. */
  ghost predicate Covers(q: Query, joined: seq<Joined>)
    requires q.Valid()
  {
    && q.Produces(joined)
    && forall j :: JoinedFrom(q.db, q.selected, q.Rels(), j) ==> j in joined
  }

  lemma OneRelationshipValid(q: Query, f: Field)
    requires q.Rels() == [f] && HasTable(q.db, f) && f.key != f.relationship.value.localColumn
    requires ValidTable(q.base) && ValidTable(Related(q.db, f))
    requires Related(q.db, f).name == f.relationship.value.withTable != q.base.name == q.td.tableName
    requires forall b :: b in q.selected ==> RowOf(q.base, b)
    requires KeysApart(q.td, q.td.fields)
    requires forall r :: r in Related(q.db, f).rows ==> HasContent(r)
    ensures q.Valid()
  {
  }

  lemma LinkValid(q: Query, joined: seq<Joined>, k: nat)
    requires q.Valid() && q.Produces(joined) && k < |q.Rels()|
    ensures q.Link(joined, k).Valid()
  {
    var l := q.Link(joined, k);
    forall i | 0 <= i < |joined| ensures Choice(l.Own(i), l.matches[i]) {
      LinkOwn(q, joined, k, i, joined[i].base);
      assert JoinedFrom(q.db, q.selected, q.Rels(), joined[i]);
    }
  }

  lemma LinkOwn(q: Query, joined: seq<Joined>, k: nat, i: nat, b: Record)
    requires q.Valid() && q.Produces(joined) && k < |q.Rels()| && i < |joined| && joined[i].base == b
    ensures q.Link(joined, k).Own(i) == Matches(q.db, q.Rels()[k], b)
  {
  }

  /** The parts of the decoded rows are the contributions of the relationship. */
  lemma DataParts(q: Query, joined: seq<Joined>, k: nat)
    requires q.Valid() && q.Produces(joined) && k < |q.Rels()|
    ensures Parts(q.Data(joined), Related(q.db, q.Rels()[k]).name) == q.Link(joined, k).Contributions()
  {
    forall i | 0 <= i < |joined|
      ensures Parts(q.Data(joined), Related(q.db, q.Rels()[k]).name)[i] == q.Link(joined, k).Contributions()[i]
    {
      JoinedParts(q.db, q.base, q.selected, q.Rels(), joined[i]);
    }
  }

  lemma DataHasBase(q: Query, joined: seq<Joined>)
    requires q.Valid() && q.Produces(joined)
    ensures HaveBase(q.Data(joined), q.base.name)
    ensures forall i :: 0 <= i < |joined| ==> q.Data(joined)[i][q.base.name] == Map(joined[i].base)
  {
    forall i | 0 <= i < |joined|
      ensures Part(q.Data(joined)[i], q.base.name) == Some(joined[i].base)
    {
      JoinedParts(q.db, q.base, q.selected, q.Rels(), joined[i]);
    }
  }
}
