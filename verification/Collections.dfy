/** To-many fields in terms of the database: of a single resource, and of the records
    of a collection in the order of their ids. */
module Collections {
  import opened Values
  import opened Descriptor
  import opened Deduplicate
  import opened Join
  import opened Strings
  import opened Formatting
  import opened FormattingProperties
  import opened RelatedRecords
  import opened FinalRecords
  import opened ToOneFields

  // ----- what a to-many field shows -----

  function ShownList(env: Env, rtd: TypeDescriptor, list: seq<Record>): Value {
    if list == [] then List([])
    else if env.denormalize then Rows(Denormalized(env.p, rtd, list))
    else List(Normalized(env.p, rtd, list))
  }

  lemma ToManyShowsList(env: Env, q: Query, joined: seq<Joined>, k: nat, i: nat, rtd: TypeDescriptor)
    requires q.Valid() && q.Produces(joined) && k < |q.Rels()| && i < |joined|
    requires Configured(env, q, k, rtd) && q.Rels()[k].relationship.value.kind == "oneToMany"
    ensures At(Final(env, q, joined, i), q.Rels()[k].key) == ShownList(env, rtd, q.Link(joined, k).Listed(i))
  {
    FinalRelationship(env, q, joined, k, i, rtd);
  }

  /** The elements of an array in a response. */
  function Items(v: Value): seq<Value> {
    match v
    case Rows(rs) => seq(|rs|, i requires 0 <= i < |rs| => Map(rs[i]))
    case List(items) => items
    case _ => []
  }

  lemma ItemsShown(env: Env, rtd: TypeDescriptor, list: seq<Record>)
    ensures var v := ShownList(env, rtd, list);
            && (v.Rows? || v.List?)
            && Items(v) == seq(|list|, i requires 0 <= i < |list| => Shown(env, rtd, list[i]))
  {
  }

  ghost function ShownSet(env: Env, rtd: TypeDescriptor, list: seq<Record>): set<Value> {
    set r | r in list :: Shown(env, rtd, r)
  }

  /** The set of elements of a value that is an array. */
  ghost function ItemSet(v: Value): Option<set<Value>> {
    if v.Rows? || v.List? then Some(set x | x in Items(v)) else None
  }

  lemma ItemOf(env: Env, rtd: TypeDescriptor, list: seq<Record>, x: Value) returns (i: nat)
    requires x in Items(ShownList(env, rtd, list))
    ensures i < |list| && Shown(env, rtd, list[i]) == x
  {
    ItemsShown(env, rtd, list);
    var items := Items(ShownList(env, rtd, list));
    i :| 0 <= i < |items| && items[i] == x;
  }

  lemma ItemFor(env: Env, rtd: TypeDescriptor, list: seq<Record>, r: Record)
    requires r in list
    ensures Shown(env, rtd, r) in Items(ShownList(env, rtd, list))
  {
    ItemsShown(env, rtd, list);
    var i :| 0 <= i < |list| && list[i] == r;
    assert Items(ShownList(env, rtd, list))[i] == Shown(env, rtd, r);
  }

  lemma SameRecordsShown(env: Env, rtd: TypeDescriptor, list: seq<Record>, own: seq<Record>)
    requires Elements(list) == Elements(own)
    ensures ItemSet(ShownList(env, rtd, list)) == Some(ShownSet(env, rtd, own))
  {
    ItemsShown(env, rtd, list);
    var items := Items(ShownList(env, rtd, list));
    forall x | x in (set y | y in items) ensures x in ShownSet(env, rtd, own) {
      var i := ItemOf(env, rtd, list, x);
      assert list[i] in Elements(list);
    }
    forall x | x in ShownSet(env, rtd, own) ensures x in (set y | y in items) {
      var r :| r in own && Shown(env, rtd, r) == x;
      assert r in Elements(own);
      ItemFor(env, rtd, list, r);
    }
    assert (set y | y in items) == ShownSet(env, rtd, own);
  }

  /** A related row, or what is delivered without one. */
  ghost predicate RowOrBlank(l: Links, r: Record) { r in l.rows || r == l.blank }

  /** Records with ids are told apart by what is shown of them. */
  lemma ShownInjective(env: Env, rtd: TypeDescriptor, l: Links, a: Record, b: Record)
    requires l.Valid() && ShowsId(rtd) && IdColumn(env.p, l.rows, rtd.uniqueIdColumn)
    requires RowOrBlank(l, a) && RowOrBlank(l, b)
    requires Shown(env, rtd, a) == Shown(env, rtd, b)
    ensures a == b
  {
    var uid := rtd.uniqueIdColumn;
    IdentifiesRow(env.p, rtd, a, uid, uid);
    IdentifiesRow(env.p, rtd, b, uid, uid);
    assert ReadAlike(env.p, At(a, uid), At(b, uid));
    if a in l.rows && b !in l.rows {
      BlankReadsEmpty(env.p, l.blank, uid);
    } else if b in l.rows && a !in l.rows {
      BlankReadsEmpty(env.p, l.blank, uid);
    }
  }

  lemma ShownMember(env: Env, rtd: TypeDescriptor, l: Links, list: seq<Record>, r: Record)
    requires l.Valid() && ShowsId(rtd) && IdColumn(env.p, l.rows, rtd.uniqueIdColumn)
    requires RowOrBlank(l, r) && forall x :: x in list ==> RowOrBlank(l, x)
    requires Shown(env, rtd, r) in ShownSet(env, rtd, list)
    ensures r in list
  {
    var x :| x in list && Shown(env, rtd, x) == Shown(env, rtd, r);
    ShownInjective(env, rtd, l, x, r);
  }

  /** Where ids are shown, an array of the right elements comes from a list of the
      right records. */
  lemma ShownRecordsSame(env: Env, rtd: TypeDescriptor, l: Links, list: seq<Record>, own: seq<Record>, r: Record)
    requires l.Valid() && ShowsId(rtd) && IdColumn(env.p, l.rows, rtd.uniqueIdColumn)
    requires (forall x :: x in list ==> RowOrBlank(l, x)) && (forall x :: x in own ==> RowOrBlank(l, x))
    requires ItemSet(ShownList(env, rtd, list)) == Some(ShownSet(env, rtd, own))
    ensures r in list <==> r in own
  {
    if r in list {
      ItemFor(env, rtd, list, r);
      assert Shown(env, rtd, r) in ShownSet(env, rtd, own);
      ShownMember(env, rtd, l, own, r);
    }
    if r in own {
      assert Shown(env, rtd, r) in ShownSet(env, rtd, own);
      var i := ItemOf(env, rtd, list, Shown(env, rtd, r));
      ShownInjective(env, rtd, l, list[i], r);
    }
  }

  lemma ItemsDistinct(env: Env, rtd: TypeDescriptor, l: Links, list: seq<Record>)
    requires l.Valid() && ShowsId(rtd) && IdColumn(env.p, l.rows, rtd.uniqueIdColumn)
    requires NoDuplicates(list) && forall x :: x in list ==> RowOrBlank(l, x)
    ensures NoDuplicates(Items(ShownList(env, rtd, list)))
  {
    ItemsShown(env, rtd, list);
    var items := Items(ShownList(env, rtd, list));
    forall i, j | 0 <= i < j < |items| ensures items[i] != items[j] {
      if items[i] == items[j] {
        ShownInjective(env, rtd, l, list[i], list[j]);
        assert false;
      }
    }
  }

  /** The ids of the records, as text. */
  ghost function IdSet(p: Printers, column: string, list: seq<Record>): set<Value> {
    set r | r in list :: Stringify(p, At(r, column))
  }

  /** Where ids are shown, what a normalised list shows are the ids. */
  lemma ShownIds(env: Env, rtd: TypeDescriptor, list: seq<Record>)
    requires ShowsId(rtd) && !env.denormalize
    ensures ShownSet(env, rtd, list) == IdSet(env.p, rtd.uniqueIdColumn, list)
  {
    forall r ensures Shown(env, rtd, r) == Stringify(env.p, At(r, rtd.uniqueIdColumn)) {
      IdentifiesRow(env.p, rtd, r, rtd.uniqueIdColumn, rtd.uniqueIdColumn);
    }
  }

  lemma ListShowsOwn(env: Env, rtd: TypeDescriptor, l: Links, i: nat)
    requires l.Valid() && i < |l.matches| && ShowsId(rtd) && IdColumn(env.p, l.rows, rtd.uniqueIdColumn)
    ensures var v := ShownList(env, rtd, l.Listed(i));
            && (ItemSet(v) == Some(ShownSet(env, rtd, l.Own(i))) <==> ListIsOwn(l, i))
            && NoDuplicates(Items(v))
  {
    var list, own := l.Listed(i), l.Own(i);
    CollectedMembers(l.Contributions()[..i + 1]);
    forall r | r in list ensures RowOrBlank(l, r) { ListedAreRows(l, i, r); }
    ItemsDistinct(env, rtd, l, list);
    if ListIsOwn(l, i) {
      SameRecordsShown(env, rtd, list, own);
    }
    if ItemSet(ShownList(env, rtd, list)) == Some(ShownSet(env, rtd, own)) {
      forall r ensures r in Elements(list) <==> r in Elements(own) {
        ShownRecordsSame(env, rtd, l, list, own, r);
      }
    }
  }

  /** A to-many field shows exactly the row's own related records if and only if its
      list holds exactly them. */
  lemma ShowsOwnExactly(env: Env, q: Query, joined: seq<Joined>, k: nat, i: nat, rtd: TypeDescriptor)
    requires q.Valid() && q.Produces(joined) && k < |q.Rels()| && i < |joined|
    requires Configured(env, q, k, rtd) && q.Rels()[k].relationship.value.kind == "oneToMany"
    requires ShowsId(rtd) && IdColumn(env.p, Related(q.db, q.Rels()[k]).rows, rtd.uniqueIdColumn)
    ensures var v, own := At(Final(env, q, joined, i), q.Rels()[k].key), Matches(q.db, q.Rels()[k], joined[i].base);
            && (ItemSet(v) == Some(ShownSet(env, rtd, own)) <==> ListIsOwn(q.Link(joined, k), i))
            && NoDuplicates(Items(v))
  {
    LinkValid(q, joined, k);
    LinkOwn(q, joined, k, i, joined[i].base);
    ToManyShowsList(env, q, joined, k, i, rtd);
    ListShowsOwn(env, rtd, q.Link(joined, k), i);
  }

  // ----- the rows of a join -----

  /** The selected rows joined, in any order. */
  ghost predicate JoinOf(q: Query, joined: seq<Joined>)
    requires q.Valid()
  {
    multiset(joined) == multiset(LeftJoin(q.db, q.selected, q.Rels()))
  }

  lemma JoinCovers(q: Query, joined: seq<Joined>)
    requires q.Valid() && JoinOf(q, joined)
    ensures Covers(q, joined)
    ensures |joined| == |LeftJoin(q.db, q.selected, q.Rels())|
  {
    var all := LeftJoin(q.db, q.selected, q.Rels());
    forall j ensures j in joined <==> JoinedFrom(q.db, q.selected, q.Rels(), j) {
      JoinMembers(q.db, q.selected, q.Rels(), j);
      assert j in joined <==> j in multiset(joined);
      assert j in all <==> j in multiset(all);
    }
    assert forall i :: 0 <= i < |joined| ==> joined[i] in joined;
    assert |multiset(joined)| == |joined|;
  }

  /** A row of the join for a base row, with the first match of every relationship. */
  function FirstMatches(q: Query, b: Record): (j: Joined)
    requires Known(q.db, q.Rels())
    ensures j.base == b && |j.related| == |q.Rels()|
  {
    var rels := q.Rels();
    Joined(b, seq(|rels|, m requires 0 <= m < |rels| =>
      var ms := Matches(q.db, rels[m], b); if ms == [] then None else Some(ms[0])))
  }

  lemma FirstMatchesJoined(q: Query, b: Record)
    requires q.Valid() && b in q.selected
    ensures JoinedFrom(q.db, q.selected, q.Rels(), FirstMatches(q, b))
  {
  }

  /** The same with a given match of relationship `k`. */
  function Combination(q: Query, b: Record, k: nat, r: Record): (j: Joined)
    requires Known(q.db, q.Rels()) && k < |q.Rels()|
    ensures j.base == b && |j.related| == |q.Rels()| && j.related[k] == Some(r)
  {
    FirstMatches(q, b).(related := FirstMatches(q, b).related[k := Some(r)])
  }

  lemma CombinationJoined(q: Query, b: Record, k: nat, r: Record)
    requires q.Valid() && b in q.selected && k < |q.Rels()| && r in Matches(q.db, q.Rels()[k], b)
    ensures JoinedFrom(q.db, q.selected, q.Rels(), Combination(q, b, k, r))
  {
    FirstMatchesJoined(q, b);
  }

  lemma RowOfBase(q: Query, joined: seq<Joined>, b: Record) returns (i: nat)
    requires q.Valid() && Covers(q, joined) && b in q.selected
    ensures i < |joined| && joined[i].base == b
  {
    FirstMatchesJoined(q, b);
    assert FirstMatches(q, b) in joined;
    i :| 0 <= i < |joined| && joined[i] == FirstMatches(q, b);
  }

  /** No later row has the base record of row `i`. */
  ghost predicate LastOfBase(joined: seq<Joined>, i: nat)
    requires i < |joined|
  {
    forall j :: i < j < |joined| ==> joined[j].base != joined[i].base
  }

  /** By the last row of a base record the join has delivered all its matches. */
  lemma LastHasAll(q: Query, joined: seq<Joined>, k: nat, i: nat)
    requires q.Valid() && Covers(q, joined)
    requires k < |q.Rels()| && i < |joined| && LastOfBase(joined, i)
    ensures AllDelivered(q.Link(joined, k), i)
  {
    var l, b := q.Link(joined, k), joined[i].base;
    LinkOwn(q, joined, k, i, joined[i].base);
    assert JoinedFrom(q.db, q.selected, q.Rels(), joined[i]);
    forall r | r in l.Own(i) ensures DeliveredBy(l, i, r) {
      var j := CombinationAt(q, joined, b, k, r);
      assert l.matches[j] == Some(r);
    }
  }

  lemma CombinationAt(q: Query, joined: seq<Joined>, b: Record, k: nat, r: Record) returns (j: nat)
    requires q.Valid() && Covers(q, joined) && b in q.selected
    requires k < |q.Rels()| && r in Matches(q.db, q.Rels()[k], b)
    ensures j < |joined| && joined[j] == Combination(q, b, k, r)
  {
    CombinationJoined(q, b, k, r);
    assert Combination(q, b, k, r) in joined;
    j :| 0 <= j < |joined| && joined[j] == Combination(q, b, k, r);
  }

  // ----- a single resource -----

  /** The rows of the join for one base row, in any order, repeated or not. */
  ghost predicate SingleJoin(q: Query, b: Record, joined: seq<Joined>)
    requires q.Valid()
  {
    q.selected == [b] && Covers(q, joined)
  }

  lemma SingleRows(q: Query, b: Record, joined: seq<Joined>)
    requires q.Valid() && SingleJoin(q, b, joined)
    ensures q.Produces(joined) && |joined| > 0
    ensures forall i :: 0 <= i < |joined| ==> joined[i].base == b
  {
    var first := RowOfBase(q, joined, b);
    forall i | 0 <= i < |joined| ensures joined[i].base == b {
      assert JoinedFrom(q.db, q.selected, q.Rels(), joined[i]);
    }
  }

  /** Collecting undoes the fan-out of the join: whatever the order of the product
      rows and however many relationships there are, the last row's list for each
      is free of duplicates and holds exactly the matching rows. */
  lemma FanOutUndone(q: Query, b: Record, joined: seq<Joined>, k: nat, last: nat)
    requires q.Valid() && SingleJoin(q, b, joined) && k < |q.Rels()| && last == |joined| - 1
    ensures var list, own := q.Link(joined, k).Listed(last), Matches(q.db, q.Rels()[k], b);
            && NoDuplicates(list)
            && Elements(list) == Elements(own)
            && (|list| == 0 <==> |own| == 0)
  {
    SingleRows(q, b, joined);
    SingleOnlyOwn(q, b, joined, k, last);
    LinkOwn(q, joined, k, last, b);
    LastListComplete(q, joined, k, last);
  }

  /** A list that holds only a row's own related records is complete by the row's
      last occurrence. */
  lemma LastListComplete(q: Query, joined: seq<Joined>, k: nat, i: nat)
    requires q.Valid() && Covers(q, joined)
    requires k < |q.Rels()| && i < |joined| && LastOfBase(joined, i) && OnlyOwnRows(q.Link(joined, k), i)
    ensures var l := q.Link(joined, k);
            && NoDuplicates(l.Listed(i))
            && Elements(l.Listed(i)) == Elements(l.Own(i))
            && (|l.Listed(i)| == 0 <==> |l.Own(i)| == 0)
  {
    LinkValid(q, joined, k);
    LastHasAll(q, joined, k, i);
    ListComplete(q.Link(joined, k), i);
  }

  lemma SingleOnlyOwn(q: Query, b: Record, joined: seq<Joined>, k: nat, last: nat)
    requires q.Valid() && q.Produces(joined) && last < |joined| && k < |q.Rels()|
    requires forall i :: 0 <= i < |joined| ==> joined[i].base == b
    ensures OnlyOwnRows(q.Link(joined, k), last)
  {
  }

  lemma ShowsElements(
    env: Env, q: Query, joined: seq<Joined>, k: nat, i: nat, rtd: TypeDescriptor, own: seq<Record>)
    requires q.Valid() && q.Produces(joined) && k < |q.Rels()| && i < |joined|
    requires Configured(env, q, k, rtd) && q.Rels()[k].relationship.value.kind == "oneToMany"
    requires Elements(q.Link(joined, k).Listed(i)) == Elements(own)
    ensures ItemSet(At(Final(env, q, joined, i), q.Rels()[k].key)) == Some(ShownSet(env, rtd, own))
  {
    ToManyShowsList(env, q, joined, k, i, rtd);
    SameRecordsShown(env, rtd, q.Link(joined, k).Listed(i), own);
  }

  /** In the last record of a single resource a to-many field shows exactly the
      matching rows .. */
  lemma LastRecordComplete(
    env: Env, q: Query, b: Record, joined: seq<Joined>, k: nat, last: nat, rtd: TypeDescriptor)
    requires q.Valid() && SingleJoin(q, b, joined) && k < |q.Rels()| && Configured(env, q, k, rtd)
    requires last == |joined| - 1 && q.Rels()[k].relationship.value.kind == "oneToMany"
    ensures ItemSet(At(Final(env, q, joined, last), q.Rels()[k].key))
         == Some(ShownSet(env, rtd, Matches(q.db, q.Rels()[k], b)))
  {
    FanOutUndone(q, b, joined, k, last);
    ShowsElements(env, q, joined, k, last, rtd, Matches(q.db, q.Rels()[k], b));
  }

  /** .. that is, when normalised, the set of their ids, provided that the related
      type shows its ids at all. */
  lemma LastRecordIds(
    env: Env, q: Query, b: Record, joined: seq<Joined>, k: nat, last: nat, rtd: TypeDescriptor)
    requires q.Valid() && SingleJoin(q, b, joined) && k < |q.Rels()| && Configured(env, q, k, rtd)
    requires last == |joined| - 1 && q.Rels()[k].relationship.value.kind == "oneToMany"
    requires ShowsId(rtd) && !env.denormalize
    ensures ItemSet(At(Final(env, q, joined, last), q.Rels()[k].key))
         == Some(IdSet(env.p, rtd.uniqueIdColumn, Matches(q.db, q.Rels()[k], b)))
  {
    LastRecordComplete(env, q, b, joined, k, last, rtd);
    ShownIds(env, rtd, Matches(q.db, q.Rels()[k], b));
  }

  // ----- a collection, ordered by id -----

  function IdOf(q: Query, b: Record): Value { At(b, q.td.uniqueIdColumn) }

  /** `ORDER BY` the unique id, as the database ranks ids: the selected rows have
      distinct ids and are listed by rank, and so are the rows of their join. */
  ghost predicate OrderedById(q: Query, joined: seq<Joined>, rank: Value -> int)
    requires q.Valid()
  {
    && Covers(q, joined)
    && (forall m, n :: 0 <= m < n < |q.selected| ==> rank(IdOf(q, q.selected[m])) < rank(IdOf(q, q.selected[n])))
    && (forall i, j :: 0 <= i < j < |joined| ==> rank(IdOf(q, joined[i].base)) <= rank(IdOf(q, joined[j].base)))
  }

  /** The local values of the selected rows, and whether each has a match. */
  function SelectedLocals(q: Query, k: nat): (r: seq<Value>)
    requires k < |q.Rels()| && q.Rels()[k].relationship.Some?
    ensures |r| == |q.selected|
  {
    seq(|q.selected|, m requires 0 <= m < |q.selected| => At(q.selected[m], q.Rels()[k].relationship.value.localColumn))
  }

  function SelectedHave(q: Query, k: nat): (r: seq<bool>)
    requires k < |q.Rels()| && HasTable(q.db, q.Rels()[k])
    ensures |r| == |q.selected|
  {
    seq(|q.selected|, m requires 0 <= m < |q.selected| => Matches(q.db, q.Rels()[k], q.selected[m]) != [])
  }

  /** Every selected row from the first one with a match through row `m` has the
      local value of row `m`. */
  ghost predicate OnlyOwnSelected(q: Query, k: nat, m: nat)
    requires q.Valid() && k < |q.Rels()| && m < |q.selected|
  {
    OnlyOwnGroups(SelectedLocals(q, k), SelectedHave(q, k), m)
  }

  /** The selected row that row `i` of the join belongs to. */
  ghost function OwnerOf(q: Query, joined: seq<Joined>, i: nat): (m: nat)
    requires q.Valid() && q.Produces(joined) && i < |joined|
    ensures m < |q.selected| && q.selected[m] == joined[i].base
  {
    assert JoinedFrom(q.db, q.selected, q.Rels(), joined[i]);
    var m :| 0 <= m < |q.selected| && q.selected[m] == joined[i].base;
    m
  }

  ghost function Owners(q: Query, joined: seq<Joined>): (owner: seq<nat>)
    requires q.Valid() && q.Produces(joined)
    ensures |owner| == |joined|
  {
    seq(|joined|, i requires 0 <= i < |joined| => OwnerOf(q, joined, i))
  }

  /** Rows come in the order of the selected rows they belong to. */
  lemma OwnersInOrder(q: Query, joined: seq<Joined>, rank: Value -> int, i: nat, j: nat)
    requires q.Valid() && q.Produces(joined) && OrderedById(q, joined, rank) && i < j < |joined|
    ensures OwnerOf(q, joined, i) <= OwnerOf(q, joined, j)
  {
    var a, b := OwnerOf(q, joined, i), OwnerOf(q, joined, j);
    assert rank(IdOf(q, joined[i].base)) <= rank(IdOf(q, joined[j].base));
    SelectedRank(q, joined, rank, b, a);
  }

  lemma SelectedRank(q: Query, joined: seq<Joined>, rank: Value -> int, a: nat, b: nat)
    requires q.Valid() && OrderedById(q, joined, rank) && a < |q.selected| && b < |q.selected|
    ensures a < b ==> rank(IdOf(q, q.selected[a])) < rank(IdOf(q, q.selected[b]))
  {
  }

  /** Distinct ids: a row belongs to one selected row only. */
  lemma OwnerUnique(q: Query, joined: seq<Joined>, rank: Value -> int, i: nat, m: nat)
    requires q.Valid() && q.Produces(joined) && OrderedById(q, joined, rank)
    requires i < |joined| && m < |q.selected| && q.selected[m] == joined[i].base
    ensures OwnerOf(q, joined, i) == m
  {
    SelectedRank(q, joined, rank, OwnerOf(q, joined, i), m);
    SelectedRank(q, joined, rank, m, OwnerOf(q, joined, i));
  }

  lemma OwnerGroup(q: Query, joined: seq<Joined>, k: nat, i: nat)
    requires q.Valid() && q.Produces(joined) && k < |q.Rels()| && i < |joined|
    ensures InGroup(q.Link(joined, k), i, OwnerOf(q, joined, i), SelectedLocals(q, k), SelectedHave(q, k))
  {
    LinkValid(q, joined, k);
    LinkOwn(q, joined, k, i, joined[i].base);
    ContentIsMatch(q.Link(joined, k), i);
  }

  lemma JoinInGroups(q: Query, joined: seq<Joined>, rank: Value -> int, k: nat)
    requires q.Valid() && q.Produces(joined) && OrderedById(q, joined, rank) && k < |q.Rels()|
    ensures InGroups(q.Link(joined, k), Owners(q, joined), SelectedLocals(q, k), SelectedHave(q, k))
  {
    var l, owner, local, has := q.Link(joined, k), Owners(q, joined), SelectedLocals(q, k), SelectedHave(q, k);
    forall i | 0 <= i < |owner| ensures InGroup(l, i, owner[i], local, has) {
      OwnerGroup(q, joined, k, i);
    }
    forall i, j | 0 <= i < j < |owner| ensures owner[i] <= owner[j] {
      OwnersInOrder(q, joined, rank, i, j);
    }
    forall m: nat | m < |q.selected| ensures m in owner {
      OwnsRow(q, joined, rank, m);
    }
  }

  lemma OwnsRow(q: Query, joined: seq<Joined>, rank: Value -> int, m: nat)
    requires q.Valid() && q.Produces(joined) && OrderedById(q, joined, rank) && m < |q.selected|
    ensures m in Owners(q, joined)
  {
    var i := RowOfBase(q, joined, q.selected[m]);
    OwnerUnique(q, joined, rank, i, m);
    assert Owners(q, joined)[i] == m;
  }

  /** In a collection ordered by id, the last record of selected row `m` shows exactly
      that row's related records in a to-many field, each once, if and only if all
      selected rows from the first one with a match through `m` share its local value. */
  lemma CollectionShowsOwn(
    env: Env, q: Query, joined: seq<Joined>, rank: Value -> int, k: nat, i: nat, m: nat, rtd: TypeDescriptor)
    requires q.Valid() && OrderedById(q, joined, rank) && k < |q.Rels()|
    requires i < |joined| && LastOfBase(joined, i) && m < |q.selected| && joined[i].base == q.selected[m]
    requires Configured(env, q, k, rtd) && q.Rels()[k].relationship.value.kind == "oneToMany"
    requires ShowsId(rtd) && IdColumn(env.p, Related(q.db, q.Rels()[k]).rows, rtd.uniqueIdColumn)
    ensures q.Produces(joined)
    ensures var v, own := At(Final(env, q, joined, i), q.Rels()[k].key), Matches(q.db, q.Rels()[k], q.selected[m]);
            && (ItemSet(v) == Some(ShownSet(env, rtd, own)) <==> OnlyOwnSelected(q, k, m))
            && NoDuplicates(Items(v))
  {
    LinkValid(q, joined, k);
    LastHasAll(q, joined, k, i);
    ListIsOwnExactly(q.Link(joined, k), i);
    ShowsOwnExactly(env, q, joined, k, i, rtd);
    JoinInGroups(q, joined, rank, k);
    OwnerUnique(q, joined, rank, i, m);
    OnlyOwnInGroups(q.Link(joined, k), Owners(q, joined), SelectedLocals(q, k), SelectedHave(q, k), i);
  }
}
