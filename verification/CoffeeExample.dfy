/** Concrete cases, after the descriptor the connector ships with: a to-many field that
    lists another row's related record, a to-one field that finds its own although the
    list it searches holds another's, a to-one field that is never shown, and a single
    resource that comes back as an array. */
module CoffeeExample {
  import opened Values
  import opened Descriptor
  import opened Decode
  import opened Deduplicate
  import opened Join
  import opened Formatting
  import opened FormattingProperties
  import opened RelatedRecords
  import opened FinalRecords
  import opened ToOneFields
  import opened Collections
  import opened Endpoints
  import opened Strings

  // ----- tables and descriptors -----

  function Equipment(id: int): Record { map["id" := Int(id)] }

  function Recipe(id: int, equipment: int): Record { map["id" := Int(id), "equipment_id" := Int(equipment)] }

  function EquipmentTable(): Table {
    Table("equipment", ["id"], [Equipment(1), Equipment(2)], map["id" := Nil])
  }

  function RecipesTable(a: Record, b: Record): Table {
    Table("recipes", ["id", "equipment_id"], [a, b], map["id" := Nil, "equipment_id" := Nil])
  }

  function TextType(): WorkflowType { WorkflowType("text", "", Amount("", ""), Currency("", "", "")) }

  function IdField(): Field { Field("id", "id", TextType(), None) }

  function UsedIn(): Field {
    Field("recipes", "", TextType(), Some(Relationship("oneToMany", "recipes", "equipment_id", "id")))
  }

  function Needs(): Field {
    Field("equipment", "", TextType(), Some(Relationship("manyToOne", "equipment", "id", "equipment_id")))
  }

  function EquipmentDescriptor(): TypeDescriptor {
    TypeDescriptor("equipment", "equipment", "name", "id", [IdField(), UsedIn()])
  }

  function RecipesDescriptor(): TypeDescriptor {
    TypeDescriptor("recipes", "recipes", "name", "id", [IdField(), Needs()])
  }

  /** A plain field and a relationship. */
  lemma TwoFields(f: Field, g: Field)
    requires f.relationship.None? && g.relationship.Some?
    ensures Relationships([f, g]) == [g] && Plain([f, g]) == [f]
  {
    assert [f, g][..1] == [f] && [f][..0] == [];
    assert Select([f], true) == [] && Select([f], false) == [f];
  }

  lemma DescriptorFields()
    ensures Relationships(EquipmentDescriptor().fields) == [UsedIn()]
    ensures Plain(EquipmentDescriptor().fields) == [IdField()]
    ensures Relationships(RecipesDescriptor().fields) == [Needs()]
    ensures Plain(RecipesDescriptor().fields) == [IdField()]
  {
    TwoFields(IdField(), UsedIn());
    TwoFields(IdField(), Needs());
  }

  /** A table of ids. */
  lemma IdTable(name: string, id: string, a: int, b: int)
    requires NUL !in name && a != b
    ensures var t := Table(name, [id], [map[id := Int(a)], map[id := Int(b)]], map[id := Nil]);
            ValidTable(t) && HaveIds(t.rows, id)
  {
    TwoIds(map[id := Int(a)], map[id := Int(b)], id);
  }

  /** A table of ids and foreign keys. */
  lemma KeyTable(name: string, id: string, key: string, a: int, ka: int, b: int, kb: int)
    requires NUL !in name && a != b && id != key
    ensures var t := Table(name, [id, key], [map[id := Int(a), key := Int(ka)], map[id := Int(b), key := Int(kb)]],
                           map[id := Nil, key := Nil]);
            ValidTable(t) && HaveIds(t.rows, id)
  {
    TwoIds(map[id := Int(a), key := Int(ka)], map[id := Int(b), key := Int(kb)], id);
  }

  /** Every row has an integer id of its own. */
  ghost predicate HaveIds(rows: seq<Record>, id: string) {
    && TypedIds(rows, id)
    && forall r :: r in rows ==> HasContent(r) && At(r, id).Int?
  }

  lemma TwoIds(x: Record, y: Record, id: string)
    requires At(x, id).Int? && At(y, id).Int? && At(x, id) != At(y, id)
    ensures HaveIds([x, y], id)
  {
    assert NonEmpty(x[id]) && NonEmpty(y[id]);
  }

  lemma MatchOfKey(db: Database, f: Field, b: Record, r: Record)
    requires HasTable(db, f) && r in Related(db, f).rows
    requires At(r, f.relationship.value.foreignColumn) == At(b, f.relationship.value.localColumn) != Nil
    ensures r in Matches(db, f, b)
  {
  }

  lemma JoinedByKey(db: Database, bases: seq<Record>, f: Field, b: Record, r: Record)
    requires HasTable(db, f) && b in bases && r in Related(db, f).rows
    requires At(r, f.relationship.value.foreignColumn) == At(b, f.relationship.value.localColumn) != Nil
    ensures JoinedFrom(db, bases, [f], Joined(b, [Some(r)]))
  {
    MatchOfKey(db, f, b, r);
  }

  lemma RecipeCells(id: int, equipment: int)
    ensures At(Recipe(id, equipment), "id") == Int(id)
    ensures At(Recipe(id, equipment), "equipment_id") == Int(equipment)
  {
    KeysDiffer();
  }

  lemma KeysDiffer()
    ensures "recipes" != "id" && "equipment" != "id" && "name" != "id" && "equipment" != "equipment_id"
    ensures "equipment_id" != "id" && "recipes" != "equipment"
    ensures "manyToOne" != "oneToMany"
  {
    assert |"equipment_id"| == 12 && |"equipment"| == 9 && |"recipes"| == 7 && |"name"| == 4 && |"id"| == 2;
    assert "manyToOne"[0] != "oneToMany"[0];
  }

  lemma OneWriters()
    ensures OneWriter(EquipmentDescriptor(), EquipmentDescriptor().fields)
    ensures OneWriter(RecipesDescriptor(), RecipesDescriptor().fields)
    ensures KeysApart(EquipmentDescriptor(), EquipmentDescriptor().fields)
    ensures KeysApart(RecipesDescriptor(), RecipesDescriptor().fields)
  {
    TwoWriters(EquipmentDescriptor(), IdField(), UsedIn());
    TwoWriters(RecipesDescriptor(), IdField(), Needs());
  }

  lemma TwoWriters(td: TypeDescriptor, f: Field, g: Field)
    requires td.fields == [f, g] && OutputKey(td, f) != OutputKey(td, g)
    ensures OneWriter(td, td.fields) && KeysApart(td, td.fields)
  {
    OneWriterKeysApart(td, td.fields);
  }

  lemma DescriptorsShowIds()
    ensures ShowsId(EquipmentDescriptor()) && ShowsId(RecipesDescriptor())
    ensures Identifies(EquipmentDescriptor(), "id", "id")
  {
    DescriptorFields();
    OneWriters();
    KeysDiffer();
    IdFieldIdentifies(EquipmentDescriptor(), IdField());
    IdFieldIdentifies(RecipesDescriptor(), IdField());
  }

  lemma EquipmentValid()
    ensures ValidTable(EquipmentTable()) && HaveIds(EquipmentTable().rows, "id")
  {
    IdTable("equipment", "id", 1, 2);
  }

  lemma RecipesTableValid(x: int, ex: int, y: int, ey: int)
    requires x != y
    ensures ValidTable(RecipesTable(Recipe(x, ex), Recipe(y, ey)))
    ensures HaveIds(RecipesTable(Recipe(x, ex), Recipe(y, ey)).rows, "id")
  {
    KeysDiffer();
    KeyTable("recipes", "id", "equipment_id", x, ex, y, ey);
  }

  lemma ProducesTwo(q: Query, joined: seq<Joined>, f: Field)
    requires q.Valid() && q.Rels() == [f] && |joined| == 2
    requires JoinedFrom(q.db, q.selected, [f], joined[0]) && JoinedFrom(q.db, q.selected, [f], joined[1])
    ensures q.Produces(joined)
  {
  }

  // ----- equipment, with the recipes it is used in -----

  function Coffee(): Query {
    Query(map["recipes" := RecipesTable(Recipe(10, 1), Recipe(20, 2))], EquipmentTable(), EquipmentDescriptor(),
          EquipmentTable().rows)
  }

  /** Each piece of equipment with its one recipe, ordered by id. */
  function CoffeeJoin(): seq<Joined> {
    [Joined(Equipment(1), [Some(Recipe(10, 1))]), Joined(Equipment(2), [Some(Recipe(20, 2))])]
  }

  lemma CoffeeValid()
    ensures Coffee().Rels() == [UsedIn()] && Coffee().Valid()
  {
    DescriptorFields();
    OneWriters();
    KeysDiffer();
    EquipmentValid();
    RecipesTableValid(10, 1, 20, 2);
    OneRelationshipValid(Coffee(), UsedIn());
  }

  lemma CoffeeProduces()
    ensures Coffee().Rels() == [UsedIn()] && Coffee().Valid() && Coffee().Produces(CoffeeJoin())
  {
    CoffeeValid();
    RecipeCells(10, 1);
    RecipeCells(20, 2);
    JoinedByKey(Coffee().db, Coffee().selected, UsedIn(), Equipment(1), Recipe(10, 1));
    JoinedByKey(Coffee().db, Coffee().selected, UsedIn(), Equipment(2), Recipe(20, 2));
    ProducesTwo(Coffee(), CoffeeJoin(), UsedIn());
  }

  /** A base row with one match has one row in the join. */
  lemma OnlyMatch(db: Database, f: Field, b: Record, r: Record, other: Record, j: Joined)
    requires HasTable(db, f) && Related(db, f).rows in [[r, other], [other, r]]
    requires var key, local := f.relationship.value.foreignColumn, f.relationship.value.localColumn;
             At(r, key) == At(b, local) != Nil && At(other, key) != At(b, local)
    requires j.base == b && |j.related| == 1 && Choice(Matches(db, f, b), j.related[0])
    ensures j == Joined(b, [Some(r)])
  {
    MatchOfKey(db, f, b, r);
    assert j.related[0].Some?;
    assert j.related == [Some(r)];
  }

  /** Two base rows with one match each: their join has two rows. */
  lemma PairedRow(db: Database, f: Field, a: Record, b: Record, ra: Record, rb: Record, j: Joined)
    requires HasTable(db, f) && Related(db, f).rows == [ra, rb]
    requires var key, local := f.relationship.value.foreignColumn, f.relationship.value.localColumn;
             && At(ra, key) == At(a, local) != Nil && At(rb, key) == At(b, local) != Nil
             && At(a, local) != At(b, local)
    requires JoinedFrom(db, [a, b], [f], j)
    ensures j in [Joined(a, [Some(ra)]), Joined(b, [Some(rb)])]
  {
    if j.base == a {
      OnlyMatch(db, f, a, ra, rb, j);
    } else {
      OnlyMatch(db, f, b, rb, ra, j);
    }
  }

  function ById(v: Value): int { if v.Int? then v.i else 0 }

  /** Two selected rows, by rank, with one joined row each. */
  ghost predicate InPairs(q: Query, joined: seq<Joined>, rank: Value -> int) {
    && |q.selected| == |joined| == 2
    && joined[0].base == q.selected[0] && joined[1].base == q.selected[1]
    && rank(IdOf(q, q.selected[0])) < rank(IdOf(q, q.selected[1]))
  }

  lemma OrderedTwo(q: Query, joined: seq<Joined>, rank: Value -> int)
    requires q.Valid() && Covers(q, joined) && InPairs(q, joined, rank)
    ensures OrderedById(q, joined, rank)
  {
    forall i, j | 0 <= i < j < |joined|
      ensures rank(IdOf(q, joined[i].base)) <= rank(IdOf(q, joined[j].base))
    {
      assert i == 0 && j == 1;
    }
    forall m, n | 0 <= m < n < |q.selected|
      ensures rank(IdOf(q, q.selected[m])) < rank(IdOf(q, q.selected[n]))
    {
      assert m == 0 && n == 1;
    }
  }

  lemma CoffeeCovers()
    requires Coffee().Rels() == [UsedIn()] && Coffee().Valid() && Coffee().Produces(CoffeeJoin())
    ensures Covers(Coffee(), CoffeeJoin())
  {
    RecipeCells(10, 1);
    RecipeCells(20, 2);
    forall j | JoinedFrom(Coffee().db, Coffee().selected, Coffee().Rels(), j) ensures j in CoffeeJoin() {
      PairedRow(Coffee().db, UsedIn(), Equipment(1), Equipment(2), Recipe(10, 1), Recipe(20, 2), j);
    }
  }

  lemma CoffeeRanks()
    ensures InPairs(Coffee(), CoffeeJoin(), ById)
  {
    assert IdOf(Coffee(), Equipment(1)) == Int(1) && IdOf(Coffee(), Equipment(2)) == Int(2);
  }

  /** The rows come as `ORDER BY id` delivers them. */
  lemma CoffeeOrdered()
    ensures Coffee().Rels() == [UsedIn()] && Coffee().Valid() && OrderedById(Coffee(), CoffeeJoin(), ById)
  {
    CoffeeProduces();
    CoffeeCovers();
    CoffeeRanks();
    OrderedTwo(Coffee(), CoffeeJoin(), ById);
  }

  /** Two selected rows with different local values, the first with a match. */
  lemma SecondNotAlone(q: Query, a: Record, b: Record, r: Record)
    requires q.Valid() && |q.Rels()| == 1 && q.selected == [a, b]
    requires var local := q.Rels()[0].relationship.value.localColumn; At(a, local) != At(b, local)
    requires r in Matches(q.db, q.Rels()[0], a)
    ensures !OnlyOwnSelected(q, 0, 1)
  {
    assert SelectedHave(q, 0)[0] && SelectedLocals(q, 0)[0] != SelectedLocals(q, 0)[1];
  }

  /** In the collection of equipment, the second piece is not shown with its own
      recipe alone: the first one's is there too. */
  lemma CollectionListsForeignRecords(env: Env)
    requires env.cfg == [RecipesDescriptor()]
    ensures Coffee().Rels() == [UsedIn()] && Coffee().Valid() && Coffee().Produces(CoffeeJoin())
    ensures OrderedById(Coffee(), CoffeeJoin(), ById)
    ensures ItemSet(At(Final(env, Coffee(), CoffeeJoin(), 1), "recipes"))
         != Some(ShownSet(env, RecipesDescriptor(), Matches(Coffee().db, UsedIn(), Equipment(2))))
  {
    CoffeeOrdered();
    DescriptorsShowIds();
    RecipesTableValid(10, 1, 20, 2);
    TypedIdColumn(env.p, Related(Coffee().db, UsedIn()).rows, "id");
    RecipeCells(10, 1);
    MatchOfKey(Coffee().db, UsedIn(), Equipment(1), Recipe(10, 1));
    SecondNotAlone(Coffee(), Equipment(1), Equipment(2), Recipe(10, 1));
    CollectionShowsOwn(env, Coffee(), CoffeeJoin(), ById, 0, 1, 1, RecipesDescriptor());
  }

  // ----- the recipes, with the equipment each needs -----

  function Recipes(): Query {
    Query(map["equipment" := EquipmentTable()], RecipesTable(Recipe(10, 1), Recipe(20, 2)), RecipesDescriptor(),
          [Recipe(10, 1), Recipe(20, 2)])
  }

  function RecipesJoin(): seq<Joined> {
    [Joined(Recipe(10, 1), [Some(Equipment(1))]), Joined(Recipe(20, 2), [Some(Equipment(2))])]
  }

  lemma RecipesValid()
    ensures Recipes().Rels() == [Needs()] && Recipes().Valid()
  {
    DescriptorFields();
    OneWriters();
    KeysDiffer();
    EquipmentValid();
    RecipesTableValid(10, 1, 20, 2);
    OneRelationshipValid(Recipes(), Needs());
  }

  lemma RecipesProduce()
    ensures Recipes().Rels() == [Needs()] && Recipes().Valid() && Recipes().Produces(RecipesJoin())
  {
    RecipesValid();
    RecipeCells(10, 1);
    RecipeCells(20, 2);
    JoinedByKey(Recipes().db, Recipes().selected, Needs(), Recipe(10, 1), Equipment(1));
    JoinedByKey(Recipes().db, Recipes().selected, Needs(), Recipe(20, 2), Equipment(2));
    ProducesTwo(Recipes(), RecipesJoin(), Needs());
  }

  /** The second recipe shows its own equipment, as `ForeignKeyResolved` promises. */
  lemma RecipeShowsItsEquipment(env: Env)
    requires env.cfg == [EquipmentDescriptor()] && !env.denormalize
    ensures Recipes().Rels() == [Needs()] && Recipes().Valid() && Recipes().Produces(RecipesJoin())
    ensures At(Final(env, Recipes(), RecipesJoin(), 1), "equipment") == Str(Decimal(2))
  {
    RecipesProduce();
    RecipeCells(20, 2);
    KeysDiffer();
    EquipmentValid();
    DescriptorsShowIds();
    OwnIdShown(env, Recipes(), RecipesJoin(), Needs(), EquipmentDescriptor(), 1, Equipment(2), 2);
  }

  /** With unique integer ids, a relationship to the unique id shows the id of the row's
      own related record. */
  lemma OwnIdShown(
    env: Env, q: Query, joined: seq<Joined>, f: Field, rtd: TypeDescriptor, i: nat, r: Record, v: int)
    requires q.Valid() && q.Produces(joined) && q.Rels() == [f] && i < |joined|
    requires env.cfg == [rtd] && rtd.tableName == f.relationship.value.withTable && !env.denormalize
    requires f.relationship.value.kind != "oneToMany" && f.relationship.value.foreignColumn == rtd.uniqueIdColumn
    requires ShowsId(rtd) && HaveIds(Related(q.db, f).rows, rtd.uniqueIdColumn)
    requires r in Related(q.db, f).rows && At(r, rtd.uniqueIdColumn) == Int(v)
    requires At(joined[i].base, f.relationship.value.localColumn) == Int(v)
    ensures At(Final(env, q, joined, i), f.key) == Str(Decimal(v))
  {
    assert TellsApart(env, q, 0, rtd) by {
      TypedIdColumn(env.p, Related(q.db, f).rows, rtd.uniqueIdColumn);
      IdColumnTellsApart(env, rtd, Related(q.db, f).rows, Related(q.db, f).blank, rtd.uniqueIdColumn);
    }
    MatchOfKey(q.db, f, joined[i].base, r);
    ForeignKeyResolved(env, q, joined, 0, i, rtd, r);
    IdentifiesRow(env.p, rtd, r, rtd.uniqueIdColumn, rtd.uniqueIdColumn);
  }

  // ----- a piece of equipment used in two recipes -----

  function Busy(): Query {
    Query(map["recipes" := RecipesTable(Recipe(10, 1), Recipe(30, 1))], EquipmentTable(), EquipmentDescriptor(),
          [Equipment(1)])
  }

  lemma BusyValid()
    ensures Busy().Rels() == [UsedIn()] && Busy().Valid()
  {
    DescriptorFields();
    OneWriters();
    KeysDiffer();
    EquipmentValid();
    RecipesTableValid(10, 1, 30, 1);
    OneRelationshipValid(Busy(), UsedIn());
  }

  lemma TwoInside(s: seq<Record>, a: Record, b: Record)
    requires a in s && b in s && a != b
    ensures |s| > 1
  {
  }

  lemma MatchedTwice()
    requires Busy().Rels() == [UsedIn()] && Busy().Valid()
    ensures !MatchedAtMostOnce(Busy().db, Equipment(1), Busy().Rels())
  {
    RecipeCells(10, 1);
    RecipeCells(30, 1);
    MatchOfKey(Busy().db, UsedIn(), Equipment(1), Recipe(10, 1));
    MatchOfKey(Busy().db, UsedIn(), Equipment(1), Recipe(30, 1));
    TwoInside(Matches(Busy().db, UsedIn(), Equipment(1)), Recipe(10, 1), Recipe(30, 1));
  }

  /** One piece of equipment is answered with an array. */
  lemma OneIsAnArray(env: Env, joined: seq<Joined>)
    requires Busy().Valid() && JoinOf(Busy(), joined)
    ensures Busy().Produces(joined)
    ensures SingleResponse(AllFinal(env, Busy(), joined)).Records?
  {
    BusyValid();
    JoinCovers(Busy(), joined);
    MatchedTwice();
    SingleShape(env, Busy(), joined);
  }

  // ----- ingredients and what is in stock of them -----

  function InventoryDescriptor(): TypeDescriptor {
    TypeDescriptor("inventory", "inventory", "ingredient_id", "ingredient_id",
      [Field("ingredientId", "ingredient_id", TextType(), None),
       Field("quantity", "quantity", TextType().(name := "number"), None),
       Field("unitOfMeasure", "unit_of_measure", TextType(), None)])
  }

  function InStock(): Field {
    Field("inventory", "", TextType(), Some(Relationship("oneToOne", "inventory", "ingredient_id", "id")))
  }

  lemma NoWriterAmong(td: TypeDescriptor, key: string)
    requires forall i :: 0 <= i < |td.fields| ==>
               td.fields[i].relationship.None? && OutputKey(td, td.fields[i]) != key
    ensures Writer(td, key).None?
  {
    SelectUniform(td.fields, false, false);
  }

  lemma NoWriter()
    ensures Writer(InventoryDescriptor(), "ingredient_id").None?
  {
    assert |"quantity"| == 8 && |"unit_of_measure"| == 15 && |"name"| == 4 && |"ingredient_id"| == 13;
    assert "unitOfMeasure"[0] != "ingredient_id"[0];
    NoWriterAmong(InventoryDescriptor(), "ingredient_id");
  }

  /** However many ingredients are in stock, no ingredient is ever shown with its
      inventory: the key looked up in the embedded records is not among theirs. */
  lemma StockNeverShown(env: Env, q: Query, joined: seq<Joined>, k: nat, i: nat)
    requires q.Valid() && q.Produces(joined) && k < |q.Rels()| && i < |joined|
    requires q.Rels()[k] == InStock() && Configured(env, q, k, InventoryDescriptor())
    requires q.Link(joined, k).Matched(i) && Stringify(env.p, q.Link(joined, k).locals[i]) != Nil
    ensures "inventory" !in Final(env, q, joined, i)
  {
    NoWriter();
    StockKeys();
    NeverShown(env, q, joined, k, i, InventoryDescriptor());
  }

  /** One ingredient, in stock, without its inventory. */
  lemma StockDropped(env: Env)
    requires env.cfg == [InventoryDescriptor()]
    ensures MatchedToOne(env, InStock(), InventoryDescriptor(), Smallest(InStock()), SmallestJoin(InStock()), 0, 0)
    ensures "inventory" !in Final(env, Smallest(InStock()), SmallestJoin(InStock()), 0)
  {
    StockKeys();
    NoWriter();
    SmallestMatched(env, InStock(), InventoryDescriptor());
    SmallestDropped(env, InStock(), InventoryDescriptor());
  }

  lemma StockKeys()
    ensures "inventory" != "id" && "oneToOne" != "oneToMany" && NUL !in "inventory"
  {
    assert |"inventory"| == 9 && |"id"| == 2 && |"oneToOne"| == 8 && |"oneToMany"| == 9;
  }

  // ----- ids that read alike -----

  function Size(id: real, name: string): Record { map["id" := Float(id), "name" := Str(name)] }

  function SizesTable(x: real, y: real): Table {
    Table("sizes", ["id", "name"], [Size(x, "small"), Size(y, "large")], map["id" := Nil, "name" := Nil])
  }

  function NameField(): Field { Field("name", "name", TextType(), None) }

  function SizesDescriptor(): TypeDescriptor {
    TypeDescriptor("sizes", "sizes", "name", "id", [IdField(), NameField()])
  }

  function HasSize(): Field {
    Field("size", "", TextType(), Some(Relationship("manyToOne", "sizes", "id", "size_id")))
  }

  lemma SizeCells(id: real, name: string)
    ensures At(Size(id, name), "id") == Float(id) && At(Size(id, name), "name") == Str(name)
    ensures HasContent(Size(id, name)) && Size(id, name).Keys == {"id", "name"}
  {
    KeysDiffer();
    assert NonEmpty(Size(id, name)["id"]);
  }

  lemma SizesRelated(x: real, y: real)
    requires x != y
    ensures RelatedBy(HasSize(), SizesTable(x, y))
  {
    SizeCells(x, "small");
    SizeCells(y, "large");
    SizesValid(x, y);
    TwoRelated(HasSize(), SizesTable(x, y), Size(x, "small"), Size(y, "large"));
  }

  lemma SizesValid(x: real, y: real)
    ensures ValidTable(SizesTable(x, y)) && HasSize().key != HasSize().relationship.value.localColumn
  {
    SizeCells(x, "small");
    SizeCells(y, "large");
    assert |"size"| == 4 && |"size_id"| == 7;
  }

  lemma TwoRelated(f: Field, t: Table, a: Record, b: Record)
    requires f.relationship.Some? && f.key != f.relationship.value.localColumn
    requires ValidTable(t) && t.name == f.relationship.value.withTable && t.rows == [a, b]
    requires HasContent(a) && HasContent(b)
    requires At(a, f.relationship.value.foreignColumn) != At(b, f.relationship.value.foreignColumn)
    ensures RelatedBy(f, t)
  {
  }

  lemma SizesDescribed()
    ensures Plain(SizesDescriptor().fields) == SizesDescriptor().fields
    ensures OneWriter(SizesDescriptor(), SizesDescriptor().fields)
    ensures Identifies(SizesDescriptor(), "id", "id")
  {
    KeysDiffer();
    SelectUniform(SizesDescriptor().fields, false, false);
    assert IdField() in SizesDescriptor().fields;
    IdFieldIdentifies(SizesDescriptor(), IdField());
  }

  lemma SizesIdentified(env: Env)
    requires env.denormalize
    ensures Identified(env, SizesDescriptor(), HasSize())
  {
    SizesDescribed();
    KeysDiffer();
  }

  /** The sizes look different in full. */
  lemma SizesDiffer(env: Env, x: real, y: real)
    requires env.denormalize
    ensures Shown(env, SizesDescriptor(), Size(x, "small")) != Shown(env, SizesDescriptor(), Size(y, "large"))
  {
    SizesDescribed();
    assert NameField() in SizesDescriptor().fields;
    EmbeddedId(env.p, SizesDescriptor(), Size(x, "small"), NameField());
    EmbeddedId(env.p, SizesDescriptor(), Size(y, "large"), NameField());
    SizeCells(x, "small");
    SizeCells(y, "large");
    assert "small"[0] != "large"[0];
  }

  lemma SizesReadAlike(env: Env, x: real, y: real)
    requires env.denormalize && env.p.float(x) == env.p.float(y)
    ensures !AlikeShownAlike(env, SizesDescriptor(), SizesTable(x, y).rows, SizesTable(x, y).blank, "id")
  {
    var a, b := Size(x, "small"), Size(y, "large");
    SizeCells(x, "small");
    SizeCells(y, "large");
    assert Keyed(SizesTable(x, y).rows, "id", a) && Keyed(SizesTable(x, y).rows, "id", b);
    assert ReadAlike(env.p, At(a, "id"), At(b, "id"));
    SizesDiffer(env, x, y);
  }

  /** Sizes whose ids differ only beyond the digits that are printed: although the ids are
      unique and shown, some record that has one of them is shown with the other. */
  lemma FloatIdsConfused(env: Env, x: real, y: real)
    requires env.cfg == [SizesDescriptor()] && env.denormalize
    requires x != y && env.p.float(x) == env.p.float(y)
    ensures RelatedBy(HasSize(), SizesTable(x, y)) && Identified(env, SizesDescriptor(), HasSize())
    ensures !AlwaysShownOf(env, HasSize(), SizesDescriptor(), SizesTable(x, y))
  {
    SizesRelated(x, y);
    SizesIdentified(env);
    SizesReadAlike(env, x, y);
    AlwaysShownOfExactly(env, HasSize(), SizesDescriptor(), SizesTable(x, y));
  }
}
