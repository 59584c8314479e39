/** The connector descriptor (descriptor.go) and the look-ups over it (util.go). */
module Descriptor {
  import opened Values

  datatype Amount = Amount(key: string, fromColumn: string)
  datatype Currency = Currency(key: string, fromColumn: string, value: string)
  datatype WorkflowType = WorkflowType(name: string, kind: string, amount: Amount, currency: Currency)
  datatype Relationship = Relationship(kind: string, withTable: string, foreignColumn: string, localColumn: string)
  datatype Field = Field(key: string, fromColumn: string, typ: WorkflowType, relationship: Option<Relationship>)
  datatype TypeDescriptor = TypeDescriptor(
    key: string, tableName: string, columnAsOptionName: string, uniqueIdColumn: string, fields: seq<Field>)

  // ----- sanity checks -----

  datatype SanityError =
    | IdColumnsDiffer(td: string)
    | NameColumnsDiffer(td: string)
    | TwoCurrencies(td: string, field: string)
    | FromColumnMissing(typeName: string)
    | TypeNameMissing(field: string)

  function ErrId(td: TypeDescriptor): Option<SanityError> {
    if exists f | f in td.fields :: f.key == "id" && td.uniqueIdColumn != "id"
    then Some(IdColumnsDiffer(td.key)) else None
  }

  function ErrName(td: TypeDescriptor): Option<SanityError> {
    if exists f | f in td.fields :: f.key == "name" && td.columnAsOptionName != "name"
    then Some(NameColumnsDiffer(td.key)) else None
  }

  function ErrField(f: Field, td: string): Option<SanityError> {
    if f.typ.name == "money" && f.typ.currency.value != "" && f.typ.currency.fromColumn != "" then
      Some(TwoCurrencies(td, f.key))
    else if f.typ.name != "money" && f.relationship.None? && f.fromColumn == "" then
      Some(FromColumnMissing(f.typ.name))
    else if f.typ.name == "" then
      Some(TypeNameMissing(f.key))
    else None
  }

  function ErrFields(fields: seq<Field>, td: string): Option<SanityError> {
    if fields == [] then None
    else
      var e := ErrField(fields[0], td);
      if e.Some? then e else ErrFields(fields[1..], td)
  }

  /** The first failed check, in the order the descriptor file is checked. */
  function PerformSanityChecks(tds: seq<TypeDescriptor>): Option<SanityError> {
    if tds == [] then None
    else
      var td := tds[0];
      if ErrId(td).Some? then ErrId(td)
      else if ErrName(td).Some? then ErrName(td)
      else if ErrFields(td.fields, td.key).Some? then ErrFields(td.fields, td.key)
      else PerformSanityChecks(tds[1..])
  }

  ghost predicate SaneField(f: Field) {
    && (f.typ.name == "money" ==> f.typ.currency.value == "" || f.typ.currency.fromColumn == "")
    && (f.typ.name != "money" && f.relationship.None? ==> f.fromColumn != "")
    && f.typ.name != ""
  }

  ghost predicate Sane(td: TypeDescriptor) {
    && (forall f :: f in td.fields && f.key == "id" ==> td.uniqueIdColumn == "id")
    && (forall f :: f in td.fields && f.key == "name" ==> td.columnAsOptionName == "name")
    && (forall f :: f in td.fields ==> SaneField(f))
  }

  lemma {:induction false} ErrFieldsNone(fields: seq<Field>, td: string)
    ensures ErrFields(fields, td).None? <==> forall f :: f in fields ==> SaneField(f)
  {
    if fields != [] {
      ErrFieldsNone(fields[1..], td);
      assert ErrField(fields[0], td).None? <==> SaneField(fields[0]);
      assert forall f :: f in fields <==> f == fields[0] || f in fields[1..];
    }
  }

  /** A descriptor file is accepted exactly when every type descriptor is sane. */
  lemma {:induction false} SanityChecksAccept(tds: seq<TypeDescriptor>)
    ensures PerformSanityChecks(tds).None? <==> forall td :: td in tds ==> Sane(td)
  {
    if tds != [] {
      SanityChecksAccept(tds[1..]);
      ErrFieldsNone(tds[0].fields, tds[0].key);
      assert Sane(tds[0]) <==>
             ErrId(tds[0]).None? && ErrName(tds[0]).None? && ErrFields(tds[0].fields, tds[0].key).None?;
      assert forall td :: td in tds <==> td == tds[0] || td in tds[1..];
    }
  }

  // ----- look-ups -----

  /** The last type descriptor for the table, as the scan that keeps overwriting finds it. */
  function DescriptorOf(tds: seq<TypeDescriptor>, table: string): (td: Option<TypeDescriptor>)
    ensures td.Some? ==> td.value in tds && td.value.tableName == table
    ensures td.None? ==> forall t :: t in tds ==> t.tableName != table
  {
    if tds == [] then None
    else
      var n := |tds| - 1;
      if tds[n].tableName == table then Some(tds[n])
      else
        assert tds == tds[..n] + [tds[n]];
        DescriptorOf(tds[..n], table)
  }

  method GetTypeDescriptorUsingDBTableName(tds: seq<TypeDescriptor>, table: string)
    returns (td: Option<TypeDescriptor>)
    ensures td == DescriptorOf(tds, table)
  {
    td := None;
    for i := 0 to |tds|
      invariant td == DescriptorOf(tds[..i], table)
    {
      assert tds[..i + 1][..i] == tds[..i];
      if table == tds[i].tableName {
        td := Some(tds[i]);
      }
    }
    assert tds[..|tds|] == tds;
  }

  /** The fields that are (or are not) relationships, in descriptor order. */
  function Select(fields: seq<Field>, related: bool): (r: seq<Field>)
    ensures forall f :: f in r <==> f in fields && f.relationship.Some? == related
  {
    if fields == [] then []
    else
      var n := |fields| - 1;
      assert fields == fields[..n] + [fields[n]];
      Select(fields[..n], related) + (if fields[n].relationship.Some? == related then [fields[n]] else [])
  }

  function Relationships(fields: seq<Field>): seq<Field> { Select(fields, true) }

  function Plain(fields: seq<Field>): seq<Field> { Select(fields, false) }

  /** Selecting from a list whose fields are all of one sort takes all or nothing. */
  lemma {:induction false} SelectUniform(fields: seq<Field>, a: bool, b: bool)
    requires forall i :: 0 <= i < |fields| ==> fields[i].relationship.Some? == a
    ensures Select(fields, b) == if a == b then fields else []
  {
    if fields != [] {
      var n := |fields| - 1;
      SelectUniform(fields[..n], a, b);
      assert fields == fields[..n] + [fields[n]];
    }
  }

  lemma OneRelationship(f: Field)
    requires f.relationship.Some?
    ensures Relationships([f]) == [f] && Plain([f]) == []
  {
    assert [f][..0] == [];
    assert Select([f], true) == [] + [f] && Select([f], false) == [] + [];
  }

  lemma PlainOfPlain(fields: seq<Field>)
    ensures Relationships(Plain(fields)) == [] && Plain(Plain(fields)) == Plain(fields)
  {
    var plain := Plain(fields);
    forall i | 0 <= i < |plain| ensures plain[i].relationship.None? {
      assert plain[i] in plain;
    }
    SelectUniform(plain, false, true);
    SelectUniform(plain, false, false);
  }

  method TypeDescriptorRelationships(td: TypeDescriptor) returns (relationships: seq<Field>)
    ensures relationships == Relationships(td.fields)
  {
    relationships := [];
    for i := 0 to |td.fields|
      invariant relationships == Relationships(td.fields[..i])
    {
      assert td.fields[..i + 1][..i] == td.fields[..i];
      if td.fields[i].relationship.Some? {
        relationships := relationships + [td.fields[i]];
      }
    }
    assert td.fields[..|td.fields|] == td.fields;
  }

  /** A selection keeps the order of what it selects, so distinctness too. */
  lemma {:induction false} SelectNoDuplicates(fields: seq<Field>, related: bool)
    requires NoDuplicates(fields)
    ensures NoDuplicates(Select(fields, related))
  {
    if fields != [] {
      var n := |fields| - 1;
      assert NoDuplicates(fields[..n]);
      SelectNoDuplicates(fields[..n], related);
      assert fields[n] !in fields[..n];
    }
  }
}
