/** Parameterised statements from request data (query.go, the UPDATE, INSERT and
    options templates of the dialects, and the handlers that join both). Column
    names, arguments and placeholders come from three separate traversals. */
module QueryBuilder {
  import opened Values
  import opened Descriptor
  import OracleDates

  // ----- what a field takes from the request -----

  /** The coercion a field's type selects; `NoSort` is a date of unknown kind. */
  datatype Sort = MoneySort | DateTimeSort | DateSort | TimeSort | DefaultSort | NoSort

  function SortOf(f: Field): Sort {
    if f.typ.name == "money" then MoneySort
    else if f.typ.name == "datetime" then DateTimeSort
    else if f.typ.name == "date" then
      if f.typ.kind == "date" then DateSort
      else if f.typ.kind == "datetime" then DateTimeSort
      else if f.typ.kind == "time" then TimeSort
      else NoSort
    else DefaultSort
  }

  /** A value, an error that is answered with a 400, or a run-time panic. */
  datatype Result<T> = Ok(value: T) | Refused | Panicked

  /** A backend's coercions of values that are not nil; SQLite's pass them on. */
  datatype Coercions = Coercions(
    datetime: Value -> Result<Value>, date: Value -> Result<Value>, time: Value -> Result<Value>)

  /** Parsing the workflow's date format, then either keeping the time or printing
      it. The value is asserted to be text: anything else panics. */
  function Parsed(parse: string -> Option<int>, show: int -> Value): Value -> Result<Value> {
    (v: Value) => if !v.Str? then Panicked
                  else match parse(v.s) case None => Refused case Some(t) => Ok(show(t))
  }

  function BaseCoercions(parse: string -> Option<int>): Coercions {
    var c := Parsed(parse, t => Time(t));
    Coercions(c, c, c)
  }

  /** Oracle gets text: the moment `t` stands for, formatted with the coercion's layout. */
  function OracleText(moment: int -> OracleDates.Moment, layout: seq<OracleDates.Chunk>): int -> Value {
    t => Str(OracleDates.WriteTokens(OracleDates.LayoutTokens(layout), moment(t)))
  }

  function OracleCoercions(parse: string -> Option<int>, moment: int -> OracleDates.Moment): Coercions {
    Coercions(Parsed(parse, OracleText(moment, OracleDates.DATETIME_LAYOUT)),
              Parsed(parse, OracleText(moment, OracleDates.DATE_LAYOUT)),
              Parsed(parse, OracleText(moment, OracleDates.TIME_LAYOUT)))
  }

  /** The coercion of one value; nil is passed on by every backend. */
  function Coerce(co: Coercions, sort: Sort, v: Value): Result<Value> {
    if v == Nil then Ok(Nil)
    else match sort
      case DateTimeSort => co.datetime(v)
      case DateSort => co.date(v)
      case TimeSort => co.time(v)
      case _ => Ok(v)
  }

  /** A requested date, other than nil, is coerced as its field's type and kind ask for,
      with outcome `r`. */
  ghost predicate Coerced(co: Coercions, f: Field, req: Record, r: Result<Value>) {
    && f.key in req && req[f.key] != Nil
    && var v := req[f.key];
       if f.typ.name == "datetime" || (f.typ.name == "date" && f.typ.kind == "datetime") then r == co.datetime(v)
       else if f.typ.name == "date" && f.typ.kind == "date" then r == co.date(v)
       else f.typ.name == "date" && f.typ.kind == "time" && r == co.time(v)
  }

  /** A column and the value for it that come from the field's own request entry: of
      money the amount or the currency, of a date its coercion, else the value as it is. */
  ghost predicate Explains(co: Coercions, f: Field, req: Record, pair: (string, Value)) {
    if f.typ.name == "money" then
      || (f.typ.amount.key in req && pair == (f.typ.amount.fromColumn, req[f.typ.amount.key]))
      || (f.typ.currency.key in req && pair == (f.typ.currency.fromColumn, req[f.typ.currency.key]))
    else if f.typ.name in {"date", "datetime"} then
      && f.key in req && pair.0 == f.fromColumn
      && if req[f.key] == Nil then pair.1 == Nil else Coerced(co, f, req, Ok(pair.1))
    else
      f.key in req && pair == (f.fromColumn, req[f.key])
  }

  predicate Requested(f: Field, req: Record) {
    if f.typ.name == "money" then f.typ.amount.key in req || f.typ.currency.key in req else f.key in req
  }

  /** Pair `k` comes from field `from[k]`; all requested fields are there, in order. */
  ghost predicate Sources(co: Coercions, fields: seq<Field>, req: Record, pairs: Pairs, from: seq<nat>) {
    && |from| == |pairs|
    && (forall k :: 0 <= k < |from| ==> from[k] < |fields| && Explains(co, fields[from[k]], req, pairs[k]))
    && (forall j, k :: 0 <= j < k < |from| ==> from[j] < from[k])
    && (forall n :: 0 <= n < |fields| && Requested(fields[n], req) ==> n in from)
  }

  /** One pair for each requested field, from its own entry, in field order. */
  ghost predicate Explained(co: Coercions, fields: seq<Field>, req: Record, pairs: Pairs) {
    exists from: seq<nat> :: Sources(co, fields, req, pairs, from)
  }

  type Pairs = seq<(string, Value)>

  /** A column to be written, and the request entry that is meant for it. */
  datatype Entry = Entry(column: string, key: string, sort: Sort)

  function EntriesOf(f: Field, req: Record): seq<Entry> {
    if f.typ.name == "money" then
      (if f.typ.amount.key in req then [Entry(f.typ.amount.fromColumn, f.typ.amount.key, MoneySort)] else [])
      + (if f.typ.currency.key in req then [Entry(f.typ.currency.fromColumn, f.typ.currency.key, MoneySort)] else [])
    else if f.key in req then [Entry(f.fromColumn, f.key, SortOf(f))]
    else []
  }

  function Entries(fields: seq<Field>, req: Record): seq<Entry> {
    if fields == [] then []
    else Entries(fields[..|fields| - 1], req) + EntriesOf(fields[|fields| - 1], req)
  }

  function ColumnsOf(entries: seq<Entry>): (columns: seq<string>)
    ensures |columns| == |entries|
  {
    seq(|entries|, i requires 0 <= i < |entries| => entries[i].column)
  }

  lemma ColumnsOfNext(fields: seq<Field>, i: nat, req: Record)
    requires i < |fields|
    ensures ColumnsOf(Entries(fields[..i + 1], req))
         == ColumnsOf(Entries(fields[..i], req)) + ColumnsOf(EntriesOf(fields[i], req))
  {
    assert fields[..i + 1][..i] == fields[..i];
  }

  /** The column the descriptor declares for a request key (util.go): the first field
      that knows the key. */
  function ColumnOfParameter(fields: seq<Field>, key: string): Option<string> {
    if fields == [] then None
    else
      var f := fields[0];
      if f.typ.name == "money" && f.typ.amount.key == key then Some(f.typ.amount.fromColumn)
      else if f.typ.name == "money" && f.typ.currency.key == key then Some(f.typ.currency.fromColumn)
      else if f.typ.name != "money" && f.key == key then Some(f.fromColumn)
      else ColumnOfParameter(fields[1..], key)
  }

  function RequestKeys(f: Field): seq<string> {
    if f.typ.name == "money" then [f.typ.amount.key, f.typ.currency.key] else [f.key]
  }

  ghost predicate UniqueRequestKeys(fields: seq<Field>) {
    && (forall i, j, k :: 0 <= i < j < |fields| && k in RequestKeys(fields[i]) ==> k !in RequestKeys(fields[j]))
    && (forall i :: 0 <= i < |fields| && fields[i].typ.name == "money" ==>
          fields[i].typ.amount.key != fields[i].typ.currency.key)
  }

  /** With unambiguous keys, a requested value is written to the column that the
      descriptor declares for its key. */
  lemma {:induction false} EntryColumnIsDeclared(fields: seq<Field>, n: nat, req: Record, e: Entry)
    requires UniqueRequestKeys(fields) && n < |fields|
    requires e in EntriesOf(fields[n], req)
    ensures e.key in req && ColumnOfParameter(fields, e.key) == Some(e.column)
  {
    if n > 0 {
      assert fields[1..][n - 1] == fields[n];
      assert e.key in RequestKeys(fields[n]) && e.key !in RequestKeys(fields[0]);
      EntryColumnIsDeclared(fields[1..], n - 1, req, e);
    }
  }

  method AppendColumns(columnNames: seq<string>, f: Field, req: Record) returns (columnNames': seq<string>)
    ensures columnNames' == columnNames + ColumnsOf(EntriesOf(f, req))
  {
    columnNames' := columnNames;
    if f.typ.name == "money" {
      if f.typ.amount.key in req {
        columnNames' := columnNames' + [f.typ.amount.fromColumn];
      }
      if f.typ.currency.key in req {
        columnNames' := columnNames' + [f.typ.currency.fromColumn];
      }
    } else if f.key in req {
      columnNames' := columnNames' + [f.fromColumn];
    }
  }

  method GetColumnNamesFromRequestData(td: TypeDescriptor, req: Record) returns (columnNames: seq<string>)
    ensures columnNames == ColumnsOf(Entries(td.fields, req))
  {
    columnNames := [];
    for i := 0 to |td.fields|
      invariant columnNames == ColumnsOf(Entries(td.fields[..i], req))
    {
      columnNames := AppendColumns(columnNames, td.fields[i], req);
      ColumnsOfNext(td.fields, i, req);
    }
    assert td.fields[..|td.fields|] == td.fields;
  }

  // ----- arguments -----

  /** A field's coercion contributes one argument or none, unless it does not succeed. */
  function CoerceField(co: Coercions, f: Field, req: Record): (r: Result<Option<Value>>)
    ensures r.Refused? <==> f.typ.name in {"date", "datetime"} && Coerced(co, f, req, Refused)
    ensures r.Panicked? <==> f.typ.name in {"date", "datetime"} && Coerced(co, f, req, Panicked)
  {
    match SortOf(f)
    case NoSort => Ok(None)
    case MoneySort =>
      if f.typ.amount.key in req then Ok(Some(req[f.typ.amount.key]))
      else if f.typ.currency.key in req then Ok(Some(req[f.typ.currency.key]))
      else Ok(None)
    case sort =>
      if f.key !in req then Ok(None)
      else
        match Coerce(co, sort, req[f.key])
        case Ok(v) => Ok(Some(v))
        case Refused => Refused
        case Panicked => Panicked
  }

  /** What the next field adds to the arguments so far, if all is well. */
  function Extend(before: Result<seq<Value>>, next: Result<Option<Value>>): Result<seq<Value>> {
    match before
    case Refused => Refused
    case Panicked => Panicked
    case Ok(args) =>
      match next
      case Refused => Refused
      case Panicked => Panicked
      case Ok(None) => before
      case Ok(Some(v)) => Ok(args + [v])
  }

  /** All arguments in field order, up to the first field whose coercion does not succeed. */
  function Args(co: Coercions, fields: seq<Field>, req: Record): Result<seq<Value>> {
    if fields == [] then Ok([])
    else Extend(Args(co, fields[..|fields| - 1], req), CoerceField(co, fields[|fields| - 1], req))
  }

  lemma ArgsNext(co: Coercions, fields: seq<Field>, req: Record, n: nat)
    requires n < |fields|
    ensures Args(co, fields[..n + 1], req) == Extend(Args(co, fields[..n], req), CoerceField(co, fields[n], req))
  {
    assert fields[..n + 1][..n] == fields[..n];
  }

  /** Field `n` is the first one whose coercion does not succeed. */
  ghost predicate StopsAt(co: Coercions, fields: seq<Field>, req: Record, n: nat) {
    && n < |fields| && !CoerceField(co, fields[n], req).Ok?
    && forall m :: 0 <= m < n ==> CoerceField(co, fields[m], req).Ok?
  }

  lemma {:induction false} ArgsStop(co: Coercions, fields: seq<Field>, req: Record, n: nat)
    requires StopsAt(co, fields, req, n)
    ensures Args(co, fields, req).Refused? == CoerceField(co, fields[n], req).Refused?
    ensures Args(co, fields, req).Panicked? == CoerceField(co, fields[n], req).Panicked?
  {
    var last := |fields| - 1;
    if n < last {
      ArgsStop(co, fields[..last], req, n);
    } else {
      ArgsSucceed(co, fields[..last], req);
    }
  }

  lemma {:induction false} ArgsSucceed(co: Coercions, fields: seq<Field>, req: Record)
    requires forall m :: 0 <= m < |fields| ==> CoerceField(co, fields[m], req).Ok?
    ensures Args(co, fields, req).Ok?
  {
    if fields != [] {
      ArgsSucceed(co, fields[..|fields| - 1], req);
    }
  }

  lemma {:induction false} FirstStop(co: Coercions, fields: seq<Field>, req: Record) returns (n: nat)
    requires !Args(co, fields, req).Ok?
    ensures StopsAt(co, fields, req, n)
  {
    n := 0;
    while n < |fields| && CoerceField(co, fields[n], req).Ok?
      invariant n <= |fields|
      invariant forall m :: 0 <= m < n ==> CoerceField(co, fields[m], req).Ok?
    {
      n := n + 1;
    }
    if n == |fields| {
      ArgsSucceed(co, fields, req);
      assert false;
    }
  }

  /** The first coercion that does not succeed decides how the whole request ends. */
  lemma ArgsExactly(co: Coercions, fields: seq<Field>, req: Record)
    ensures Args(co, fields, req).Refused? <==>
              exists n: nat :: StopsAt(co, fields, req, n) && CoerceField(co, fields[n], req).Refused?
    ensures Args(co, fields, req).Panicked? <==>
              exists n: nat :: StopsAt(co, fields, req, n) && CoerceField(co, fields[n], req).Panicked?
  {
    if n: nat :| StopsAt(co, fields, req, n) {
      ArgsStop(co, fields, req, n);
      forall m: nat | StopsAt(co, fields, req, m) ensures m == n {
      }
    } else if !Args(co, fields, req).Ok? {
      var n := FirstStop(co, fields, req);
    }
  }

  // ----- which requests end how -----

  ghost predicate ParsesText(coerce: Value -> Result<Value>, parse: string -> Option<int>) {
    forall v: Value ::
      && (coerce(v).Panicked? <==> !v.Str?)
      && (coerce(v).Refused? <==> v.Str? && parse(v.s).None?)
  }

  /** Coercions that parse text, as all do but SQLite's. */
  ghost predicate Parses(co: Coercions, parse: string -> Option<int>) {
    ParsesText(co.datetime, parse) && ParsesText(co.date, parse) && ParsesText(co.time, parse)
  }

  lemma ParsersParse(parse: string -> Option<int>, moment: int -> OracleDates.Moment)
    ensures Parses(BaseCoercions(parse), parse) && Parses(OracleCoercions(parse, moment), parse)
  {
  }

  /** A date is requested, with a value other than nil. */
  predicate RequestsDate(f: Field, req: Record) {
    SortOf(f) in {DateTimeSort, DateSort, TimeSort} && f.key in req && req[f.key] != Nil
  }

  /** .. that is no text .. */
  predicate IllTyped(f: Field, req: Record) {
    RequestsDate(f, req) && !req[f.key].Str?
  }

  /** .. or is not in the workflow's format. */
  predicate IllFormed(parse: string -> Option<int>, f: Field, req: Record) {
    RequestsDate(f, req) && req[f.key].Str? && parse(req[f.key].s).None?
  }

  lemma FieldEnds(co: Coercions, parse: string -> Option<int>, f: Field, req: Record)
    requires Parses(co, parse)
    ensures CoerceField(co, f, req).Panicked? <==> IllTyped(f, req)
    ensures CoerceField(co, f, req).Refused? <==> IllFormed(parse, f, req)
  {
  }

  /** Field `n` is the first one with an ill-typed or ill-formed date. */
  ghost predicate FirstBadDate(parse: string -> Option<int>, fields: seq<Field>, req: Record, n: nat) {
    && n < |fields| && (IllTyped(fields[n], req) || IllFormed(parse, fields[n], req))
    && forall m :: 0 <= m < n ==> !IllTyped(fields[m], req) && !IllFormed(parse, fields[m], req)
  }

  /** Where dates are parsed, a request panics exactly when its first bad date is no
      text, and is refused exactly when that is text in another format. */
  lemma RequestEnds(co: Coercions, parse: string -> Option<int>, fields: seq<Field>, req: Record)
    requires Parses(co, parse)
    ensures Args(co, fields, req).Panicked? <==>
              exists n: nat :: FirstBadDate(parse, fields, req, n) && IllTyped(fields[n], req)
    ensures Args(co, fields, req).Refused? <==>
              exists n: nat :: FirstBadDate(parse, fields, req, n) && IllFormed(parse, fields[n], req)
  {
    ArgsExactly(co, fields, req);
    forall i | 0 <= i < |fields|
      ensures CoerceField(co, fields[i], req).Panicked? <==> IllTyped(fields[i], req)
      ensures CoerceField(co, fields[i], req).Refused? <==> IllFormed(parse, fields[i], req)
    {
      FieldEnds(co, parse, fields[i], req);
    }
    forall n: nat ensures FirstBadDate(parse, fields, req, n) <==> StopsAt(co, fields, req, n) {
    }
  }

  method CoerceRequestDataToGolangNativeTypes(td: TypeDescriptor, req: Record, co: Coercions)
    returns (args: Result<seq<Value>>)
    ensures args == Args(co, td.fields, req)
  {
    var acc: seq<Value> := [];
    for i := 0 to |td.fields|
      invariant Args(co, td.fields[..i], req) == Ok(acc)
      invariant forall m :: 0 <= m < i ==> CoerceField(co, td.fields[m], req).Ok?
    {
      ArgsNext(co, td.fields, req, i);
      var result := CoerceField(co, td.fields[i], req);
      if !result.Ok? {
        ArgsStop(co, td.fields, req, i);
        return if result.Refused? then Refused else Panicked;
      }
      if result.value.Some? {
        acc := acc + [result.value.value];
      }
    }
    assert td.fields[..|td.fields|] == td.fields;
    return Ok(acc);
  }

  // ----- do columns and arguments line up? -----

  /** Columns of a field beyond the arguments it contributes: both keys of a money
      field, or a requested date of unknown kind. */
  function ExcessOf(f: Field, req: Record): nat {
    if f.typ.name == "money" then
      if f.typ.amount.key in req && f.typ.currency.key in req then 1 else 0
    else if SortOf(f).NoSort? && f.key in req then 1
    else 0
  }

  function Excess(fields: seq<Field>, req: Record): nat {
    if fields == [] then 0
    else Excess(fields[..|fields| - 1], req) + ExcessOf(fields[|fields| - 1], req)
  }

  /** There are exactly `Excess` more columns than arguments. */
  lemma {:induction false} ExcessColumns(co: Coercions, fields: seq<Field>, req: Record)
    requires Args(co, fields, req).Ok?
    ensures |Entries(fields, req)| == |Args(co, fields, req).value| + Excess(fields, req)
  {
    if fields != [] {
      var n := |fields| - 1;
      ExcessColumns(co, fields[..n], req);
      ExcessOfField(co, fields[n], req);
    }
  }

  lemma ExcessOfField(co: Coercions, f: Field, req: Record)
    requires CoerceField(co, f, req).Ok?
    ensures |EntriesOf(f, req)| == (if CoerceField(co, f, req).value.Some? then 1 else 0) + ExcessOf(f, req)
  {
  }

  predicate UnknownDate(f: Field) {
    f.typ.name == "date" && f.typ.kind !in {"date", "datetime", "time"}
  }

  /** Columns and arguments line up: of a money field one key is requested at most, and
      no date of unknown kind. */
  ghost predicate LinesUp(fields: seq<Field>, req: Record) {
    forall f :: f in fields ==>
      && (f.typ.name == "money" ==> f.typ.amount.key !in req || f.typ.currency.key !in req)
      && (UnknownDate(f) ==> f.key !in req)
  }

  lemma {:induction false} ExcessLinesUp(fields: seq<Field>, req: Record)
    ensures Excess(fields, req) == 0 <==> LinesUp(fields, req)
  {
    if fields != [] {
      var n := |fields| - 1;
      ExcessLinesUp(fields[..n], req);
      assert LinesUp([fields[n]], req) <==> ExcessOf(fields[n], req) == 0 by { assert fields[n] in [fields[n]]; }
      assert forall f :: f in fields <==> f in fields[..n] || f == fields[n] by { Rejoined(fields, n); }
    }
  }

  function PairUp(columns: seq<string>, args: seq<Value>): (pairs: Pairs)
    requires |columns| == |args|
    ensures |pairs| == |columns|
  {
    seq(|columns|, i requires 0 <= i < |columns| => (columns[i], args[i]))
  }

  lemma FieldLinesUp(co: Coercions, f: Field, req: Record)
    requires ExcessOf(f, req) == 0 && CoerceField(co, f, req).Ok?
    ensures var es, o := EntriesOf(f, req), CoerceField(co, f, req).value;
            && (o.None? ==> es == [] && !Requested(f, req))
            && (o.Some? ==> |es| == 1 && Requested(f, req) && Explains(co, f, req, (es[0].column, o.value)))
  {
  }

  /** If columns and arguments line up, every column is paired with the value from its
      own request entry. */
  lemma {:induction false} ArgumentsAreOwn(co: Coercions, fields: seq<Field>, req: Record)
    requires Args(co, fields, req).Ok? && LinesUp(fields, req)
    ensures |Entries(fields, req)| == |Args(co, fields, req).value|
    ensures Explained(co, fields, req, PairUp(ColumnsOf(Entries(fields, req)), Args(co, fields, req).value))
  {
    ExcessLinesUp(fields, req);
    ExcessColumns(co, fields, req);
    var from := SourcesOf(co, fields, req);
  }

  lemma {:induction false} SourcesOf(co: Coercions, fields: seq<Field>, req: Record) returns (from: seq<nat>)
    requires Args(co, fields, req).Ok? && Excess(fields, req) == 0
    requires |Entries(fields, req)| == |Args(co, fields, req).value|
    ensures Sources(co, fields, req, PairUp(ColumnsOf(Entries(fields, req)), Args(co, fields, req).value), from)
  {
    from := [];
    if fields != [] {
      var n := |fields| - 1;
      var init := fields[..n];
      ExcessColumns(co, init, req);
      FieldLinesUp(co, fields[n], req);
      from := SourcesOf(co, init, req);
      var pairs := PairUp(ColumnsOf(Entries(init, req)), Args(co, init, req).value);
      PairUpNext(co, fields, req, n);
      if Requested(fields[n], req) {
        var pair := (EntriesOf(fields[n], req)[0].column, CoerceField(co, fields[n], req).value.value);
        SourcesNext(co, fields, req, n, pairs, from, pair);
        from := from + [n];
      } else {
        SourcesSkip(co, fields, req, n, pairs, from);
      }
    }
  }

  lemma PairUpNext(co: Coercions, fields: seq<Field>, req: Record, n: nat)
    requires |fields| == n + 1 && Args(co, fields, req).Ok? && ExcessOf(fields[n], req) == 0
    requires Args(co, fields[..n], req).Ok? && |Entries(fields[..n], req)| == |Args(co, fields[..n], req).value|
    requires |Entries(fields, req)| == |Args(co, fields, req).value|
    ensures CoerceField(co, fields[n], req).Ok?
    ensures var init, o := fields[..n], CoerceField(co, fields[n], req).value;
            PairUp(ColumnsOf(Entries(fields, req)), Args(co, fields, req).value)
            == PairUp(ColumnsOf(Entries(init, req)), Args(co, init, req).value)
               + if o.None? then [] else [(EntriesOf(fields[n], req)[0].column, o.value)]
  {
    FieldLinesUp(co, fields[n], req);
  }

  lemma SourcesSkip(co: Coercions, fields: seq<Field>, req: Record, n: nat, pairs: Pairs, from: seq<nat>)
    requires |fields| == n + 1 && Sources(co, fields[..n], req, pairs, from) && !Requested(fields[n], req)
    ensures Sources(co, fields, req, pairs, from)
  {
  }

  lemma SourcesNext(
    co: Coercions, fields: seq<Field>, req: Record, n: nat, pairs: Pairs, from: seq<nat>, pair: (string, Value))
    requires |fields| == n + 1 && Sources(co, fields[..n], req, pairs, from) && Explains(co, fields[n], req, pair)
    ensures Sources(co, fields, req, pairs + [pair], from + [n])
  {
    var from' := from + [n];
    forall i | 0 <= i < |fields| && Requested(fields[i], req) ensures i in from' {
      if i < n {
        assert fields[..n][i] == fields[i];
        assert i in from;
      } else {
        assert from'[|from|] == n;
      }
    }
  }

  // ----- statements -----

  datatype Wrapper = Bare | ToTimestampTz | ToDate | ToTime

  datatype Placeholder = Question | Number(n: nat)

  /** A column and what the statement puts in its place. */
  datatype Slot = Slot(column: string, placeholder: Placeholder, wrapper: Wrapper)

  /** `?` (MySQL, SQLite); `$n`, `@pn` (PostgreSQL, SQL Server); `:n` with format functions (Oracle). */
  datatype Dialect = Positional | Numbered | Oracle

  /** Template helpers. */
  function Add2(x: int): int { x + 2 }

  function LenPlus1(columns: seq<string>): int { |columns| + 1 }

  /** Oracle's `format`: the wrapper of the first field that reads the column. */
  function FormatWrapper(fields: seq<Field>, column: string): Wrapper {
    if fields == [] then Bare
    else
      var f, rest := fields[0], FormatWrapper(fields[1..], column);
      if f.typ.name == "money" then
        if f.typ.amount.fromColumn == column || f.typ.currency.fromColumn == column then Bare else rest
      else if f.typ.name == "date" && f.fromColumn == column then
        if f.typ.kind == "datetime" then ToTimestampTz
        else if f.typ.kind == "date" then ToDate
        else if f.typ.kind == "time" then ToTime
        else rest
      else if f.typ.name != "date" && f.fromColumn == column then Bare
      else rest
  }

  function SlotAt(d: Dialect, fields: seq<Field>, n: nat, column: string): Slot {
    match d
    case Positional => Slot(column, Question, Bare)
    case Numbered => Slot(column, Number(n), Bare)
    case Oracle => Slot(column, Number(n), FormatWrapper(fields, column))
  }

  /** The column list of UPDATE and INSERT, and the filters of GetCollection: the
      head has placeholder 1, and element `i` of the tail `add2 i`. */
  function ColumnSlots(d: Dialect, fields: seq<Field>, columns: seq<string>): (slots: seq<Slot>)
    requires columns != []
    ensures |slots| == |columns|
  {
    [SlotAt(d, fields, 1, columns[0])]
    + seq(|columns| - 1, i requires 0 <= i < |columns| - 1 => SlotAt(d, fields, Add2(i), columns[1..][i]))
  }

  function UpdateSlots(d: Dialect, fields: seq<Field>, columns: seq<string>, uniqueIdColumn: string): seq<Slot>
    requires columns != []
  {
    ColumnSlots(d, fields, columns)
    + [Slot(uniqueIdColumn, if d.Positional? then Question else Number(LenPlus1(columns)), Bare)]
  }

  /** The filters of GetCollection. Oracle's template numbers the first one itself and
      calls `format` for the others, which numbers a column that no field reads. */
  function FilterSlots(d: Dialect, fields: seq<Field>, columns: seq<string>): seq<Slot>
    requires columns != []
  {
    ColumnSlots(if d.Oracle? then Numbered else d, fields, columns)
  }

  /** `format` finds a field that reads the column, and a format function for it: there
      is none for these two routes, so calling it fails. */
  predicate CallsFormat(fields: seq<Field>, column: string) {
    && fields != []
    && var f := fields[0];
       || (f.typ.name == "money" && column in {f.typ.amount.fromColumn, f.typ.currency.fromColumn})
       || (f.typ.name == "date" && f.typ.kind in {"datetime", "date", "time"} && f.fromColumn == column)
       || (f.typ.name != "money" && f.typ.name != "date" && f.fromColumn == column)
       || CallsFormat(fields[1..], column)
  }

  predicate FormatMissing(d: Dialect, fields: seq<Field>, columns: seq<string>) {
    d.Oracle? && exists c | c in columns :: CallsFormat(fields, c)
  }

  /** A requested column calls `format`, unless it is a date of unknown kind. */
  lemma {:induction false} EntryCallsFormat(fields: seq<Field>, n: nat, req: Record, e: Entry)
    requires n < |fields| && e in EntriesOf(fields[n], req) && !e.sort.NoSort?
    ensures CallsFormat(fields, e.column)
  {
    if n > 0 {
      assert fields[n] == fields[1..][n - 1];
      EntryCallsFormat(fields[1..], n - 1, req, e);
    }
  }

  /** On Oracle a collection can be filtered by one column and options by none, if
      columns and arguments line up: with any more the template fails. */
  lemma OracleFilters(fields: seq<Field>, req: Record)
    requires LinesUp(fields, req)
    ensures var columns := ColumnsOf(Entries(fields, req));
            && (FormatMissing(Oracle, fields, columns) <==> |columns| > 0)
            && (|columns| > 0 ==> (FormatMissing(Oracle, fields, columns[1..]) <==> |columns| > 1))
  {
    var entries, columns := Entries(fields, req), ColumnsOf(Entries(fields, req));
    if |columns| > 0 {
      FormatFails(fields, req, entries[0]);
      assert columns[0] in columns;
    }
    if |columns| > 1 {
      FormatFails(fields, req, entries[1]);
      assert columns[1..][0] in columns[1..];
    }
  }

  /** With distinct columns, options fail on Oracle exactly when anything is requested
      but dates of unknown kind. */
  lemma OracleOptions(fields: seq<Field>, req: Record)
    requires UniqueColumns(fields) && forall e :: e in Entries(fields, req) ==> e.column != ""
    ensures FormatMissing(Oracle, fields, ColumnsOf(Entries(fields, req)))
       <==> exists f :: f in fields && Requested(f, req) && !UnknownDate(f)
  {
    var columns := ColumnsOf(Entries(fields, req));
    if FormatMissing(Oracle, fields, columns) {
      var c :| c in columns && CallsFormat(fields, c);
      RequestedFormat(fields, req, c);
    }
    if f :| f in fields && Requested(f, req) && !UnknownDate(f) {
      FormatRequested(fields, req, f);
    }
  }

  lemma RequestedFormat(fields: seq<Field>, req: Record, c: string)
    requires UniqueColumns(fields) && forall e :: e in Entries(fields, req) ==> e.column != ""
    requires c in ColumnsOf(Entries(fields, req)) && CallsFormat(fields, c)
    ensures exists f :: f in fields && Requested(f, req) && !UnknownDate(f)
  {
    var e :| e in Entries(fields, req) && e.column == c;
    var n := EntryHasField(fields, req, e);
    var m := FormattingField(fields, c);
    EntrySource(fields[n], req, e);
    assert m == n;
    NoFieldEntries(fields[n], req);
    assert fields[n] in fields;
  }

  lemma FormatRequested(fields: seq<Field>, req: Record, f: Field)
    requires f in fields && Requested(f, req) && !UnknownDate(f)
    ensures FormatMissing(Oracle, fields, ColumnsOf(Entries(fields, req)))
  {
    var entries, columns := Entries(fields, req), ColumnsOf(Entries(fields, req));
    var n :| 0 <= n < |fields| && fields[n] == f;
    NoFieldEntries(f, req);
    var e := EntriesOf(f, req)[0];
    EntryIsThere(fields, n, req, e);
    EntryCallsFormat(fields, n, req, e);
    var k :| 0 <= k < |entries| && entries[k] == e;
    assert columns[k] in columns;
  }

  lemma {:induction false} FormattingField(fields: seq<Field>, column: string) returns (n: nat)
    requires CallsFormat(fields, column)
    ensures n < |fields| && column in SourceColumns(fields[n]) && !UnknownDate(fields[n])
  {
    if column in SourceColumns(fields[0]) && !UnknownDate(fields[0]) {
      n := 0;
    } else {
      n := FormattingField(fields[1..], column);
      n := n + 1;
    }
  }

  lemma {:induction false} EntryIsThere(fields: seq<Field>, n: nat, req: Record, e: Entry)
    requires n < |fields| && e in EntriesOf(fields[n], req)
    ensures e in Entries(fields, req)
  {
    if n < |fields| - 1 {
      EntryIsThere(fields[..|fields| - 1], n, req, e);
    }
  }

  lemma FormatFails(fields: seq<Field>, req: Record, e: Entry)
    requires LinesUp(fields, req) && e in Entries(fields, req)
    ensures CallsFormat(fields, e.column)
  {
    var n := EntryHasField(fields, req, e);
    LinedUpSort(fields, n, req, e);
    EntryCallsFormat(fields, n, req, e);
  }

  lemma LinedUpSort(fields: seq<Field>, n: nat, req: Record, e: Entry)
    requires LinesUp(fields, req) && n < |fields| && e in EntriesOf(fields[n], req)
    ensures !e.sort.NoSort?
  {
    assert fields[n] in fields;
  }

  function OptionsSlots(d: Dialect, columnAsOptionName: string, columns: seq<string>): (slots: seq<Slot>)
    ensures |slots| == |columns| + 1
  {
    [Slot(columnAsOptionName, if d.Positional? then Question else Number(1), Bare)]
    + seq(|columns|, i requires 0 <= i < |columns| =>
        Slot(columns[i], if d.Positional? then Question else Number(Add2(i)), Bare))
  }

  // ----- binding -----

  function Questions(slots: seq<Slot>): nat {
    if slots == [] then 0
    else Questions(slots[..|slots| - 1]) + if slots[|slots| - 1].placeholder.Question? then 1 else 0
  }

  /** The argument (from 0) that slot `k` takes: by number, or by its turn. */
  function ArgIndex(slots: seq<Slot>, k: nat): int
    requires k < |slots|
  {
    match slots[k].placeholder
    case Question => Questions(slots[..k])
    case Number(n) => n - 1
  }

  /** How many arguments the statement needs. */
  function Needed(slots: seq<Slot>): int {
    if slots == [] then 0
    else
      var before, last := Needed(slots[..|slots| - 1]), ArgIndex(slots, |slots| - 1) + 1;
      if last > before then last else before
  }

  /** A placeholder in the style of the dialect. */
  predicate Understands(d: Dialect, p: Placeholder) { p.Question? == d.Positional? }

  /** The (column, value) pairs a statement writes or compares; a statement is
      refused for a placeholder of another dialect, and when the number of arguments
      differs from what it needs. */
  function Bind(d: Dialect, slots: seq<Slot>, args: seq<Value>): Option<Pairs> {
    if exists s | s in slots :: !Understands(d, s.placeholder) then None
    else if |args| != Needed(slots) then None
    else Some(seq(|slots|, k requires 0 <= k < |slots| =>
      (slots[k].column, if 0 <= ArgIndex(slots, k) < |args| then args[ArgIndex(slots, k)] else Nil)))
  }

  /** Every placeholder is the dialect's own for its place. */
  ghost predicate Styled(d: Dialect, slots: seq<Slot>) {
    forall k :: 0 <= k < |slots| ==> slots[k].placeholder == if d.Positional? then Question else Number(k + 1)
  }

  /** Placeholders 1..n in order, each once. */
  ghost predicate InOrder(slots: seq<Slot>) {
    forall k :: 0 <= k < |slots| ==> ArgIndex(slots, k) == k
  }

  lemma {:induction false} QuestionsCount(slots: seq<Slot>)
    requires forall k :: 0 <= k < |slots| ==> slots[k].placeholder.Question?
    ensures Questions(slots) == |slots|
  {
    if slots != [] {
      QuestionsCount(slots[..|slots| - 1]);
    }
  }

  lemma StyledInOrder(d: Dialect, slots: seq<Slot>)
    requires Styled(d, slots)
    ensures InOrder(slots)
  {
    forall k | 0 <= k < |slots| ensures ArgIndex(slots, k) == k {
      if slots[k].placeholder.Question? {
        QuestionsCount(slots[..k]);
      }
    }
  }

  lemma {:induction false} NeededInOrder(slots: seq<Slot>)
    requires InOrder(slots)
    ensures Needed(slots) == |slots|
  {
    if slots != [] {
      var n := |slots| - 1;
      forall k | 0 <= k < n ensures ArgIndex(slots[..n], k) == k {
        assert slots[..n][..k] == slots[..k];
        assert ArgIndex(slots, k) == k;
      }
      NeededInOrder(slots[..n]);
      assert ArgIndex(slots, n) == n;
    }
  }

  lemma BindInOrder(d: Dialect, slots: seq<Slot>, args: seq<Value>)
    requires Styled(d, slots)
    ensures Bind(d, slots, args).Some? <==> |args| == |slots|
    ensures Bind(d, slots, args).Some? ==>
              && |Bind(d, slots, args).value| == |slots|
              && forall k :: 0 <= k < |slots| ==> Bind(d, slots, args).value[k] == (slots[k].column, args[k])
  {
    StyledInOrder(d, slots);
    NeededInOrder(slots);
    if |args| == |slots| {
      forall k | 0 <= k < |slots| ensures Bind(d, slots, args).value[k] == (slots[k].column, args[k]) {
        assert ArgIndex(slots, k) == k;
      }
    }
  }

  /** The columns of the slots, and the arguments, of pairs fixed by a handler. */
  function Firsts(pairs: Pairs): (r: seq<string>) ensures |r| == |pairs| {
    seq(|pairs|, i requires 0 <= i < |pairs| => pairs[i].0)
  }

  function Seconds(pairs: Pairs): (r: seq<Value>) ensures |r| == |pairs| {
    seq(|pairs|, i requires 0 <= i < |pairs| => pairs[i].1)
  }

  function SlotColumns(slots: seq<Slot>): (r: seq<string>) ensures |r| == |slots| {
    seq(|slots|, i requires 0 <= i < |slots| => slots[i].column)
  }

  /** The requested columns, each with the value from its own request entry. */
  ghost function OwnPairs(co: Coercions, fields: seq<Field>, req: Record): (pairs: Pairs)
    requires Args(co, fields, req).Ok? && LinesUp(fields, req)
    ensures Explained(co, fields, req, pairs)
    ensures Firsts(pairs) == ColumnsOf(Entries(fields, req)) && Seconds(pairs) == Args(co, fields, req).value
  {
    ArgumentsAreOwn(co, fields, req);
    PairUp(ColumnsOf(Entries(fields, req)), Args(co, fields, req).value)
  }

  /** The statement does what the request asks for: between the pairs that come first
      and last, one pair for each requested field, from its own entry. When columns and
      arguments do not line up, the database refuses it. */
  ghost predicate Binds(
    d: Dialect, co: Coercions, fields: seq<Field>, req: Record, slots: seq<Slot>, args: seq<Value>,
    first: Pairs, last: Pairs)
  {
    var bound := Bind(d, slots, args);
    && (bound.Some? <==> LinesUp(fields, req))
    && (bound.Some? ==>
          exists own: Pairs :: Explained(co, fields, req, own) && bound.value == first + own + last)
  }

  /** So it does with styled slots over the request's columns, between pairs fixed by
      the handler. */
  lemma BindOwn(
    d: Dialect, co: Coercions, fields: seq<Field>, req: Record, slots: seq<Slot>, args: seq<Value>,
    first: Pairs, last: Pairs)
    requires Args(co, fields, req).Ok? && Styled(d, slots)
    requires SlotColumns(slots) == Firsts(first) + ColumnsOf(Entries(fields, req)) + Firsts(last)
    requires args == Seconds(first) + Args(co, fields, req).value + Seconds(last)
    ensures Binds(d, co, fields, req, slots, args, first, last)
  {
    ExcessColumns(co, fields, req);
    ExcessLinesUp(fields, req);
    BindInOrder(d, slots, args);
    assert |slots| == |SlotColumns(slots)|;
    if LinesUp(fields, req) {
      var own := OwnPairs(co, fields, req);
      PairsConcat(first, own, last);
      BindPairs(d, slots, args, first + own + last);
    }
  }

  lemma PairsConcat(a: Pairs, b: Pairs, c: Pairs)
    ensures Firsts(a + b + c) == Firsts(a) + Firsts(b) + Firsts(c)
    ensures Seconds(a + b + c) == Seconds(a) + Seconds(b) + Seconds(c)
  {
  }

  lemma BindPairs(d: Dialect, slots: seq<Slot>, args: seq<Value>, goal: Pairs)
    requires Styled(d, slots) && SlotColumns(slots) == Firsts(goal) && args == Seconds(goal)
    ensures Bind(d, slots, args) == Some(goal)
  {
    assert |slots| == |SlotColumns(slots)|;
    BindInOrder(d, slots, args);
    var bound := Bind(d, slots, args).value;
    forall k | 0 <= k < |slots| ensures bound[k] == goal[k] {
      assert SlotColumns(slots)[k] == Firsts(goal)[k] && args[k] == Seconds(goal)[k];
    }
    assert bound == goal;
  }

  // ----- Oracle's wrappers -----

  /** The wrapper that fits what a coercion produces. */
  function WrapperFor(sort: Sort): Wrapper {
    match sort
    case DateTimeSort => ToTimestampTz
    case DateSort => ToDate
    case TimeSort => ToTime
    case _ => Bare
  }

  function SourceColumns(f: Field): set<string> {
    if f.typ.name == "money" then {f.typ.amount.fromColumn, f.typ.currency.fromColumn} else {f.fromColumn}
  }

  ghost predicate UniqueColumns(fields: seq<Field>) {
    forall i, j, c ::
      0 <= i < j < |fields| && c in SourceColumns(fields[i]) && c in SourceColumns(fields[j]) ==> c == ""
  }

  /** The wrapper Oracle puts around a column fits its coercion, if and only if its
      field is not of the type named `datetime`, which the coercions know but the
      format functions do not. */
  lemma {:induction false} WrapperFitsCoercion(fields: seq<Field>, n: nat, req: Record, e: Entry)
    requires UniqueColumns(fields) && n < |fields|
    requires e in EntriesOf(fields[n], req) && e.column != ""
    ensures FormatWrapper(fields, e.column) == WrapperFor(e.sort) <==> fields[n].typ.name != "datetime"
  {
    if n > 0 {
      assert fields[n] == fields[1..][n - 1];
      WrapperFitsCoercion(fields[1..], n - 1, req, e);
      EntrySource(fields[n], req, e);
      OtherHead(fields, e.column);
    } else {
      OwnHead(fields, req, e);
    }
  }

  lemma EntrySource(f: Field, req: Record, e: Entry)
    requires e in EntriesOf(f, req)
    ensures e.column in SourceColumns(f)
  {
  }

  lemma OtherHead(fields: seq<Field>, column: string)
    requires fields != [] && column !in SourceColumns(fields[0])
    ensures FormatWrapper(fields, column) == FormatWrapper(fields[1..], column)
  {
  }

  lemma OwnHead(fields: seq<Field>, req: Record, e: Entry)
    requires UniqueColumns(fields) && fields != []
    requires e in EntriesOf(fields[0], req) && e.column != ""
    ensures FormatWrapper(fields, e.column) == WrapperFor(e.sort) <==> fields[0].typ.name != "datetime"
  {
    EntrySource(fields[0], req, e);
    NoOtherWrapper(fields[1..], e.column);
  }

  /** What Oracle makes of a text in a wrapper. */
  function OracleReads(w: Wrapper, s: string): Option<map<OracleDates.Element, nat>>
    requires w != Bare
  {
    match w
    case ToTimestampTz => OracleDates.Converted(OracleDates.TO_TIMESTAMP_TZ, OracleDates.DATETIME_MASK, s)
    case ToDate => OracleDates.Converted(OracleDates.TO_DATE, OracleDates.DATE_MASK, s)
    case ToTime => OracleDates.Converted(OracleDates.TO_DATE, OracleDates.TIME_MASK, s)
  }

  /** What is left of a moment: all of it, or its day at midnight UTC. */
  function Kept(whole: bool, m: OracleDates.Moment, e: OracleDates.Element): nat {
    if whole || e in {OracleDates.Year, OracleDates.Month, OracleDates.Day} then m(e) else 0
  }

  /** Oracle has read every element of the moment that is kept. */
  ghost predicate ReadAs(read: Option<map<OracleDates.Element, nat>>, whole: bool, m: OracleDates.Moment) {
    read.Some? && forall e: OracleDates.Element :: e in read.value && read.value[e] == Kept(whole, m, e)
  }

  /** On Oracle the text bound to a column of a date is read back by the wrapper around
      its placeholder, unless it is a time of day: that is always an error. */
  lemma OracleReadsWhatIsBound(
    fields: seq<Field>, n: nat, req: Record, pair: (string, Value), parse: string -> Option<int>,
    moment: int -> OracleDates.Moment)
    requires UniqueColumns(fields) && n < |fields| && fields[n].typ.name == "date"
    requires fields[n].typ.kind in {"date", "datetime", "time"}
    requires Explains(OracleCoercions(parse, moment), fields[n], req, pair) && pair.0 != ""
    requires req[fields[n].key].Str? && parse(req[fields[n].key].s).Some?
    requires OracleDates.Fits(moment(parse(req[fields[n].key].s).value))
    ensures FormatWrapper(fields, pair.0) != Bare && pair.1.Str?
    ensures var read := OracleReads(FormatWrapper(fields, pair.0), pair.1.s);
            if fields[n].typ.kind == "time" then read == None
            else ReadAs(read, fields[n].typ.kind == "datetime", moment(parse(req[fields[n].key].s).value))
  {
    var f := fields[n];
    var sort := DateWrapped(fields, n, req);
    DateText(f, req, pair, parse, moment);
    TextRead(sort, moment(parse(req[f.key].s).value));
  }

  lemma DateWrapped(fields: seq<Field>, n: nat, req: Record) returns (sort: Sort)
    requires UniqueColumns(fields) && n < |fields| && fields[n].typ.name == "date"
    requires fields[n].typ.kind in {"date", "datetime", "time"} && fields[n].key in req && fields[n].fromColumn != ""
    ensures sort == SortOf(fields[n]) && FormatWrapper(fields, fields[n].fromColumn) == WrapperFor(sort) != Bare
    ensures sort.TimeSort? == (fields[n].typ.kind == "time") && sort.DateTimeSort? == (fields[n].typ.kind == "datetime")
  {
    var f := fields[n];
    sort := SortOf(f);
    var e := Entry(f.fromColumn, f.key, sort);
    assert EntriesOf(f, req) == [e];
    WrapperFitsCoercion(fields, n, req, e);
  }

  function LayoutFor(sort: Sort): seq<OracleDates.Chunk> {
    match sort
    case DateTimeSort => OracleDates.DATETIME_LAYOUT
    case TimeSort => OracleDates.TIME_LAYOUT
    case _ => OracleDates.DATE_LAYOUT
  }

  lemma DateText(
    f: Field, req: Record, pair: (string, Value), parse: string -> Option<int>, moment: int -> OracleDates.Moment)
    requires f.typ.name == "date" && f.typ.kind in {"date", "datetime", "time"}
    requires Explains(OracleCoercions(parse, moment), f, req, pair)
    requires req[f.key].Str? && parse(req[f.key].s).Some?
    ensures pair.0 == f.fromColumn
    ensures pair.1 == Str(OracleDates.WriteTokens(OracleDates.LayoutTokens(LayoutFor(SortOf(f))),
                                                  moment(parse(req[f.key].s).value)))
  {
    if f.typ.kind == "datetime" {
      assert SortOf(f).DateTimeSort?;
    } else if f.typ.kind == "date" {
      assert SortOf(f).DateSort?;
    } else {
      assert SortOf(f).TimeSort?;
    }
  }

  lemma TextRead(sort: Sort, m: OracleDates.Moment)
    requires WrapperFor(sort) != Bare && OracleDates.Fits(m)
    ensures var text := OracleDates.WriteTokens(OracleDates.LayoutTokens(LayoutFor(sort)), m);
            var read := OracleReads(WrapperFor(sort), text);
            if sort.TimeSort? then read == None else ReadAs(read, sort.DateTimeSort?, m)
  {
    OracleDates.TimeMaskRefused();
    match sort
    case DateTimeSort =>
      OracleDates.DatetimesAgree();
      OracleDates.ConvertsBack(OracleDates.TO_TIMESTAMP_TZ, OracleDates.DATETIME_LAYOUT, OracleDates.DATETIME_MASK, m);
      forall e: OracleDates.Element { OracleDates.DatetimeLearned(m, e); }
    case DateSort =>
      OracleDates.DatesAgree();
      OracleDates.ConvertsBack(OracleDates.TO_DATE, OracleDates.DATE_LAYOUT, OracleDates.DATE_MASK, m);
      forall e: OracleDates.Element { OracleDates.DateLearned(m, e); }
    case TimeSort =>
  }

  /** Elsewhere what is bound is the moment that is parsed. */
  lemma BaseBindsMoment(f: Field, req: Record, pair: (string, Value), parse: string -> Option<int>)
    requires f.typ.name == "datetime" || (f.typ.name == "date" && f.typ.kind in {"date", "datetime", "time"})
    requires Explains(BaseCoercions(parse), f, req, pair) && req[f.key] != Nil
    ensures req[f.key].Str? && parse(req[f.key].s).Some?
    ensures pair == (f.fromColumn, Time(parse(req[f.key].s).value))
  {
  }

  lemma {:induction false} NoOtherWrapper(fields: seq<Field>, column: string)
    requires forall f :: f in fields ==> column !in SourceColumns(f)
    ensures FormatWrapper(fields, column) == Bare
  {
    if fields != [] {
      NoOtherWrapper(fields[1..], column);
      assert fields[0] in fields;
    }
  }

  /** Every requested column belongs to a field of the descriptor. */
  lemma {:induction false} EntryHasField(fields: seq<Field>, req: Record, e: Entry) returns (n: nat)
    requires e in Entries(fields, req)
    ensures n < |fields| && e in EntriesOf(fields[n], req)
  {
    n := |fields| - 1;
    if e !in EntriesOf(fields[n], req) {
      var m := EntryHasField(fields[..n], req, e);
      n := m;
    }
  }

  /** Distinct, non-empty source columns, and no field of the type named `datetime`. */
  ghost predicate OracleReady(fields: seq<Field>, req: Record) {
    && UniqueColumns(fields)
    && (forall e :: e in Entries(fields, req) ==> e.column != "")
    && (forall f :: f in fields ==> f.typ.name != "datetime")
  }

  /** Around each placeholder, the wrapper that fits its column's coercion. */
  ghost predicate Wrapped(d: Dialect, slots: seq<Slot>, entries: seq<Entry>)
    requires |entries| <= |slots|
  {
    forall k :: 0 <= k < |entries| ==>
      slots[k].wrapper == if d.Oracle? then WrapperFor(entries[k].sort) else Bare
  }

  lemma ColumnSlotAt(d: Dialect, fields: seq<Field>, columns: seq<string>, k: nat)
    requires k < |columns|
    ensures ColumnSlots(d, fields, columns)[k] == SlotAt(d, fields, k + 1, columns[k])
  {
  }

  lemma EntryWrapped(fields: seq<Field>, req: Record, e: Entry)
    requires OracleReady(fields, req) && e in Entries(fields, req)
    ensures FormatWrapper(fields, e.column) == WrapperFor(e.sort)
  {
    var n := EntryHasField(fields, req, e);
    assert fields[n] in fields;
    WrapperFitsCoercion(fields, n, req, e);
  }

  lemma ColumnSlotsWrapped(d: Dialect, fields: seq<Field>, req: Record)
    requires Entries(fields, req) != []
    requires d.Oracle? ==> OracleReady(fields, req)
    ensures Wrapped(d, ColumnSlots(d, fields, ColumnsOf(Entries(fields, req))), Entries(fields, req))
  {
    var entries := Entries(fields, req);
    forall k | 0 <= k < |entries|
      ensures SlotAt(d, fields, k + 1, entries[k].column).wrapper
           == if d.Oracle? then WrapperFor(entries[k].sort) else Bare
      ensures ColumnSlots(d, fields, ColumnsOf(entries))[k] == SlotAt(d, fields, k + 1, entries[k].column)
    {
      ColumnSlotAt(d, fields, ColumnsOf(entries), k);
      assert entries[k] in entries;
      if d.Oracle? { EntryWrapped(fields, req, entries[k]); }
    }
  }

  lemma UpdateSlotsWrapped(d: Dialect, fields: seq<Field>, req: Record, id: string)
    requires Entries(fields, req) != []
    requires d.Oracle? ==> OracleReady(fields, req)
    ensures var slots := UpdateSlots(d, fields, ColumnsOf(Entries(fields, req)), id);
            && |slots| == |Entries(fields, req)| + 1 && Wrapped(d, slots, Entries(fields, req))
            && slots[|slots| - 1].wrapper == Bare
  {
    ColumnSlotsWrapped(d, fields, req);
  }

  // What each template lists, with its placeholders in order.

  lemma ColumnSlotsShape(d: Dialect, fields: seq<Field>, columns: seq<string>)
    requires columns != []
    ensures SlotColumns(ColumnSlots(d, fields, columns)) == columns && Styled(d, ColumnSlots(d, fields, columns))
  {
  }

  ghost predicate Unwrapped(slots: seq<Slot>) {
    forall k :: 0 <= k < |slots| ==> slots[k].wrapper == Bare
  }

  lemma FilterSlotsShape(d: Dialect, fields: seq<Field>, columns: seq<string>)
    requires columns != []
    ensures Styled(d, FilterSlots(d, fields, columns)) && Unwrapped(FilterSlots(d, fields, columns))
  {
    ColumnSlotsShape(if d.Oracle? then Numbered else d, fields, columns);
  }

  lemma UpdateSlotsShape(d: Dialect, fields: seq<Field>, columns: seq<string>, id: string)
    requires columns != []
    ensures SlotColumns(UpdateSlots(d, fields, columns, id)) == columns + [id]
    ensures Styled(d, UpdateSlots(d, fields, columns, id))
  {
    ColumnSlotsShape(d, fields, columns);
    assert SlotColumns(UpdateSlots(d, fields, columns, id)) == SlotColumns(ColumnSlots(d, fields, columns)) + [id];
  }

  lemma OptionsSlotsShape(d: Dialect, name: string, columns: seq<string>)
    ensures SlotColumns(OptionsSlots(d, name, columns)) == [name] + columns
    ensures Styled(d, OptionsSlots(d, name, columns)) && Unwrapped(OptionsSlots(d, name, columns))
  {
  }

  lemma PairEdges(column: string, v: Value, xs: seq<string>, vs: seq<Value>)
    ensures Firsts([]) == [] && Seconds([]) == []
    ensures Firsts([(column, v)]) == [column] && Seconds([(column, v)]) == [v]
    ensures [] + xs == xs == xs + [] && [] + vs == vs == vs + []
  {
  }

  /** INSERT. */
  lemma BindColumns(d: Dialect, co: Coercions, fields: seq<Field>, req: Record)
    requires Entries(fields, req) != [] && Args(co, fields, req).Ok?
    ensures Binds(d, co, fields, req, ColumnSlots(d, fields, ColumnsOf(Entries(fields, req))),
                  Args(co, fields, req).value, [], [])
  {
    var columns, args := ColumnsOf(Entries(fields, req)), Args(co, fields, req).value;
    ColumnSlotsShape(d, fields, columns);
    PairEdges("", Nil, columns, args);
    BindOwn(d, co, fields, req, ColumnSlots(d, fields, columns), args, [], []);
  }

  /** The filters of a collection. */
  lemma BindFilters(d: Dialect, co: Coercions, fields: seq<Field>, req: Record)
    requires Entries(fields, req) != [] && Args(co, fields, req).Ok?
    ensures Binds(d, co, fields, req, FilterSlots(d, fields, ColumnsOf(Entries(fields, req))),
                  Args(co, fields, req).value, [], [])
  {
    BindColumns(if d.Oracle? then Numbered else d, co, fields, req);
  }

  /** No filters. */
  lemma BindNothing(d: Dialect, co: Coercions, fields: seq<Field>, req: Record)
    requires Entries(fields, req) == [] && Args(co, fields, req).Ok?
    ensures Binds(d, co, fields, req, [], Args(co, fields, req).value, [], [])
  {
    var args := Args(co, fields, req).value;
    PairEdges("", Nil, [], args);
    assert SlotColumns([]) == [] && ColumnsOf([]) == [];
    BindOwn(d, co, fields, req, [], args, [], []);
  }

  /** UPDATE: the id comes last. */
  lemma BindUpdate(d: Dialect, co: Coercions, fields: seq<Field>, req: Record, uniqueIdColumn: string, id: Value)
    requires Entries(fields, req) != [] && Args(co, fields, req).Ok?
    ensures Binds(d, co, fields, req, UpdateSlots(d, fields, ColumnsOf(Entries(fields, req)), uniqueIdColumn),
                  Args(co, fields, req).value + [id], [], [(uniqueIdColumn, id)])
  {
    var columns, args := ColumnsOf(Entries(fields, req)), Args(co, fields, req).value;
    UpdateSlotsShape(d, fields, columns, uniqueIdColumn);
    PairEdges(uniqueIdColumn, id, columns, args);
    BindOwn(d, co, fields, req, UpdateSlots(d, fields, columns, uniqueIdColumn), args + [id],
            [], [(uniqueIdColumn, id)]);
  }

  /** Options: the filter comes first. */
  lemma BindOptions(d: Dialect, co: Coercions, fields: seq<Field>, req: Record, name: string, filter: Value)
    requires Args(co, fields, req).Ok?
    ensures Binds(d, co, fields, req, OptionsSlots(d, name, ColumnsOf(Entries(fields, req))),
                  [filter] + Args(co, fields, req).value, [(name, filter)], [])
  {
    var columns, args := ColumnsOf(Entries(fields, req)), Args(co, fields, req).value;
    OptionsSlotsShape(d, name, columns);
    PairEdges(name, filter, [name] + columns, [filter] + args);
    BindOwn(d, co, fields, req, OptionsSlots(d, name, columns), [filter] + args, [(name, filter)], []);
  }

  // ----- handlers -----

  /** A run-time panic, a 400, a template that calls a format function which is not
      configured (a 400 or a panic, as the version of Go has it), or a statement handed
      to the database with its arguments. */
  datatype Reply = Panics | BadRequest | TemplateFails | Execute(slots: seq<Slot>, args: seq<Value>)

  ghost predicate NothingRequested(fields: seq<Field>, req: Record) {
    forall f :: f in fields ==> !Requested(f, req)
  }

  lemma {:induction false} NoEntries(fields: seq<Field>, req: Record)
    ensures |Entries(fields, req)| == 0 <==> NothingRequested(fields, req)
  {
    if fields != [] {
      var n := |fields| - 1;
      NoEntries(fields[..n], req);
      NoFieldEntries(fields[n], req);
      forall f ensures f in fields <==> f in fields[..n] || f == fields[n] { InSnoc(fields, f); }
    }
  }

  lemma NoFieldEntries(f: Field, req: Record)
    ensures |EntriesOf(f, req)| == 0 <==> !Requested(f, req)
  {
  }

  /** The reply's statement has the dialect's placeholders and does what is asked for. */
  ghost predicate Executes(
    d: Dialect, co: Coercions, fields: seq<Field>, req: Record, reply: Reply, first: Pairs, last: Pairs)
    requires reply.Execute?
  {
    Styled(d, reply.slots) && Binds(d, co, fields, req, reply.slots, reply.args, first, last)
  }

  /** In every dialect the same pairs: each requested column with its own value,
      then the id for the WHERE clause. */
  method UpdateSingle(d: Dialect, co: Coercions, td: TypeDescriptor, req: Record, id: string)
    returns (reply: Reply)
    ensures reply.Panics? <==> !NothingRequested(td.fields, req) && Args(co, td.fields, req).Panicked?
    ensures reply.BadRequest? <==> NothingRequested(td.fields, req) || Args(co, td.fields, req).Refused?
    ensures !reply.TemplateFails?
    ensures reply.Execute? ==> Executes(d, co, td.fields, req, reply, [], [(td.uniqueIdColumn, Str(id))])
    ensures reply.Execute? && (d.Oracle? ==> OracleReady(td.fields, req)) ==>
              && |reply.slots| == |Entries(td.fields, req)| + 1 && Wrapped(d, reply.slots, Entries(td.fields, req))
              && reply.slots[|reply.slots| - 1].wrapper == Bare
  {
    var columnNames := GetColumnNamesFromRequestData(td, req);
    NoEntries(td.fields, req);
    if |columnNames| == 0 { return BadRequest; }
    var args := CoerceRequestDataToGolangNativeTypes(td, req, co);
    if args.Panicked? { return Panics; }
    if args.Refused? { return BadRequest; }
    var slots := UpdateSlots(d, td.fields, columnNames, td.uniqueIdColumn);
    BindUpdate(d, co, td.fields, req, td.uniqueIdColumn, Str(id));
    UpdateSlotsShape(d, td.fields, columnNames, td.uniqueIdColumn);
    if d.Oracle? ==> OracleReady(td.fields, req) { UpdateSlotsWrapped(d, td.fields, req, td.uniqueIdColumn); }
    return Execute(slots, args.value + [Str(id)]);
  }

  method CreateSingle(d: Dialect, co: Coercions, td: TypeDescriptor, req: Record)
    returns (reply: Reply)
    ensures reply.Panics? <==> !NothingRequested(td.fields, req) && Args(co, td.fields, req).Panicked?
    ensures reply.BadRequest? <==> NothingRequested(td.fields, req) || Args(co, td.fields, req).Refused?
    ensures !reply.TemplateFails?
    ensures reply.Execute? ==> Executes(d, co, td.fields, req, reply, [], [])
    ensures reply.Execute? && (d.Oracle? ==> OracleReady(td.fields, req)) ==>
              |Entries(td.fields, req)| == |reply.slots| && Wrapped(d, reply.slots, Entries(td.fields, req))
  {
    var columnNames := GetColumnNamesFromRequestData(td, req);
    NoEntries(td.fields, req);
    if |columnNames| == 0 { return BadRequest; }
    var args := CoerceRequestDataToGolangNativeTypes(td, req, co);
    if args.Panicked? { return Panics; }
    if args.Refused? { return BadRequest; }
    var slots := ColumnSlots(d, td.fields, columnNames);
    BindColumns(d, co, td.fields, req);
    ColumnSlotsShape(d, td.fields, columnNames);
    if d.Oracle? ==> OracleReady(td.fields, req) { ColumnSlotsWrapped(d, td.fields, req); }
    return Execute(slots, args.value);
  }

  /** The options query: the filter is the first argument and shifts all others. */
  method GetCollectionAsOptions(d: Dialect, co: Coercions, td: TypeDescriptor, req: Record)
    returns (reply: Reply)
    requires "filter" in req ==> req["filter"].Str?
    ensures reply.TemplateFails? <==> FormatMissing(d, td.fields, ColumnsOf(Entries(td.fields, req)))
    ensures reply.TemplateFails? ==> d.Oracle?
    ensures reply.Panics? <==> !reply.TemplateFails? && Args(co, td.fields, req).Panicked?
    ensures reply.BadRequest? <==> !reply.TemplateFails? && Args(co, td.fields, req).Refused?
    ensures reply.Execute? ==>
              var filter := if "filter" in req then "%" + req["filter"].s + "%" else "%";
              Executes(d, co, td.fields, req, reply, [(td.columnAsOptionName, Str(filter))], [])
    ensures reply.Execute? ==> Unwrapped(reply.slots)
  {
    var columnNames := GetColumnNamesFromRequestData(td, req);
    var filter := "%";
    if "filter" in req {
      filter := "%" + req["filter"].s + "%";
    }
    if FormatMissing(d, td.fields, columnNames) { return TemplateFails; }
    var args := CoerceRequestDataToGolangNativeTypes(td, req, co);
    if args.Panicked? { return Panics; }
    if args.Refused? { return BadRequest; }
    var slots := OptionsSlots(d, td.columnAsOptionName, columnNames);
    BindOptions(d, co, td.fields, req, td.columnAsOptionName, Str(filter));
    OptionsSlotsShape(d, td.columnAsOptionName, columnNames);
    return Execute(slots, [Str(filter)] + args.value);
  }

  /** The filters of a collection: one condition per requested column, or none. */
  method GetCollection(d: Dialect, co: Coercions, td: TypeDescriptor, req: Record)
    returns (reply: Reply)
    ensures reply.TemplateFails? <==>
              && Entries(td.fields, req) != []
              && FormatMissing(d, td.fields, ColumnsOf(Entries(td.fields, req))[1..])
    ensures reply.TemplateFails? ==> d.Oracle?
    ensures reply.Panics? <==> !reply.TemplateFails? && Args(co, td.fields, req).Panicked?
    ensures reply.BadRequest? <==> !reply.TemplateFails? && Args(co, td.fields, req).Refused?
    ensures reply.Execute? ==> Executes(d, co, td.fields, req, reply, [], [])
    ensures reply.Execute? ==> Unwrapped(reply.slots)
  {
    var columnNames := GetColumnNamesFromRequestData(td, req);
    if |columnNames| > 0 && FormatMissing(d, td.fields, columnNames[1..]) { return TemplateFails; }
    var args := CoerceRequestDataToGolangNativeTypes(td, req, co);
    if args.Panicked? { return Panics; }
    if args.Refused? { return BadRequest; }
    if |columnNames| == 0 {
      BindNothing(d, co, td.fields, req);
      return Execute([], args.value);
    }
    BindFilters(d, co, td.fields, req);
    FilterSlotsShape(d, td.fields, columnNames);
    return Execute(FilterSlots(d, td.fields, columnNames), args.value);
  }

  // ----- concrete requests -----

  /** A price with a currency of its own. */
  function Price(): Field {
    Field("price", "",
          WorkflowType("money", "", Amount("amount", "price_amount"), Currency("currency", "price_currency", "")), None)
  }

  function Cup(): TypeDescriptor { TypeDescriptor("cup", "cups", "name", "id", [Price()]) }

  /** Updating both parts of a price writes nothing: two columns, but one argument. */
  lemma BothKeysOfMoney(d: Dialect, co: Coercions, id: Value)
    ensures var req: Record := map["amount" := Int(3), "currency" := Str("EUR")];
            && Entries(Cup().fields, req) != [] && Args(co, Cup().fields, req) == Ok([Int(3)])
            && var slots := UpdateSlots(d, Cup().fields, ColumnsOf(Entries(Cup().fields, req)), "id");
               Bind(d, slots, [Int(3)] + [id]) == None
  {
    var req: Record := map["amount" := Int(3), "currency" := Str("EUR")];
    assert |"amount"| == 6 && |"currency"| == 8;
    OneField(co, Price(), req);
    assert CoerceField(co, Price(), req) == Ok(Some(Int(3)));
    var none: seq<Value> := [];
    assert none + [Int(3)] == [Int(3)];
    BindUpdate(d, co, [Price()], req, "id", id);
  }

  lemma OneField(co: Coercions, f: Field, req: Record)
    ensures Entries([f], req) == EntriesOf(f, req)
    ensures Args(co, [f], req) == Extend(Ok([]), CoerceField(co, f, req))
    ensures Excess([f], req) == ExcessOf(f, req)
  {
    assert [f][..0] == [];
    assert [] + EntriesOf(f, req) == EntriesOf(f, req);
  }

  /** A field whose type, not kind, is called `datetime`. */
  function LastUsed(): Field {
    Field("lastUsed", "last_used", WorkflowType("datetime", "", Amount("", ""), Currency("", "", "")), None)
  }

  /** Oracle is given a timestamp as text, with nothing around its placeholder to read it. */
  lemma DatetimeIsBare(parse: string -> Option<int>, moment: int -> OracleDates.Moment, s: string)
    requires parse(s).Some?
    ensures FormatWrapper([LastUsed()], "last_used") == Bare
    ensures CoerceField(OracleCoercions(parse, moment), LastUsed(), map["lastUsed" := Str(s)])
         == Ok(Some(OracleText(moment, OracleDates.DATETIME_LAYOUT)(parse(s).value)))
  {
    assert |"datetime"| == 8 && |"money"| == 5 && |"date"| == 4;
  }

  function DateField(key: string, column: string, kind: string): Field {
    Field(key, column, WorkflowType("date", kind, Amount("", ""), Currency("", "", "")), None)
  }

  /** A purchase date that is a number makes the request panic, on Oracle and elsewhere. */
  lemma PurchaseDatePanics(parse: string -> Option<int>, moment: int -> OracleDates.Moment)
    ensures var fields := [DateField("purchaseDate", "purchase_date", "date")];
            var req: Record := map["purchaseDate" := Int(5)];
            && Args(BaseCoercions(parse), fields, req).Panicked?
            && Args(OracleCoercions(parse, moment), fields, req).Panicked?
  {
    var fields := [DateField("purchaseDate", "purchase_date", "date")];
    var req: Record := map["purchaseDate" := Int(5)];
    assert |"date"| == 4 && |"money"| == 5 && |"datetime"| == 8;
    ParsersParse(parse, moment);
    assert FirstBadDate(parse, fields, req, 0) && IllTyped(fields[0], req);
    RequestEnds(BaseCoercions(parse), parse, fields, req);
    RequestEnds(OracleCoercions(parse, moment), parse, fields, req);
  }

  /** Whatever the time of day, Oracle refuses to read it. */
  lemma TimeOfDayRefused(parse: string -> Option<int>, moment: int -> OracleDates.Moment, s: string)
    requires parse(s).Some?
    ensures var f := DateField("lastAccessed", "last_accessed", "time");
            var text := CoerceField(OracleCoercions(parse, moment), f, map["lastAccessed" := Str(s)]);
            && FormatWrapper([f], "last_accessed") == ToTime
            && text.Ok? && text.value.Some? && text.value.value.Str?
            && OracleReads(ToTime, text.value.value.s) == None
  {
    assert |"datetime"| == 8 && |"money"| == 5 && |"date"| == 4 && |"time"| == 4;
    assert "time"[0] != "date"[0];
    OracleDates.TimeMaskRefused();
  }
}
