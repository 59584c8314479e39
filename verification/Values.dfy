/** Dynamic values: what the connector keeps in an `interface{}` while a query
    result travels from the database driver to the JSON encoder. */
module Values {

  datatype Option<+T> = None | Some(value: T)

  /** `Rows` is a `[]map[string]interface{}` and `List` a `[]interface{}`: the
      program tells the two apart by type assertion. A `Time` is a token for one
      `time.Time`; only equality and the library's printers look at it. */
  datatype Value =
    | Nil
    | Bool(b: bool)
    | Int(i: int)
    | Float(f: real)
    | Str(s: string)
    | Time(t: int)
    | Map(m: map<string, Value>)
    | Rows(rows: seq<map<string, Value>>)
    | List(items: seq<Value>)

  type Record = map<string, Value>

  /** Indexing a Go map: an absent key reads as nil. */
  function At(r: Record, key: string): Value {
    if key in r then r[key] else Nil
  }

  /** The map left by writing `vals[i]` at `keys[i]` from left to right. */
  function Zip(keys: seq<string>, vals: seq<Value>): Record
    requires |keys| == |vals|
  {
    if keys == [] then map[]
    else
      var n := |keys| - 1;
      Zip(keys[..n], vals[..n])[keys[n] := vals[n]]
  }

  lemma ZipLast(keys: seq<string>, vals: seq<Value>)
    requires |keys| == |vals| > 0
    ensures Zip(keys, vals) == Zip(keys[..|keys| - 1], vals[..|keys| - 1])[keys[|keys| - 1] := vals[|keys| - 1]]
  {
  }

  /** The cells of a record in column order. */
  function Cells(columns: seq<string>, r: Record): (cells: seq<Value>)
    ensures |cells| == |columns|
  {
    seq(|columns|, i requires 0 <= i < |columns| => At(r, columns[i]))
  }

  /** Reading a record out in column order and zipping it back gives the record. */
  lemma {:induction false} ZipCells(columns: seq<string>, r: Record)
    requires forall c :: c in columns ==> c in r
    ensures Zip(columns, Cells(columns, r)) == map c | c in columns :: r[c]
  {
    if columns != [] {
      var n := |columns| - 1;
      ZipCells(columns[..n], r);
      assert Cells(columns, r)[..n] == Cells(columns[..n], r);
      assert columns == columns[..n] + [columns[n]];
    }
  }

  lemma TakeTake<T>(s: seq<T>, n: nat, k: nat)
    requires k <= n <= |s|
    ensures s[..n][..k] == s[..k]
  {
  }

  lemma InSnoc<T>(s: seq<T>, x: T)
    requires s != []
    ensures var n := |s| - 1;
            x in s <==> x in s[..n] || x == s[n]
  {
    assert s == s[..|s| - 1] + [s[|s| - 1]];
  }

  lemma Rejoined<T>(s: seq<T>, n: nat)
    requires n < |s|
    ensures s == s[..n] + [s[n]] + s[n + 1..]
    ensures n == 0 ==> s == [s[n]] + s[n + 1..]
    ensures n == |s| - 1 ==> s == s[..n] + [s[n]]
  {
  }

  /** One more element of `goal` written over `start`. */
  lemma PatchNext<T>(goal: seq<T>, start: seq<T>, i: nat)
    requires i < |goal| == |start|
    ensures (goal[..i] + start[i..])[i := goal[i]] == goal[..i + 1] + start[i + 1..]
  {
  }

  lemma Overwritten<K, V>(m: map<K, V>, k: K, x: V, y: V)
    ensures m[k := x][k := y] == m[k := y]
  {
  }

  predicate NoDuplicates<T(==)>(s: seq<T>) {
    forall i, j :: 0 <= i < j < |s| ==> s[i] != s[j]
  }
}
