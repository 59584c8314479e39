/** `stringify` (jsonForWorkflowAccelerator.go): the connector's identifiers are text. */
module Strings {
  import opened Values

  /** Library printers the program leans on: `%f`, `time.Time.String`, and the
      workflow date format without and with conversion to UTC. */
  datatype Printers = Printers(float: real -> string, time: int -> string, local: int -> string, utc: int -> string)

  predicate IsNumber(s: string) { forall i :: 0 <= i < |s| ==> '0' <= s[i] <= '9' }

  function Digit(n: nat): (c: char)
    requires n < 10
    ensures '0' <= c <= '9' && (c - '0') as nat == n
  {
    '0' + n as char
  }

  function Digits(n: nat): (s: string)
    ensures s != [] && IsNumber(s)
  {
    (if n < 10 then [] else Digits(n / 10)) + [Digit(n % 10)]
  }

  /** `%d`. */
  function Decimal(i: int): string {
    if i < 0 then "-" + Digits(-i) else Digits(i)
  }

  /** Booleans and lists have no case: they come out as nil. */
  function Stringify(p: Printers, v: Value): Value {
    match v
    case Int(i) => Str(Decimal(i))
    case Float(f) => Str(p.float(f))
    case Time(t) => Str(p.time(t))
    case Str(s) => v
    case Map(m) => Map(map k | k in m :: Stringify(p, m[k]))
    case Nil => Nil
    case Bool(_) => Nil
    case Rows(_) => Nil
    case List(_) => Nil
  }

  lemma {:induction false} StringifyTwice(p: Printers, v: Value)
    ensures Stringify(p, Stringify(p, v)) == Stringify(p, v)
  {
    if v.Map? {
      forall k | k in v.m
        ensures Stringify(p, Stringify(p, v.m[k])) == Stringify(p, v.m[k])
      {
        StringifyTwice(p, v.m[k]);
      }
      assert Stringify(p, Stringify(p, v)).m == Stringify(p, v).m;
    }
  }

  function Number(s: string): nat
    requires IsNumber(s)
  {
    if s == [] then 0 else 10 * Number(s[..|s| - 1]) + (s[|s| - 1] - '0') as nat
  }

  lemma {:induction false} NumberOfDigits(n: nat)
    ensures Number(Digits(n)) == n
  {
    var s, init := Digits(n), if n < 10 then [] else Digits(n / 10);
    assert s == init + [Digit(n % 10)];
    assert s[..|s| - 1] == init;
    if n >= 10 {
      NumberOfDigits(n / 10);
    }
  }

  lemma {:induction false} NoLeadingZero(n: nat)
    ensures n == 0 ==> |Digits(n)| == 1
    ensures n > 0 ==> Digits(n)[0] != '0'
  {
    if n >= 10 {
      NoLeadingZero(n / 10);
      assert Digits(n) == Digits(n / 10) + [Digit(n % 10)];
    } else {
      assert Digits(n) == [] + [Digit(n)];
    }
  }

  /** `s` is how an integer is written: digits without a leading zero, after a minus
      sign when it is negative. */
  ghost predicate Writes(s: string, i: int) {
    if i >= 0 then s != "" && IsNumber(s) && Number(s) == i && (|s| > 1 ==> s[0] != '0')
    else s != "" && s[0] == '-' && s[1..] != "" && IsNumber(s[1..]) && Number(s[1..]) == -i && s[1] != '0'
  }

  lemma {:induction false} PositiveNumber(s: string)
    requires s != "" && IsNumber(s) && s[0] != '0'
    ensures Number(s) > 0
  {
    if |s| > 1 { PositiveNumber(s[..|s| - 1]); }
  }

  lemma NumberLast(s: string, n: nat)
    requires |s| == n + 1 && IsNumber(s)
    ensures '0' <= s[n] <= '9' && Number(s) == 10 * Number(s[..n]) + (s[n] - '0') as nat
  {
  }

  lemma SameLast(a: nat, c: char, b: nat, d: char)
    requires '0' <= c <= '9' && '0' <= d <= '9'
    requires 10 * a + (c - '0') as nat == 10 * b + (d - '0') as nat
    ensures a == b && c == d
  {
  }

  /** Numbers without a leading zero are equal when they are the same text. */
  lemma {:induction false} SameNumber(s: string, t: string)
    requires s != "" && IsNumber(s) && (|s| > 1 ==> s[0] != '0')
    requires t != "" && IsNumber(t) && (|t| > 1 ==> t[0] != '0')
    requires Number(s) == Number(t)
    ensures s == t
  {
    var m, n := |s| - 1, |t| - 1;
    NumberLast(s, m);
    NumberLast(t, n);
    SameLast(Number(s[..m]), s[m], Number(t[..n]), t[n]);
    if m > 0 { PositiveNumber(s[..m]); }
    if n > 0 { PositiveNumber(t[..n]); }
    if m > 0 && n > 0 { SameNumber(s[..m], t[..n]); }
    Rejoined(s, m);
    Rejoined(t, n);
  }

  lemma DecimalIsWritten(i: int)
    ensures Writes(Decimal(i), i)
  {
    var n := if i < 0 then -i else i;
    NumberOfDigits(n);
    NoLeadingZero(n);
    if i < 0 { assert Decimal(i)[1..] == Digits(n); }
  }

  lemma WrittenOnce(s: string, t: string, i: int)
    requires Writes(s, i) && Writes(t, i)
    ensures s == t
  {
    if i >= 0 {
      SameNumber(s, t);
    } else {
      SameNumber(s[1..], t[1..]);
      Rejoined(s, 0);
      Rejoined(t, 0);
    }
  }

  /** That is how `%d` writes it, and nothing else is. */
  lemma DecimalWrites(s: string, i: int)
    ensures Writes(s, i) <==> s == Decimal(i)
  {
    DecimalIsWritten(i);
    if Writes(s, i) { WrittenOnce(s, Decimal(i), i); }
  }

  /** `t` is the text of `v`. */
  ghost predicate IsTextOf(p: Printers, v: Value, t: Value) {
    match v
    case Int(i) => t.Str? && Writes(t.s, i)
    case Float(f) => t == Str(p.float(f))
    case Time(moment) => t == Str(p.time(moment))
    case Str(_) => t == v
    case Map(m) => t.Map? && t.m.Keys == m.Keys && forall k :: k in m ==> IsTextOf(p, m[k], t.m[k])
    case _ => t == Nil
  }

  /** `stringify` returns the text, at any depth, and there is no other. */
  lemma {:induction false} StringifyIsText(p: Printers, v: Value, t: Value)
    ensures IsTextOf(p, v, t) <==> t == Stringify(p, v)
  {
    match v
    case Int(i) => if t.Str? { DecimalWrites(t.s, i); }
    case Map(m) =>
      if t.Map? && t.m.Keys == m.Keys {
        forall k | k in m ensures IsTextOf(p, m[k], t.m[k]) <==> t.m[k] == Stringify(p, m[k]) {
          StringifyIsText(p, m[k], t.m[k]);
        }
      }
    case _ =>
  }

  /** Values of an identifier column: all integers, or all non-empty text. */
  predicate SameIdType(a: Value, b: Value) {
    (a.Int? && b.Int?) || (a.Str? && b.Str?)
  }

  lemma DecimalInjective(i: int, j: int)
    ensures Decimal(i) == Decimal(j) ==> i == j
  {
    DecimalWrites(Decimal(i), i);
    DecimalWrites(Decimal(j), j);
  }

  /** On identifiers of one type, comparing their text is comparing them. */
  lemma IdsAreText(p: Printers, a: Value, b: Value)
    requires SameIdType(a, b)
    ensures Stringify(p, a) == Stringify(p, b) <==> a == b
  {
    if a.Int? {
      DecimalInjective(a.i, b.i);
    }
  }
}
