/** Dates as text between the connector and Oracle: the Go layouts in which arguments
    are formatted, and the format models with which the statement reads them
    (oracle.go). Both are given their meaning in terms of the same tokens. */
module OracleDates {
  import opened Values
  import opened Strings

  // ----- tokens -----

  /** What a date, a time and an offset from UTC consist of; `Sign` is 1 west of UTC. */
  datatype Element = Year | Month | Day | Hour | Minute | Second | Millis | Sign | OffsetHours | OffsetMinutes

  datatype Token = Part(element: Element) | Verbatim(text: string)

  type Moment = Element -> nat

  function Width(e: Element): nat {
    match e
    case Year => 4
    case Millis => 3
    case Sign => 1
    case _ => 2
  }

  function PowerOfTen(k: nat): nat {
    if k == 0 then 1 else 10 * PowerOfTen(k - 1)
  }

  /** Every element has as many digits as it is written with. */
  ghost predicate Fits(m: Moment) {
    forall e: Element :: m(e) < if e.Sign? then 2 else PowerOfTen(Width(e))
  }

  // ----- writing and reading tokens -----

  /** The last `width` digits, with leading zeros. */
  function Padded(n: nat, width: nat): (s: string)
    ensures |s| == width && IsNumber(s)
  {
    if width == 0 then "" else Padded(n / 10, width - 1) + [Digit(n % 10)]
  }

  lemma {:induction false} NumberOfPadded(n: nat, width: nat)
    requires n < PowerOfTen(width)
    ensures Number(Padded(n, width)) == n
  {
    if width > 0 {
      var s, init := Padded(n, width), Padded(n / 10, width - 1);
      assert s == init + [Digit(n % 10)];
      assert s[..width - 1] == init;
      NumberOfPadded(n / 10, width - 1);
    }
  }

  function WriteElement(e: Element, n: nat): (s: string)
    ensures |s| == Width(e)
  {
    if e.Sign? then (if n == 0 then "+" else "-") else Padded(n, Width(e))
  }

  function ReadElement(e: Element, s: string): Option<nat> {
    if e.Sign? then if s == "+" then Some(0) else if s == "-" then Some(1) else None
    else if IsNumber(s) then Some(Number(s))
    else None
  }

  lemma ElementReadBack(e: Element, n: nat)
    requires n < if e.Sign? then 2 else PowerOfTen(Width(e))
    ensures ReadElement(e, WriteElement(e, n)) == Some(n)
  {
    if e.Sign? {
      assert "+"[0] != "-"[0];
    } else {
      NumberOfPadded(n, Width(e));
    }
  }

  function WriteTokens(tokens: seq<Token>, m: Moment): string {
    if tokens == [] then ""
    else
      (match tokens[0] case Part(e) => WriteElement(e, m(e)) case Verbatim(text) => text)
      + WriteTokens(tokens[1..], m)
  }

  /** What is known after reading a text, or `None` when the text does not fit. */
  function ReadTokens(tokens: seq<Token>, s: string, known: map<Element, nat>): Option<map<Element, nat>> {
    if tokens == [] then if s == "" then Some(known) else None
    else
      match tokens[0]
      case Part(e) =>
        if |s| < Width(e) then None
        else
          var n := ReadElement(e, s[..Width(e)]);
          if n.None? then None else ReadTokens(tokens[1..], s[Width(e)..], known[e := n.value])
      case Verbatim(text) =>
        if text <= s then ReadTokens(tokens[1..], s[|text|..], known) else None
  }

  /** The elements that are written, added to what is known. */
  function Learned(tokens: seq<Token>, m: Moment, known: map<Element, nat>): map<Element, nat> {
    if tokens == [] then known
    else
      match tokens[0]
      case Part(e) => Learned(tokens[1..], m, known[e := m(e)])
      case Verbatim(_) => Learned(tokens[1..], m, known)
  }

  /** Whatever the tokens: what is written with them is read back with them. */
  lemma {:induction false} ReadsBack(tokens: seq<Token>, m: Moment, known: map<Element, nat>)
    requires Fits(m)
    ensures ReadTokens(tokens, WriteTokens(tokens, m), known) == Some(Learned(tokens, m, known))
  {
    if tokens != [] {
      var s, rest := WriteTokens(tokens, m), WriteTokens(tokens[1..], m);
      match tokens[0]
      case Part(e) =>
        ElementReadBack(e, m(e));
        assert s[..Width(e)] == WriteElement(e, m(e)) && s[Width(e)..] == rest;
        ReadsBack(tokens[1..], m, known[e := m(e)]);
      case Verbatim(text) =>
        assert text <= s && s[|text|..] == rest;
        ReadsBack(tokens[1..], m, known);
    }
  }

  /** What is learned is the moment's, for the elements that are written. */
  lemma {:induction false} LearnedAt(tokens: seq<Token>, m: Moment, known: map<Element, nat>, e: Element)
    ensures Part(e) in tokens ==> e in Learned(tokens, m, known) && Learned(tokens, m, known)[e] == m(e)
    ensures Part(e) !in tokens && e in known ==>
              e in Learned(tokens, m, known) && Learned(tokens, m, known)[e] == known[e]
    ensures e in known && known[e] == m(e) ==>
              e in Learned(tokens, m, known) && Learned(tokens, m, known)[e] == m(e)
  {
    if tokens != [] {
      assert tokens == [tokens[0]] + tokens[1..];
      match tokens[0]
      case Part(x) => LearnedAt(tokens[1..], m, known[x := m(x)], e);
      case Verbatim(_) => LearnedAt(tokens[1..], m, known, e);
    }
  }

  // ----- Go layouts -----

  /** The chunks of a layout of Go's `time` package: `2006`, `01`, `02`, `15`, `04`,
      `05`, `.000`, `-07:00`, and any other character. */
  datatype Chunk =
    | LongYear | ZeroMonth | ZeroDay | Hour24 | ZeroMinute | ZeroSecond | Fraction3 | NumColonZone
    | Char(c: char)

  function ChunkTokens(c: Chunk): seq<Token> {
    match c
    case LongYear => [Part(Year)]
    case ZeroMonth => [Part(Month)]
    case ZeroDay => [Part(Day)]
    case Hour24 => [Part(Hour)]
    case ZeroMinute => [Part(Minute)]
    case ZeroSecond => [Part(Second)]
    case Fraction3 => [Verbatim("."), Part(Millis)]
    case NumColonZone => [Part(Sign), Part(OffsetHours), Verbatim(":"), Part(OffsetMinutes)]
    case Char(c) => [Verbatim([c])]
  }

  function LayoutTokens(layout: seq<Chunk>): seq<Token> {
    if layout == [] then [] else ChunkTokens(layout[0]) + LayoutTokens(layout[1..])
  }

  /** `2006-01-02` */
  const DATE_LAYOUT := [LongYear, Char('-'), ZeroMonth, Char('-'), ZeroDay]

  /** `T15:04:05` */
  const CLOCK_LAYOUT := [Char('T'), Hour24, Char(':'), ZeroMinute, Char(':'), ZeroSecond]

  /** `2006-01-02T15:04:05.000` */
  const TIME_LAYOUT := DATE_LAYOUT + CLOCK_LAYOUT + [Fraction3]

  /** `2006-01-02T15:04:05.000-07:00` */
  const DATETIME_LAYOUT := TIME_LAYOUT + [NumColonZone]

  // ----- Oracle format models -----

  /** Datetime format elements; `X` is the radix character. */
  datatype Item = YYYY | MM | DD | HH24 | MI | SS | X | FF3 | TZH | TZM | Punctuation(c: char) | Quoted(text: string)

  function ItemTokens(i: Item): seq<Token> {
    match i
    case YYYY => [Part(Year)]
    case MM => [Part(Month)]
    case DD => [Part(Day)]
    case HH24 => [Part(Hour)]
    case MI => [Part(Minute)]
    case SS => [Part(Second)]
    case X => [Verbatim(".")]
    case FF3 => [Part(Millis)]
    case TZH => [Part(Sign), Part(OffsetHours)]
    case TZM => [Part(OffsetMinutes)]
    case Punctuation(c) => [Verbatim([c])]
    case Quoted(text) => [Verbatim(text)]
  }

  function MaskTokens(mask: seq<Item>): seq<Token> {
    if mask == [] then [] else ItemTokens(mask[0]) + MaskTokens(mask[1..])
  }

  /** `YYYY-MM-DD` */
  const DATE_MASK := [YYYY, Punctuation('-'), MM, Punctuation('-'), DD]

  /** `"T"HH24:MI:SS` */
  const CLOCK_MASK := [Quoted("T"), HH24, Punctuation(':'), MI, Punctuation(':'), SS]

  /** `YYYY-MM-DD"T"HH24:MI:SSXFF3` */
  const TIME_MASK := DATE_MASK + CLOCK_MASK + [X, FF3]

  /** `YYYY-MM-DD"T"HH24:MI:SSXFF3TZH:TZM` */
  const DATETIME_MASK := TIME_MASK + [TZH, Punctuation(':'), TZM]

  /** The functions that convert text. A DATE has neither fractional seconds nor an
      offset, so a format model for TO_DATE may not name them. */
  datatype Converter = TO_DATE | TO_TIMESTAMP_TZ

  predicate Accepts(f: Converter, mask: seq<Item>) {
    f.TO_DATE? ==> forall i :: 0 <= i < |mask| ==> !mask[i].FF3? && !mask[i].TZH? && !mask[i].TZM?
  }

  /** Elements that a format model does not name: midnight, UTC. */
  const MIDNIGHT: map<Element, nat> :=
    map[Hour := 0, Minute := 0, Second := 0, Millis := 0, Sign := 0, OffsetHours := 0, OffsetMinutes := 0]

  function Converted(f: Converter, mask: seq<Item>, s: string): Option<map<Element, nat>> {
    if Accepts(f, mask) then ReadTokens(MaskTokens(mask), s, MIDNIGHT) else None
  }

  // ----- do they agree? -----

  lemma {:induction false} LayoutAppend(a: seq<Chunk>, b: seq<Chunk>)
    ensures LayoutTokens(a + b) == LayoutTokens(a) + LayoutTokens(b)
  {
    if a == [] {
      assert a + b == b;
    } else {
      assert (a + b)[1..] == a[1..] + b;
      LayoutAppend(a[1..], b);
    }
  }

  lemma {:induction false} MaskAppend(a: seq<Item>, b: seq<Item>)
    ensures MaskTokens(a + b) == MaskTokens(a) + MaskTokens(b)
  {
    if a == [] {
      assert a + b == b;
    } else {
      assert (a + b)[1..] == a[1..] + b;
      MaskAppend(a[1..], b);
    }
  }

  /** A layout and a mask that mean the same tokens, chunk by chunk and item by item. */
  predicate Agree(layout: seq<Chunk>, mask: seq<Item>) {
    LayoutTokens(layout) == MaskTokens(mask)
  }

  lemma AgreeAppend(a: seq<Chunk>, x: seq<Item>, b: seq<Chunk>, y: seq<Item>)
    requires Agree(a, x) && Agree(b, y)
    ensures Agree(a + b, x + y)
  {
    LayoutAppend(a, b);
    MaskAppend(x, y);
  }

  lemma {:induction false} AgreeOneByOne(layout: seq<Chunk>, mask: seq<Item>)
    requires |layout| == |mask|
    requires forall i :: 0 <= i < |layout| ==> ChunkTokens(layout[i]) == ItemTokens(mask[i])
    ensures Agree(layout, mask)
  {
    if layout != [] {
      AgreeOneByOne(layout[1..], mask[1..]);
    }
  }

  lemma DatesAgree()
    ensures Agree(DATE_LAYOUT, DATE_MASK)
  {
    AgreeOneByOne(DATE_LAYOUT, DATE_MASK);
  }

  lemma FractionsAgree()
    ensures Agree([Fraction3], [X, FF3])
  {
    assert [Fraction3][1..] == [] && [X, FF3][1..] == [FF3] && [FF3][1..] == [];
    assert MaskTokens([FF3]) == [Part(Millis)];
  }

  lemma ClocksAgree()
    ensures Agree(CLOCK_LAYOUT, CLOCK_MASK)
  {
    AgreeOneByOne(CLOCK_LAYOUT, CLOCK_MASK);
  }

  lemma TimesAgree()
    ensures Agree(TIME_LAYOUT, TIME_MASK)
  {
    DatesAgree();
    ClocksAgree();
    FractionsAgree();
    AgreeAppend(DATE_LAYOUT, DATE_MASK, CLOCK_LAYOUT, CLOCK_MASK);
    AgreeAppend(DATE_LAYOUT + CLOCK_LAYOUT, DATE_MASK + CLOCK_MASK, [Fraction3], [X, FF3]);
  }

  lemma ZonesAgree()
    ensures Agree([NumColonZone], [TZH, Punctuation(':'), TZM])
  {
    assert [NumColonZone][1..] == [];
    assert [TZH, Punctuation(':'), TZM][1..] == [Punctuation(':'), TZM];
    assert [Punctuation(':'), TZM][1..] == [TZM] && [TZM][1..] == [];
    assert MaskTokens([TZM]) == [Part(OffsetMinutes)];
    assert MaskTokens([Punctuation(':'), TZM]) == [Verbatim(":"), Part(OffsetMinutes)];
  }

  lemma DatetimesAgree()
    ensures Agree(DATETIME_LAYOUT, DATETIME_MASK)
  {
    TimesAgree();
    ZonesAgree();
    AgreeAppend(TIME_LAYOUT, TIME_MASK, [NumColonZone], [TZH, Punctuation(':'), TZM]);
  }

  /** Text formatted with a layout is converted back with a mask that agrees with it,
      if and only if the function accepts the mask. */
  lemma ConvertsBack(f: Converter, layout: seq<Chunk>, mask: seq<Item>, m: Moment)
    requires Fits(m) && Agree(layout, mask)
    ensures Converted(f, mask, WriteTokens(LayoutTokens(layout), m))
         == if Accepts(f, mask) then Some(Learned(LayoutTokens(layout), m, MIDNIGHT)) else None
  {
    ReadsBack(LayoutTokens(layout), m, MIDNIGHT);
  }

  /** `to_date` does not accept the mask that goes with the layout of times. */
  lemma TimeMaskRefused()
    ensures Accepts(TO_DATE, DATE_MASK) && !Accepts(TO_DATE, TIME_MASK) && Accepts(TO_TIMESTAMP_TZ, DATETIME_MASK)
  {
    assert TIME_MASK[12] == FF3;
  }

  // ----- what is named -----

  lemma {:induction false} LayoutNames(layout: seq<Chunk>, i: nat, t: Token)
    requires i < |layout| && t in ChunkTokens(layout[i])
    ensures t in LayoutTokens(layout)
  {
    if i > 0 {
      LayoutNames(layout[1..], i - 1, t);
    }
  }

  lemma {:induction false} LayoutNamesNo(layout: seq<Chunk>, t: Token)
    requires forall i :: 0 <= i < |layout| ==> t !in ChunkTokens(layout[i])
    ensures t !in LayoutTokens(layout)
  {
    if layout != [] {
      LayoutNamesNo(layout[1..], t);
    }
  }

  lemma DateNames(e: Element)
    ensures Part(e) in LayoutTokens(DATE_LAYOUT) <==> e in {Year, Month, Day}
  {
    if e in {Year, Month, Day} {
      LayoutNames(DATE_LAYOUT, if e == Year then 0 else if e == Month then 2 else 4, Part(e));
    } else {
      LayoutNamesNo(DATE_LAYOUT, Part(e));
    }
  }

  lemma ClockNames(e: Element)
    requires e in {Hour, Minute, Second}
    ensures Part(e) in LayoutTokens(CLOCK_LAYOUT)
  {
    LayoutNames(CLOCK_LAYOUT, if e == Hour then 1 else if e == Minute then 3 else 5, Part(e));
  }

  lemma OneChunk(c: Chunk)
    ensures LayoutTokens([c]) == ChunkTokens(c)
  {
    assert [c][1..] == [];
  }

  /** A timestamp's layout names every element. */
  lemma DatetimeNames(e: Element)
    ensures Part(e) in LayoutTokens(DATETIME_LAYOUT)
  {
    LayoutAppend(TIME_LAYOUT, [NumColonZone]);
    LayoutAppend(DATE_LAYOUT + CLOCK_LAYOUT, [Fraction3]);
    LayoutAppend(DATE_LAYOUT, CLOCK_LAYOUT);
    OneChunk(NumColonZone);
    OneChunk(Fraction3);
    if e in {Year, Month, Day} {
      DateNames(e);
    } else if e in {Hour, Minute, Second} {
      ClockNames(e);
    }
  }

  /** A timestamp is learned whole .. */
  lemma DatetimeLearned(m: Moment, e: Element)
    ensures var learned := Learned(LayoutTokens(DATETIME_LAYOUT), m, MIDNIGHT);
            e in learned && learned[e] == m(e)
  {
    DatetimeNames(e);
    LearnedAt(LayoutTokens(DATETIME_LAYOUT), m, MIDNIGHT, e);
  }

  /** .. and a date as the midnight of its day. */
  lemma DateLearned(m: Moment, e: Element)
    ensures var learned := Learned(LayoutTokens(DATE_LAYOUT), m, MIDNIGHT);
            e in learned && learned[e] == if e in {Year, Month, Day} then m(e) else 0
  {
    DateNames(e);
    LearnedAt(LayoutTokens(DATE_LAYOUT), m, MIDNIGHT, e);
  }

  // ----- what the layouts look like -----

  /** The reference time of Go's `time` package, by which layouts are written. */
  const REFERENCE: Moment := (e: Element) =>
    match e
    case Year => 2006
    case Month => 1
    case Day => 2
    case Hour => 15
    case Minute => 4
    case Second => 5
    case Millis => 0
    case Sign => 1
    case OffsetHours => 7
    case OffsetMinutes => 0

  function Written(layout: seq<Chunk>, m: Moment): string { WriteTokens(LayoutTokens(layout), m) }

  lemma {:induction false} WriteAppend(a: seq<Token>, b: seq<Token>, m: Moment)
    ensures WriteTokens(a + b, m) == WriteTokens(a, m) + WriteTokens(b, m)
  {
    if a == [] {
      assert a + b == b;
    } else {
      assert (a + b)[1..] == a[1..] + b;
      WriteAppend(a[1..], b, m);
    }
  }

  lemma WrittenAppend(a: seq<Chunk>, b: seq<Chunk>, m: Moment)
    ensures Written(a + b, m) == Written(a, m) + Written(b, m)
  {
    LayoutAppend(a, b);
    WriteAppend(LayoutTokens(a), LayoutTokens(b), m);
  }

  function TokenText(t: Token, m: Moment): string {
    match t
    case Part(e) => WriteElement(e, m(e))
    case Verbatim(text) => text
  }

  lemma TokenAlone(t: Token, m: Moment)
    ensures WriteTokens([t], m) == TokenText(t, m)
  {
    assert [t][1..] == [];
    assert WriteTokens([t], m) == TokenText(t, m) + "";
  }

  /** A chunk of one element, or of one character. */
  lemma WrittenOne(c: Chunk, t: Token, m: Moment)
    requires ChunkTokens(c) == [t]
    ensures Written([c], m) == TokenText(t, m)
  {
    OneChunk(c);
    TokenAlone(t, m);
  }

  lemma TwoDigits(n: nat)
    requires n < 100
    ensures Padded(n, 2) == [Digit(n / 10), Digit(n % 10)]
  {
    OneDigit(n / 10);
  }

  lemma OneDigit(n: nat)
    requires n < 10
    ensures Padded(n, 1) == [Digit(n)]
  {
    assert Padded(n / 10, 0) == "" && n % 10 == n;
  }

  lemma PaddedAppend(a: nat, b: nat)
    requires b < 100
    ensures Padded(100 * a + b, 4) == Padded(a, 2) + Padded(b, 2)
  {
    var n := 100 * a + b;
    SplitHundreds(a, b);
    assert Padded(n, 4) == Padded(n / 10, 3) + [Digit(n % 10)];
    assert Padded(n / 10, 3) == Padded(n / 10 / 10, 2) + [Digit(n / 10 % 10)];
    TwoDigits(b);
  }

  lemma SplitHundreds(a: nat, b: nat)
    requires b < 100
    ensures (100 * a + b) / 10 / 10 == a && (100 * a + b) / 10 % 10 == b / 10 && (100 * a + b) % 10 == b % 10
  {
  }

  /** An element of two digits. */
  lemma WrittenTwo(c: Chunk, e: Element, tens: nat, ones: nat)
    requires ChunkTokens(c) == [Part(e)] && Width(e) == 2 && tens < 10 && ones < 10
    requires REFERENCE(e) == 10 * tens + ones && !e.Sign?
    ensures Written([c], REFERENCE) == [Digit(tens), Digit(ones)]
  {
    WrittenOne(c, Part(e), REFERENCE);
    TwoDigits(10 * tens + ones);
  }

  lemma YearText()
    ensures Written([LongYear], REFERENCE) == "2006"
  {
    WrittenOne(LongYear, Part(Year), REFERENCE);
    PaddedAppend(20, 6);
    TwoDigits(20);
    TwoDigits(6);
  }

  lemma DateParts()
    ensures Written([ZeroMonth], REFERENCE) == "01" && Written([ZeroDay], REFERENCE) == "02"
    ensures Written([Char('-')], REFERENCE) == "-"
  {
    WrittenTwo(ZeroMonth, Month, 0, 1);
    WrittenTwo(ZeroDay, Day, 0, 2);
    WrittenOne(Char('-'), Verbatim("-"), REFERENCE);
  }

  lemma WrittenFive(a: Chunk, b: Chunk, c: Chunk, d: Chunk, e: Chunk, m: Moment)
    ensures Written([a, b, c, d, e], m)
         == Written([a], m) + Written([b], m) + Written([c], m) + Written([d], m) + Written([e], m)
  {
    assert [a, b, c, d, e] == [a] + [b] + [c] + [d] + [e];
    WrittenAppend([a] + [b] + [c] + [d], [e], m);
    WrittenAppend([a] + [b] + [c], [d], m);
    WrittenAppend([a] + [b], [c], m);
    WrittenAppend([a], [b], m);
  }

  /** `2006-01-02` is the layout of dates. */
  lemma DateLayoutText()
    ensures Written(DATE_LAYOUT, REFERENCE) == "2006-01-02"
  {
    WrittenFive(LongYear, Char('-'), ZeroMonth, Char('-'), ZeroDay, REFERENCE);
    YearText();
    DateParts();
    DateText();
  }

  lemma DateText()
    ensures "2006" + "-" + "01" + "-" + "02" == "2006-01-02"
  {
  }

  lemma ClockParts()
    ensures Written([Hour24], REFERENCE) == "15" && Written([ZeroMinute], REFERENCE) == "04"
    ensures Written([ZeroSecond], REFERENCE) == "05"
  {
    WrittenTwo(Hour24, Hour, 1, 5);
    WrittenTwo(ZeroMinute, Minute, 0, 4);
    WrittenTwo(ZeroSecond, Second, 0, 5);
  }

  lemma ClockMarks()
    ensures Written([Char('T')], REFERENCE) == "T" && Written([Char(':')], REFERENCE) == ":"
  {
    WrittenOne(Char('T'), Verbatim("T"), REFERENCE);
    WrittenOne(Char(':'), Verbatim(":"), REFERENCE);
  }

  lemma ClockLayoutText()
    ensures Written(CLOCK_LAYOUT, REFERENCE) == "T15:04:05"
  {
    var first := [Char('T'), Hour24, Char(':'), ZeroMinute, Char(':')];
    assert CLOCK_LAYOUT == first + [ZeroSecond];
    WrittenAppend(first, [ZeroSecond], REFERENCE);
    WrittenFive(Char('T'), Hour24, Char(':'), ZeroMinute, Char(':'), REFERENCE);
    ClockParts();
    ClockMarks();
    ClockText();
  }

  lemma ClockText()
    ensures "T" + "15" + ":" + "04" + ":" + "05" == "T15:04:05"
  {
  }

  lemma FractionText()
    ensures Written([Fraction3], REFERENCE) == ".000"
  {
    OneChunk(Fraction3);
    assert ChunkTokens(Fraction3) == [Verbatim(".")] + [Part(Millis)];
    WriteAppend([Verbatim(".")], [Part(Millis)], REFERENCE);
    TokenAlone(Verbatim("."), REFERENCE);
    TokenAlone(Part(Millis), REFERENCE);
    TwoDigits(0);
    assert Padded(0, 3) == Padded(0, 2) + [Digit(0)];
  }

  lemma ZoneParts()
    ensures WriteTokens([Part(Sign)], REFERENCE) == "-"
    ensures WriteTokens([Part(OffsetHours)], REFERENCE) == "07"
    ensures WriteTokens([Verbatim(":")], REFERENCE) == ":"
    ensures WriteTokens([Part(OffsetMinutes)], REFERENCE) == "00"
  {
    TokenAlone(Part(Sign), REFERENCE);
    TokenAlone(Part(OffsetHours), REFERENCE);
    TokenAlone(Verbatim(":"), REFERENCE);
    TokenAlone(Part(OffsetMinutes), REFERENCE);
    TwoDigits(7);
    TwoDigits(0);
  }

  lemma WriteFour(a: Token, b: Token, c: Token, d: Token, m: Moment)
    ensures WriteTokens([a, b, c, d], m)
         == WriteTokens([a], m) + WriteTokens([b], m) + WriteTokens([c], m) + WriteTokens([d], m)
  {
    assert [a, b, c, d] == [a] + [b] + [c] + [d];
    WriteAppend([a] + [b] + [c], [d], m);
    WriteAppend([a] + [b], [c], m);
    WriteAppend([a], [b], m);
  }

  lemma ZoneText()
    ensures Written([NumColonZone], REFERENCE) == "-" + "07" + ":" + "00"
  {
    OneChunk(NumColonZone);
    WriteFour(Part(Sign), Part(OffsetHours), Verbatim(":"), Part(OffsetMinutes), REFERENCE);
    ZoneParts();
  }

  /** The layouts are the reference time's own text. */
  lemma LayoutTexts()
    ensures Written(DATE_LAYOUT, REFERENCE) == "2006-01-02"
    ensures Written(TIME_LAYOUT, REFERENCE) == "2006-01-02" + "T15:04:05" + ".000"
    ensures Written(DATETIME_LAYOUT, REFERENCE) == "2006-01-02" + "T15:04:05" + ".000" + ("-" + "07" + ":" + "00")
  {
    WrittenAppend(TIME_LAYOUT, [NumColonZone], REFERENCE);
    WrittenAppend(DATE_LAYOUT + CLOCK_LAYOUT, [Fraction3], REFERENCE);
    WrittenAppend(DATE_LAYOUT, CLOCK_LAYOUT, REFERENCE);
    DateLayoutText();
    ClockLayoutText();
    FractionText();
    ZoneText();
  }
}
