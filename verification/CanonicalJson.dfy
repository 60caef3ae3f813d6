/** The canonical JSON text that the wallet signs: values print the same exactly when they are equal as JSON values. */
module CanonicalJson {
  import opened Prelude
  import opened StableSort
  import opened TextOrder
  import opened Sums
  import CanonicalAmount

  /** A UTF-16 code unit; texts are sequences of them. */
  type Unit = n: int | 0 <= n < 0x10000

  type Text = seq<Unit>

  datatype Json =
    | Null
    | Bool(truth: bool)
    | Int(number: int)
    | Str(text: Text)
    | Arr(items: seq<Json>)
    | Obj(fields: seq<Field>)

  /** The fields of an object in the order they were set. */
  datatype Field = Field(key: Text, value: Json)

  /** Objects have each key once, at every depth. */
  predicate IsValid(v: Json)
  {
    match v
    case Arr(items) => forall i :: 0 <= i < |items| ==> IsValid(items[i])
    case Obj(fields) =>
      && (forall i, j :: 0 <= i < j < |fields| ==> fields[i].key != fields[j].key)
      && (forall i :: 0 <= i < |fields| ==> IsValid(fields[i].value))
    case _ => true
  }

  predicate HasKey(fields: seq<Field>, key: Text) { exists i :: 0 <= i < |fields| && fields[i].key == key }

  /** Equality of JSON values. Objects have the same keys and equal values under them; the order of fields does not count. */
  predicate Same(a: Json, b: Json)
  {
    match (a, b)
    case (Arr(xs), Arr(ys)) => |xs| == |ys| && forall i :: 0 <= i < |xs| ==> Same(xs[i], ys[i])
    case (Obj(xs), Obj(ys)) =>
      && (forall i :: 0 <= i < |xs| ==> HasKey(ys, xs[i].key))
      && (forall j :: 0 <= j < |ys| ==> HasKey(xs, ys[j].key))
      && (forall i, j :: 0 <= i < |xs| && 0 <= j < |ys| && xs[i].key == ys[j].key ==> Same(xs[i].value, ys[j].value))
    case _ => a == b
  }

  // ----- strings

  const QUOTE: Unit := 0x22
  const BACKSLASH: Unit := 0x5C
  const COMMA: Unit := 0x2C
  const COLON: Unit := 0x3A
  const OPEN_LIST: Unit := 0x5B
  const CLOSE_LIST: Unit := 0x5D
  const OPEN_OBJECT: Unit := 0x7B
  const CLOSE_OBJECT: Unit := 0x7D
  const MINUS: Unit := 0x2D

  predicate IsLead(c: Unit) { 0xD800 <= c <= 0xDBFF }

  predicate IsTrail(c: Unit) { 0xDC00 <= c <= 0xDFFF }

  /** A lower-case hexadecimal digit. */
  function HexDigit(n: int): Unit
    requires 0 <= n < 16
  {
    if n < 10 then 0x30 + n else 0x61 + n - 10
  }

  function Hex4(c: Unit): Text
  {
    [HexDigit(c / 4096), HexDigit(c / 256 % 16), HexDigit(c / 16 % 16), HexDigit(c % 16)]
  }

  /** The letter of a two-character escape, if the unit has one. */
  function ShortEscape(c: Unit): Option<Unit>
  {
    if c == QUOTE then Some(QUOTE)
    else if c == BACKSLASH then Some(BACKSLASH)
    else if c == 8 then Some(0x62)
    else if c == 12 then Some(0x66)
    else if c == 10 then Some(0x6E)
    else if c == 13 then Some(0x72)
    else if c == 9 then Some(0x74)
    else None
  }

  /** Units in the first token: two for a surrogate pair, otherwise one. */
  function Width(s: Text): (n: nat)
    requires s != []
    ensures 1 <= n <= |s|
  {
    if IsLead(s[0]) && |s| >= 2 && IsTrail(s[1]) then 2 else 1
  }

  /** What the first token prints as. */
  function Head(s: Text): (t: Text)
    requires s != []
    ensures t != []
  {
    if Width(s) == 2 then s[..2]
    else if ShortEscape(s[0]).Some? then [BACKSLASH, ShortEscape(s[0]).value]
    else if s[0] < 0x20 || IsLead(s[0]) || IsTrail(s[0]) then [BACKSLASH, 0x75] + Hex4(s[0])
    else [s[0]]
  }

  function Escape(s: Text): Text
  {
    if s == [] then [] else Head(s) + Escape(s[Width(s)..])
  }

  function Quote(s: Text): Text { [QUOTE] + Escape(s) + [QUOTE] }

  // ----- printing

  function Ascii(s: string): (t: Text)
    requires CanonicalAmount.AllDigits(s)
    ensures |t| == |s| && forall i :: 0 <= i < |s| ==> t[i] == s[i] as int
  {
    seq(|s|, i requires 0 <= i < |s| => s[i] as int)
  }

  function PrintInt(n: int): Text
  {
    if n < 0 then [MINUS] + Ascii(CanonicalAmount.Digits(-n)) else Ascii(CanonicalAmount.Digits(n))
  }

  function Join(parts: seq<Text>): Text
  {
    if parts == [] then [] else if |parts| == 1 then parts[0] else parts[0] + [COMMA] + Join(parts[1..])
  }

  /** A printed field, still to be put in order. */
  datatype Entry = Entry(key: Text, body: Text)

  function UnitLt(a: Unit, b: Unit): bool { a < b }

  /** Keys are ordered by their code units. */
  function ByKey(a: Entry, b: Entry): bool { LexLe(UnitLt, a.key, b.key) }

  function Pair(e: Entry): Text { Quote(e.key) + [COLON] + e.body }

  function PrintObject(entries: seq<Entry>): Text
  {
    [OPEN_OBJECT] + Join(Column(Sort(ByKey, entries), Pair)) + [CLOSE_OBJECT]
  }

  function Print(v: Json): Text
  {
    match v
    case Null => [0x6E, 0x75, 0x6C, 0x6C]
    case Bool(b) => if b then [0x74, 0x72, 0x75, 0x65] else [0x66, 0x61, 0x6C, 0x73, 0x65]
    case Int(n) => PrintInt(n)
    case Str(s) => Quote(s)
    case Arr(items) =>
      [OPEN_LIST] + Join(seq(|items|, i requires 0 <= i < |items| => Print(items[i]))) + [CLOSE_LIST]
    case Obj(fields) =>
      PrintObject(seq(|fields|, i requires 0 <= i < |fields| => Entry(fields[i].key, Print(fields[i].value))))
  }

  /** The printed items of an array. */
  function Parts(items: seq<Json>): (r: seq<Text>)
    ensures |r| == |items| && forall i :: 0 <= i < |r| ==> r[i] == Print(items[i])
  {
    seq(|items|, i requires 0 <= i < |items| => Print(items[i]))
  }

  /** The printed fields of an object, in the order they were set. */
  function Entries(fields: seq<Field>): (r: seq<Entry>)
    ensures |r| == |fields| && forall i :: 0 <= i < |r| ==> r[i] == Entry(fields[i].key, Print(fields[i].value))
  {
    seq(|fields|, i requires 0 <= i < |fields| => Entry(fields[i].key, Print(fields[i].value)))
  }

  lemma PrintArr(items: seq<Json>)
    ensures Print(Arr(items)) == [OPEN_LIST] + Join(Parts(items)) + [CLOSE_LIST]
  {
    assert Parts(items) == seq(|items|, i requires 0 <= i < |items| => Print(items[i]));
  }

  lemma PrintObj(fields: seq<Field>)
    ensures Print(Obj(fields)) == PrintObject(Entries(fields))
  {
    assert Entries(fields) == seq(|fields|, i requires 0 <= i < |fields| => Entry(fields[i].key, Print(fields[i].value)));
  }

  // ----- strings decode

  lemma HexInjective(a: int, b: int)
    requires 0 <= a < 16 && 0 <= b < 16 && HexDigit(a) == HexDigit(b)
    ensures a == b
  {
  }

  lemma HexDigitsOf(c: int)
    requires 0 <= c < 0x10000
    ensures 0 <= c / 4096 < 16
    ensures c == 4096 * (c / 4096) + 256 * (c / 256 % 16) + 16 * (c / 16 % 16) + c % 16
  {
    var d := c / 16;
    var e := d / 16;
    assert c == 16 * d + c % 16 && d == 16 * e + d % 16 && e == 16 * (e / 16) + e % 16;
    assert c / 256 == e && c / 4096 == e / 16;
  }

  lemma Hex4Injective(c: Unit, d: Unit)
    requires Hex4(c) == Hex4(d)
    ensures c == d
  {
    hide HexDigit;
    HexDigitsOf(c);
    HexDigitsOf(d);
    var h, k := Hex4(c), Hex4(d);
    assert h[0] == k[0] && h[1] == k[1] && h[2] == k[2] && h[3] == k[3];
    HexInjective(c / 4096, d / 4096);
    HexInjective(c / 256 % 16, d / 256 % 16);
    HexInjective(c / 16 % 16, d / 16 % 16);
    HexInjective(c % 16, d % 16);
  }

  /** How a token starts tells what kind it is. */
  lemma HeadKind(s: Text)
    requires s != []
    ensures Head(s)[0] != QUOTE
    ensures Width(s) == 2 ==> Head(s) == s[..2] && IsLead(Head(s)[0])
    ensures Width(s) == 1 && Head(s)[0] != BACKSLASH ==> Head(s) == [s[0]] && !IsLead(s[0])
    ensures Head(s)[0] == BACKSLASH ==>
              && Width(s) == 1 && |Head(s)| >= 2
              && (if Head(s)[1] == 0x75 then Head(s) == [BACKSLASH, 0x75] + Hex4(s[0]) && ShortEscape(s[0]).None?
                  else Head(s) == [BACKSLASH, Head(s)[1]] && ShortEscape(s[0]) == Some(Head(s)[1]))
  {
  }

  lemma EscapeInjective(c: Unit, d: Unit)
    requires ShortEscape(c).Some? && ShortEscape(c) == ShortEscape(d)
    ensures c == d
  {
  }

  lemma SamePrefix(a: Text, b: Text, x: Text, y: Text)
    requires a + x == b + y && |a| == |b|
    ensures a == b && x == y
  {
    assert a == (a + x)[..|a|] && b == (b + y)[..|b|];
    assert x == (a + x)[|a|..] && y == (b + y)[|b|..];
  }

  /** Two printed strings that start alike start with the same token. */
  lemma HeadsDecode(s: Text, t: Text, x: Text, y: Text)
    requires s != [] && t != [] && Head(s) + x == Head(t) + y
    ensures Width(s) == Width(t) && s[..Width(s)] == t[..Width(t)] && x == y
  {
    hide Head, Width, ShortEscape, Hex4;
    HeadKind(s);
    HeadKind(t);
    var h, k := Head(s), Head(t);
    assert h[0] == (h + x)[0] == k[0];
    if h[0] == BACKSLASH {
      assert h[1] == (h + x)[1] == k[1];
      SameLength(s, t);
      SamePrefix(h, k, x, y);
      if h[1] == 0x75 {
        assert h[2..] == Hex4(s[0]) && k[2..] == Hex4(t[0]);
        Hex4Injective(s[0], t[0]);
      } else {
        EscapeInjective(s[0], t[0]);
      }
      assert s[..1] == [s[0]] && t[..1] == [t[0]];
    } else {
      WidthIsOneOrTwo(s);
      WidthIsOneOrTwo(t);
      SamePrefix(h, k, x, y);
      if Width(s) == 1 { assert s[..1] == [s[0]] && t[..1] == [t[0]]; }
    }
  }

  lemma WidthIsOneOrTwo(s: Text)
    requires s != []
    ensures Width(s) == 1 || Width(s) == 2
  {
  }

  lemma SameLength(s: Text, t: Text)
    requires s != [] && t != [] && Head(s)[0] == BACKSLASH == Head(t)[0] && |Head(s)| >= 2 && |Head(t)| >= 2 && Head(s)[1] == Head(t)[1]
    ensures |Head(s)| == |Head(t)|
  {
    HeadKind(s);
    HeadKind(t);
  }

  lemma EscapeCons(s: Text, x: Text)
    requires s != []
    ensures Escape(s) + x == Head(s) + (Escape(s[Width(s)..]) + x)
  {
  }

  /** Only the empty string prints its closing quote at once. */
  lemma EscapeStart(s: Text, x: Text)
    ensures var t := Escape(s) + ([QUOTE] + x);
            t != [] && (t[0] == QUOTE <==> s == []) && (s == [] ==> t == [QUOTE] + x)
  {
    if s != [] {
      EscapeCons(s, [QUOTE] + x);
      HeadKind(s);
    }
  }

  /** An escaped string ends at its closing quote and determines the string. */
  lemma {:induction false} EscapeDecodes(s: Text, t: Text, x: Text, y: Text)
    requires Escape(s) + ([QUOTE] + x) == Escape(t) + ([QUOTE] + y)
    ensures s == t && x == y
    decreases |s|
  {
    hide Head, Width, Escape;
    EscapeStart(s, x);
    EscapeStart(t, y);
    if s == [] {
      SamePrefix([QUOTE], [QUOTE], x, y);
    } else {
      EscapeCons(s, [QUOTE] + x);
      EscapeCons(t, [QUOTE] + y);
      HeadsDecode(s, t, Escape(s[Width(s)..]) + ([QUOTE] + x), Escape(t[Width(t)..]) + ([QUOTE] + y));
      EscapeDecodes(s[Width(s)..], t[Width(t)..], x, y);
      assert s == s[..Width(s)] + s[Width(s)..] && t == t[..Width(t)] + t[Width(t)..];
    }
  }

  lemma QuoteDecodes(s: Text, t: Text, x: Text, y: Text)
    requires Quote(s) + x == Quote(t) + y
    ensures s == t && x == y
  {
    var u, v := Escape(s) + ([QUOTE] + x), Escape(t) + ([QUOTE] + y);
    assert Quote(s) + x == [QUOTE] + u && Quote(t) + y == [QUOTE] + v;
    SamePrefix([QUOTE], [QUOTE], u, v);
    EscapeDecodes(s, t, x, y);
  }

  // ----- numbers decode

  /** What may follow a value: nothing, or a unit that no value contains outside brackets and quotes. */
  predicate Stops(x: Text) { x == [] || x[0] == COMMA || x[0] == CLOSE_LIST || x[0] == CLOSE_OBJECT }

  predicate IsDigitUnit(c: Unit) { 0x30 <= c <= 0x39 }

  lemma DigitsStart(a: string, x: Text)
    requires CanonicalAmount.AllDigits(a)
    ensures if a == [] then Ascii(a) + x == x
            else Ascii(a) + x != [] && IsDigitUnit((Ascii(a) + x)[0]) && Ascii(a) + x == [a[0] as int] + (Ascii(a[1..]) + x)
  {
    if a != [] {
      assert CanonicalAmount.IsDigit(a[0]);
      assert Ascii(a) == [a[0] as int] + Ascii(a[1..]);
    }
  }

  lemma {:induction false} DigitsDecode(a: string, b: string, x: Text, y: Text)
    requires CanonicalAmount.AllDigits(a) && CanonicalAmount.AllDigits(b) && Stops(x) && Stops(y)
    requires Ascii(a) + x == Ascii(b) + y
    ensures a == b && x == y
  {
    DigitsStart(a, x);
    DigitsStart(b, y);
    assert a == [] <==> b == [];
    if a != [] {
      SamePrefix([a[0] as int], [b[0] as int], Ascii(a[1..]) + x, Ascii(b[1..]) + y);
      DigitsDecode(a[1..], b[1..], x, y);
      assert [a[0] as int][0] == [b[0] as int][0];
      assert a == [a[0]] + a[1..] && b == [b[0]] + b[1..];
    }
  }

  lemma NaturalsDecode(n: nat, m: nat, x: Text, y: Text)
    requires Stops(x) && Stops(y) && Ascii(CanonicalAmount.Digits(n)) + x == Ascii(CanonicalAmount.Digits(m)) + y
    ensures n == m && x == y
  {
    DigitsDecode(CanonicalAmount.Digits(n), CanonicalAmount.Digits(m), x, y);
    CanonicalAmount.ParseDigits(n);
    CanonicalAmount.ParseDigits(m);
  }

  lemma IntStart(n: int)
    ensures PrintInt(n) != []
    ensures if n < 0 then PrintInt(n)[0] == MINUS else IsDigitUnit(PrintInt(n)[0])
  {
  }

  lemma NegativeText(n: int, x: Text)
    requires n < 0
    ensures PrintInt(n) + x == [MINUS] + (Ascii(CanonicalAmount.Digits(-n)) + x)
  {
  }

  lemma NegativesDecode(n: int, m: int, x: Text, y: Text)
    requires n < 0 && m < 0 && Stops(x) && Stops(y) && PrintInt(n) + x == PrintInt(m) + y
    ensures n == m && x == y
  {
    hide PrintInt, Ascii;
    NegativeText(n, x);
    NegativeText(m, y);
    SamePrefix([MINUS], [MINUS], Ascii(CanonicalAmount.Digits(-n)) + x, Ascii(CanonicalAmount.Digits(-m)) + y);
    NaturalsDecode(-n, -m, x, y);
  }

  lemma IntsDecode(n: int, m: int, x: Text, y: Text)
    requires Stops(x) && Stops(y) && PrintInt(n) + x == PrintInt(m) + y
    ensures n == m && x == y
  {
    SignsAgree(n, m, x, y);
    if n < 0 {
      NegativesDecode(n, m, x, y);
    } else {
      NaturalsDecode(n, m, x, y);
    }
  }

  lemma SignsAgree(n: int, m: int, x: Text, y: Text)
    requires PrintInt(n) + x == PrintInt(m) + y
    ensures n < 0 <==> m < 0
  {
    hide PrintInt;
    IntStart(n);
    IntStart(m);
    assert PrintInt(n)[0] == (PrintInt(n) + x)[0] == PrintInt(m)[0];
  }

  // ----- lists of parts decode

  /** Followed by anything that may follow a value, the two texts never agree unless they are equal. */
  ghost predicate Apart(p: Text, q: Text)
  {
    forall u, v :: Stops(u) && Stops(v) && p + u == q + v ==> p == q
  }

  predicate StartsValue(p: Text) { p != [] && !Stops(p) }

  predicate IsCloser(c: Unit) { c == CLOSE_LIST || c == CLOSE_OBJECT }

  /** What follows the first part of a list. */
  function AfterFirst(parts: seq<Text>, closer: Unit, x: Text): Text
    requires parts != []
  {
    if |parts| == 1 then [closer] + x else [COMMA] + (Join(parts[1..]) + ([closer] + x))
  }

  lemma ThreeAndRest(a: Text, b: Text, c: Text, d: Text)
    ensures (a + b + c) + d == a + (b + (c + d))
  {
  }

  lemma JoinCons(parts: seq<Text>, closer: Unit, x: Text)
    requires parts != []
    ensures Join(parts) + ([closer] + x) == parts[0] + AfterFirst(parts, closer, x)
  {
    if |parts| > 1 { ThreeAndRest(parts[0], [COMMA], Join(parts[1..]), [closer] + x); }
  }

  /** A list of parts ends at its closing bracket and determines the parts. */
  lemma {:induction false} JoinDecodes(a: seq<Text>, b: seq<Text>, closer: Unit, x: Text, y: Text)
    requires IsCloser(closer)
    requires (forall i :: 0 <= i < |a| ==> StartsValue(a[i])) && (forall i :: 0 <= i < |b| ==> StartsValue(b[i]))
    requires forall i :: 0 <= i < |a| && i < |b| ==> Apart(a[i], b[i])
    requires Join(a) + ([closer] + x) == Join(b) + ([closer] + y)
    ensures a == b && x == y
    decreases |a|
  {
    hide Join, Apart, AfterFirst;
    ListStart(a, closer, x);
    ListStart(b, closer, y);
    if a == [] {
      SamePrefix([closer], [closer], x, y);
    } else {
      JoinCons(a, closer, x);
      JoinCons(b, closer, y);
      AfterStops(a, closer, x);
      AfterStops(b, closer, y);
      FirstPartsAgree(a[0], b[0], AfterFirst(a, closer, x), AfterFirst(b, closer, y));
      RestDecodes(a, b, closer, x, y);
      if |a| > 1 {
        assert forall i :: 0 <= i < |a[1..]| ==> a[1..][i] == a[i + 1];
        assert forall i :: 0 <= i < |b[1..]| ==> b[1..][i] == b[i + 1];
        JoinDecodes(a[1..], b[1..], closer, x, y);
        assert a == [a[0]] + a[1..] && b == [b[0]] + b[1..];
      } else {
        assert a == [a[0]] && b == [b[0]];
      }
    }
  }

  lemma AfterStops(parts: seq<Text>, closer: Unit, x: Text)
    requires parts != [] && IsCloser(closer)
    ensures Stops(AfterFirst(parts, closer, x))
  {
  }

  lemma FirstPartsAgree(p: Text, q: Text, u: Text, v: Text)
    requires Apart(p, q) && Stops(u) && Stops(v) && p + u == q + v
    ensures p == q && u == v
  {
    SamePrefix(p, q, u, v);
  }

  /** Only an empty list starts with its closing bracket. */
  lemma ListStart(parts: seq<Text>, closer: Unit, x: Text)
    requires IsCloser(closer) && forall i :: 0 <= i < |parts| ==> StartsValue(parts[i])
    ensures var t := Join(parts) + ([closer] + x);
            t != [] && (IsCloser(t[0]) <==> parts == []) && (parts == [] ==> t == [closer] + x)
  {
    if parts != [] { JoinCons(parts, closer, x); }
  }

  /** After equal first parts either both lists end or both go on. */
  lemma RestDecodes(a: seq<Text>, b: seq<Text>, closer: Unit, x: Text, y: Text)
    requires a != [] && b != [] && IsCloser(closer) && AfterFirst(a, closer, x) == AfterFirst(b, closer, y)
    ensures |a| == 1 <==> |b| == 1
    ensures |a| == 1 ==> x == y
    ensures |a| > 1 ==> Join(a[1..]) + ([closer] + x) == Join(b[1..]) + ([closer] + y)
  {
    var u, v := AfterFirst(a, closer, x), AfterFirst(b, closer, y);
    assert u[0] == v[0];
    if |a| == 1 {
      SamePrefix([closer], [closer], x, y);
    } else {
      SamePrefix([COMMA], [COMMA], Join(a[1..]) + ([closer] + x), Join(b[1..]) + ([closer] + y));
    }
  }

  // ----- values decode

  /** The first unit of a printed value tells its kind. */
  function Kind(v: Json): int
  {
    match v
    case Null => 0
    case Bool(_) => 1
    case Int(_) => 2
    case Str(_) => 3
    case Arr(_) => 4
    case Obj(_) => 5
  }

  function KindOfUnit(c: Unit): int
  {
    if c == 0x6E then 0
    else if c == 0x74 || c == 0x66 then 1
    else if c == MINUS || IsDigitUnit(c) then 2
    else if c == QUOTE then 3
    else if c == OPEN_LIST then 4
    else if c == OPEN_OBJECT then 5
    else 6
  }

  lemma PrintStart(v: Json)
    ensures Print(v) != [] && KindOfUnit(Print(v)[0]) == Kind(v) && StartsValue(Print(v))
  {
    if v.Int? { IntStart(v.number); }
  }

  lemma SameKind(a: Json, b: Json, x: Text, y: Text)
    requires Print(a) + x == Print(b) + y
    ensures Kind(a) == Kind(b)
  {
    PrintStart(a);
    PrintStart(b);
    assert Print(a)[0] == (Print(a) + x)[0] == Print(b)[0];
  }

  lemma PairText(e: Entry, x: Text)
    ensures Pair(e) + x == Quote(e.key) + ([COLON] + (e.body + x))
  {
    hide Quote;
  }

  lemma PairDecodes(e: Entry, f: Entry, x: Text, y: Text)
    requires Pair(e) + x == Pair(f) + y
    ensures e.key == f.key && e.body + x == f.body + y
  {
    hide Pair, Quote;
    PairText(e, x);
    PairText(f, y);
    QuoteDecodes(e.key, f.key, [COLON] + (e.body + x), [COLON] + (f.body + y));
    SamePrefix([COLON], [COLON], e.body + x, f.body + y);
  }

  lemma PairsApart(e: Entry, f: Entry)
    requires Apart(e.body, f.body)
    ensures Apart(Pair(e), Pair(f))
  {
    forall u, v | Stops(u) && Stops(v) && Pair(e) + u == Pair(f) + v ensures Pair(e) == Pair(f) {
      PairDecodes(e, f, u, v);
    }
  }

  lemma PairStarts(e: Entry)
    ensures StartsValue(Pair(e))
  {
    assert Pair(e)[0] == QUOTE;
  }

  lemma WrapDecodes(open: Unit, close: Unit, p: Text, q: Text, x: Text, y: Text)
    requires ([open] + p + [close]) + x == ([open] + q + [close]) + y
    ensures p + ([close] + x) == q + ([close] + y)
  {
    assert ([open] + p + [close]) + x == [open] + (p + ([close] + x));
    assert ([open] + q + [close]) + y == [open] + (q + ([close] + y));
    SamePrefix([open], [open], p + ([close] + x), q + ([close] + y));
  }

  lemma ArraysDecode(xs: seq<Json>, ys: seq<Json>, x: Text, y: Text)
    requires Print(Arr(xs)) + x == Print(Arr(ys)) + y
    requires forall i :: 0 <= i < |xs| && i < |ys| ==> Apart(Print(xs[i]), Print(ys[i]))
    ensures Parts(xs) == Parts(ys) && x == y
  {
    hide Print, Join;
    PrintArr(xs);
    PrintArr(ys);
    WrapDecodes(OPEN_LIST, CLOSE_LIST, Join(Parts(xs)), Join(Parts(ys)), x, y);
    forall i | 0 <= i < |xs| ensures StartsValue(Parts(xs)[i]) { PrintStart(xs[i]); }
    forall i | 0 <= i < |ys| ensures StartsValue(Parts(ys)[i]) { PrintStart(ys[i]); }
    JoinDecodes(Parts(xs), Parts(ys), CLOSE_LIST, x, y);
  }

  lemma EntriesDecode(a: seq<Entry>, b: seq<Entry>, x: Text, y: Text)
    requires PrintObject(a) + x == PrintObject(b) + y
    requires forall e, f :: e in a && f in b ==> Apart(e.body, f.body)
    ensures multiset(a) == multiset(b) && x == y
  {
    hide Sort, Join, Apart, StartsValue, Pair;
    var sa, sb := Sort(ByKey, a), Sort(ByKey, b);
    SameElements(sa, a);
    SameElements(sb, b);
    var pa, pb := Column(sa, Pair), Column(sb, Pair);
    WrapDecodes(OPEN_OBJECT, CLOSE_OBJECT, Join(pa), Join(pb), x, y);
    forall i | 0 <= i < |pa| ensures StartsValue(pa[i]) { PairStarts(sa[i]); }
    forall i | 0 <= i < |pb| ensures StartsValue(pb[i]) { PairStarts(sb[i]); }
    forall i | 0 <= i < |pa| && i < |pb| ensures Apart(pa[i], pb[i]) {
      assert sa[i] in sa && sb[i] in sb;
      PairsApart(sa[i], sb[i]);
    }
    JoinDecodes(pa, pb, CLOSE_OBJECT, x, y);
    forall i | 0 <= i < |sa| ensures sa[i] == sb[i] {
      assert pa[i] == pb[i] && Pair(sa[i]) + [] == Pair(sb[i]) + [];
      PairDecodes(sa[i], sb[i], [], []);
      assert sa[i].body + [] == sa[i].body && sb[i].body + [] == sb[i].body;
    }
    assert sa == sb;
  }

  /** Equal entries mean a field of the same key and printed value on the other side. */
  lemma FieldFor(xs: seq<Field>, ys: seq<Field>, i: nat) returns (j: nat)
    requires i < |xs| && multiset(Entries(xs)) == multiset(Entries(ys))
    ensures j < |ys| && xs[i].key == ys[j].key && Print(xs[i].value) == Print(ys[j].value)
  {
    hide Print;
    SameElements(Entries(xs), Entries(ys));
    assert Entries(xs)[i] in Entries(ys);
    j :| 0 <= j < |ys| && Entries(ys)[j] == Entries(xs)[i];
  }

  /** A printed value determines the value up to key order and where it ends, whatever may follow it. */
  lemma {:induction false} Decodes(a: Json, b: Json, x: Text, y: Text)
    requires IsValid(a) && IsValid(b)
    requires Stops(x) && Stops(y) && Print(a) + x == Print(b) + y
    ensures Same(a, b) && x == y
    decreases a, 1
  {
    SameKind(a, b, x, y);
    if a.Arr? {
      ItemsDecode(a, b, x, y);
    } else if a.Obj? {
      FieldsDecode(a, b, x, y);
    } else {
      ScalarsDecode(a, b, x, y);
    }
  }

  lemma ScalarsDecode(a: Json, b: Json, x: Text, y: Text)
    requires Stops(x) && Stops(y) && Print(a) + x == Print(b) + y
    requires !a.Arr? && !a.Obj? && Kind(a) == Kind(b)
    ensures Same(a, b) && x == y
  {
    hide PrintInt, Quote;
    match a
    case Null => SamePrefix(Print(a), Print(b), x, y);
    case Bool(_) => TruthsDecode(a, b, x, y);
    case Int(n) => IntsDecode(n, b.number, x, y);
    case Str(s) => QuoteDecodes(s, b.text, x, y);
  }

  lemma TruthsDecode(a: Json, b: Json, x: Text, y: Text)
    requires a.Bool? && b.Bool? && Print(a) + x == Print(b) + y
    ensures a == b && x == y
  {
    assert Print(a)[0] == (Print(a) + x)[0] == Print(b)[0];
    SamePrefix(Print(a), Print(b), x, y);
  }

  lemma {:induction false} ItemsDecode(a: Json, b: Json, x: Text, y: Text)
    requires IsValid(a) && IsValid(b)
    requires a.Arr? && b.Arr? && Stops(x) && Stops(y) && Print(a) + x == Print(b) + y
    ensures Same(a, b) && x == y
    decreases a, 0
  {
    hide Print, Stops, Apart;
    var xs, ys := a.items, b.items;
    forall i | 0 <= i < |xs| && i < |ys| ensures Apart(Print(xs[i]), Print(ys[i])) {
      ValuesApart(xs[i], ys[i]);
    }
    ArraysDecode(xs, ys, x, y);
    forall i | 0 <= i < |xs| ensures Same(xs[i], ys[i]) {
      assert Parts(xs)[i] == Parts(ys)[i];
      SameTexts(xs[i], ys[i]);
    }
  }

  lemma {:induction false} FieldsDecode(a: Json, b: Json, x: Text, y: Text)
    requires IsValid(a) && IsValid(b)
    requires a.Obj? && b.Obj? && Stops(x) && Stops(y) && Print(a) + x == Print(b) + y
    ensures Same(a, b) && x == y
    decreases a, 0
  {
    hide Print, Stops, Apart, Entries;
    var xs, ys := a.fields, b.fields;
    forall i, j | 0 <= i < |xs| && 0 <= j < |ys| ensures Apart(Print(xs[i].value), Print(ys[j].value)) {
      ValuesApart(xs[i].value, ys[j].value);
    }
    ObjectsDecode(xs, ys, x, y);
    forall i | 0 <= i < |xs| ensures HasKey(ys, xs[i].key) { var j := FieldFor(xs, ys, i); }
    forall j | 0 <= j < |ys| ensures HasKey(xs, ys[j].key) { var i := FieldFor(ys, xs, j); }
    forall i, j | 0 <= i < |xs| && 0 <= j < |ys| && xs[i].key == ys[j].key ensures Same(xs[i].value, ys[j].value) {
      var k := FieldFor(xs, ys, i);
      OneField(ys, k, j);
      SameTexts(xs[i].value, ys[j].value);
    }
  }

  lemma OneField(fields: seq<Field>, i: nat, j: nat)
    requires IsValid(Obj(fields)) && i < |fields| && j < |fields| && fields[i].key == fields[j].key
    ensures i == j
  {
  }

  lemma {:induction false} SameTexts(a: Json, b: Json)
    requires IsValid(a) && IsValid(b)
    requires Print(a) == Print(b)
    ensures Same(a, b)
    decreases a, 2
  {
    Decodes(a, b, [], []);
  }

  lemma ObjectsDecode(xs: seq<Field>, ys: seq<Field>, x: Text, y: Text)
    requires Print(Obj(xs)) + x == Print(Obj(ys)) + y
    requires forall i, j :: 0 <= i < |xs| && 0 <= j < |ys| ==> Apart(Print(xs[i].value), Print(ys[j].value))
    ensures multiset(Entries(xs)) == multiset(Entries(ys)) && x == y
  {
    hide Print, Apart;
    PrintObj(xs);
    PrintObj(ys);
    EntriesDecode(Entries(xs), Entries(ys), x, y);
  }

  lemma {:induction false} ValuesApart(a: Json, b: Json)
    requires IsValid(a) && IsValid(b)
    ensures Apart(Print(a), Print(b))
    decreases a, 2
  {
    forall u, v | Stops(u) && Stops(v) && Print(a) + u == Print(b) + v ensures Print(a) == Print(b) {
      Decodes(a, b, u, v);
      assert |Print(a)| == |Print(b)|;
      SamePrefix(Print(a), Print(b), u, v);
    }
  }

  // ----- equal values print the same

  ghost predicate DistinctKeys(es: seq<Entry>) { forall i, j :: 0 <= i < j < |es| ==> es[i].key != es[j].key }

  lemma UnitOrder()
    ensures StrictTotal(UnitLt) && TotalPreorder(ByKey)
  {
    assert StrictTotal(UnitLt);
    forall e, f ensures ByKey(e, f) || ByKey(f, e) { LexTotal(UnitLt, e.key, f.key); }
    forall e, f, g | ByKey(e, f) && ByKey(f, g) ensures ByKey(e, g) { LexTransitive(UnitLt, e.key, f.key, g.key); }
  }

  lemma DistinctEntries(es: seq<Entry>)
    requires DistinctKeys(es)
    ensures Distinct(es)
  {
  }

  /** The same entries under distinct keys print the same object, whatever order they were set in. */
  lemma OrderIrrelevant(a: seq<Entry>, b: seq<Entry>)
    requires DistinctKeys(a) && DistinctKeys(b) && forall e :: e in a <==> e in b
    ensures PrintObject(a) == PrintObject(b)
  {
    hide LexLe, Sort, PrintObject;
    forall e ensures multiset(a)[e] == multiset(b)[e] {
      DistinctEntries(a);
      DistinctEntries(b);
      CountOnce(a, e);
      CountOnce(b, e);
      assert e in a <==> e in multiset(a);
      assert e in b <==> e in multiset(b);
    }
    assert multiset(a) == multiset(b);
    UnitOrder();
    SortSorted(ByKey, a);
    SortSorted(ByKey, b);
    SameElements(Sort(ByKey, a), a);
    forall e, f | e in a && f in a && ByKey(e, f) && ByKey(f, e) ensures e == f {
      LexAntisymmetric(UnitLt, e.key, f.key);
      var i :| 0 <= i < |a| && a[i] == e;
      var j :| 0 <= j < |a| && a[j] == f;
    }
    SortedUnique(ByKey, Sort(ByKey, a), Sort(ByKey, b));
    SortedPrints(a, b);
  }

  lemma SortedPrints(a: seq<Entry>, b: seq<Entry>)
    requires Sort(ByKey, a) == Sort(ByKey, b)
    ensures PrintObject(a) == PrintObject(b)
  {
  }

  lemma {:induction false} SamePrints(a: Json, b: Json)
    requires IsValid(a) && IsValid(b) && Same(a, b)
    ensures Print(a) == Print(b)
    decreases a, 1
  {
    if a.Arr? {
      SameItemsPrint(a, b);
    } else if a.Obj? {
      SameFieldsPrint(a, b);
    }
  }

  lemma {:induction false} SameItemsPrint(a: Json, b: Json)
    requires a.Arr? && IsValid(a) && IsValid(b) && Same(a, b)
    ensures Print(a) == Print(b)
    decreases a, 0
  {
    hide Print;
    var xs, ys := a.items, b.items;
    forall i | 0 <= i < |xs| ensures Parts(xs)[i] == Parts(ys)[i] { SamePrints(xs[i], ys[i]); }
    PrintArr(xs);
    PrintArr(ys);
    assert Parts(xs) == Parts(ys);
  }

  lemma {:induction false} SameFieldsPrint(a: Json, b: Json)
    requires a.Obj? && b.Obj? && IsValid(a) && IsValid(b) && Same(a, b)
    ensures Print(a) == Print(b)
    decreases a, 0
  {
    hide Print, Same;
    var xs, ys := a.fields, b.fields;
    forall i, j | 0 <= i < |xs| && 0 <= j < |ys| && Same(xs[i].value, ys[j].value)
      ensures Print(xs[i].value) == Print(ys[j].value)
    {
      SamePrints(xs[i].value, ys[j].value);
    }
    SameEntries(xs, ys);
    OrderIrrelevant(Entries(xs), Entries(ys));
    PrintObj(xs);
    PrintObj(ys);
  }

  lemma TwinOf(xs: seq<Field>, ys: seq<Field>, i: nat) returns (j: nat)
    requires Same(Obj(xs), Obj(ys)) && i < |xs|
    ensures j < |ys| && xs[i].key == ys[j].key && Same(xs[i].value, ys[j].value)
  {
    assert HasKey(ys, xs[i].key);
    j :| 0 <= j < |ys| && ys[j].key == xs[i].key;
  }

  lemma TwinBack(xs: seq<Field>, ys: seq<Field>, j: nat) returns (i: nat)
    requires Same(Obj(xs), Obj(ys)) && j < |ys|
    ensures i < |xs| && xs[i].key == ys[j].key && Same(xs[i].value, ys[j].value)
  {
    assert HasKey(xs, ys[j].key);
    i :| 0 <= i < |xs| && xs[i].key == ys[j].key;
  }

  lemma KeysStayDistinct(xs: seq<Field>)
    requires IsValid(Obj(xs))
    ensures DistinctKeys(Entries(xs))
  {
    hide Print;
  }

  lemma SameEntries(xs: seq<Field>, ys: seq<Field>)
    requires IsValid(Obj(xs)) && IsValid(Obj(ys)) && Same(Obj(xs), Obj(ys))
    requires forall i, j :: 0 <= i < |xs| && 0 <= j < |ys| && Same(xs[i].value, ys[j].value) ==> Print(xs[i].value) == Print(ys[j].value)
    ensures DistinctKeys(Entries(xs)) && DistinctKeys(Entries(ys))
    ensures forall e :: e in Entries(xs) <==> e in Entries(ys)
  {
    hide Print, Same, IsValid, DistinctKeys;
    KeysStayDistinct(xs);
    KeysStayDistinct(ys);
    forall e | e in Entries(xs) ensures e in Entries(ys) {
      var i :| 0 <= i < |xs| && Entries(xs)[i] == e;
      var j := TwinOf(xs, ys, i);
      assert Entries(ys)[j] == e;
    }
    forall e | e in Entries(ys) ensures e in Entries(xs) {
      var j :| 0 <= j < |ys| && Entries(ys)[j] == e;
      var i := TwinBack(xs, ys, j);
      assert Entries(xs)[i] == e;
    }
  }

  /** Two values print the same text exactly when they are equal as JSON values. */
  lemma PrintsSameIff(a: Json, b: Json)
    requires IsValid(a) && IsValid(b)
    ensures Print(a) == Print(b) <==> Same(a, b)
  {
    if Same(a, b) {
      SamePrints(a, b);
    }
    if Print(a) == Print(b) {
      SameTexts(a, b);
    }
  }
}
