/** A reader of compact JSON texts, the grammar of RFC 8259 with no white space, defined apart from the printer; and what
    it reads in a printed value: the value itself, with the fields of every object in ascending order of their keys. */
module CanonicalJsonReader {
  import opened Prelude
  import opened StableSort
  import opened TextOrder
  import opened Sums
  import opened CanonicalJson
  import CanonicalAmount

  /** The code units of a text in ASCII. */
  function Chars(s: string): (t: Text)
    requires forall i :: 0 <= i < |s| ==> s[i] as int < 0x80
    ensures |t| == |s| && forall i :: 0 <= i < |s| ==> t[i] == s[i] as int
  {
    seq(|s|, i requires 0 <= i < |s| => s[i] as int)
  }

  // ----- numbers (section 6 of RFC 8259, whole numbers only)

  predicate IsDecimal(t: Text)
  {
    t != [] && (forall i :: 0 <= i < |t| ==> '0' as int <= t[i] <= '9' as int) && (|t| > 1 ==> t[0] != '0' as int)
  }

  function DecimalValue(t: Text): int
  {
    if t == [] then 0 else 10 * DecimalValue(t[..|t| - 1]) + t[|t| - 1] - '0' as int
  }

  predicate ReadsInt(t: Text, n: int)
  {
    || (IsDecimal(t) && n == DecimalValue(t))
    || (t != [] && t[0] == '-' as int && IsDecimal(t[1..]) && n == -DecimalValue(t[1..]))
  }

  // ----- strings (section 7 of RFC 8259)

  function HexDigitValue(c: Unit): Option<int>
  {
    if '0' as int <= c <= '9' as int then Some(c - '0' as int)
    else if 'a' as int <= c <= 'f' as int then Some(c - 'a' as int + 10)
    else if 'A' as int <= c <= 'F' as int then Some(c - 'A' as int + 10)
    else None
  }

  /** Four hexadecimal digits and the code unit they spell. */
  predicate ReadsHex(t: Text, c: Unit)
  {
    && |t| == 4 && (forall i :: 0 <= i < 4 ==> HexDigitValue(t[i]).Some?)
    && c == 4096 * HexDigitValue(t[0]).value + 256 * HexDigitValue(t[1]).value + 16 * HexDigitValue(t[2]).value + HexDigitValue(t[3]).value
  }

  /** What a letter stands for after a backslash. */
  function EscapedUnit(letter: Unit): Option<Unit>
  {
    if letter == '"' as int then Some(0x22)
    else if letter == '\\' as int then Some(0x5C)
    else if letter == '/' as int then Some(0x2F)
    else if letter == 'b' as int then Some(0x08)
    else if letter == 'f' as int then Some(0x0C)
    else if letter == 'n' as int then Some(0x0A)
    else if letter == 'r' as int then Some(0x0D)
    else if letter == 't' as int then Some(0x09)
    else None
  }

  /** The text between two quotes, and the string it stands for. */
  predicate ReadsChars(t: Text, s: Text)
    decreases |t|
  {
    if t == [] then s == []
    else if t[0] != '\\' as int then
      t[0] >= 0x20 && t[0] != '"' as int && s != [] && s[0] == t[0] && ReadsChars(t[1..], s[1..])
    else if |t| >= 6 && t[1] == 'u' as int then
      s != [] && ReadsHex(t[2..6], s[0]) && ReadsChars(t[6..], s[1..])
    else
      |t| >= 2 && s != [] && EscapedUnit(t[1]) == Some(s[0]) && ReadsChars(t[2..], s[1..])
  }

  predicate ReadsString(t: Text, s: Text)
  {
    |t| >= 2 && t[0] == '"' as int && t[|t| - 1] == '"' as int && ReadsChars(t[1..|t| - 1], s)
  }

  // ----- values (sections 3, 4 and 5 of RFC 8259)

  /** Texts with a comma between each two. */
  function CommaSeparated(parts: seq<Text>): Text
  {
    if |parts| <= 1 then if parts == [] then [] else parts[0]
    else CommaSeparated(parts[..|parts| - 1]) + [',' as int] + parts[|parts| - 1]
  }

  predicate IsWrapped(t: Text, open: char, parts: seq<Text>, close: char)
    requires open as int < 0x80 && close as int < 0x80
  {
    t == [open as int] + CommaSeparated(parts) + [close as int]
  }

  /** The text spells the value. Objects are read with their fields in the order of the text. */
  ghost predicate Reads(t: Text, v: Json)
    decreases v, 0
  {
    match v
    case Null => t == Chars("null")
    case Bool(b) => t == if b then Chars("true") else Chars("false")
    case Int(n) => ReadsInt(t, n)
    case Str(s) => ReadsString(t, s)
    case Arr(items) =>
      exists parts: seq<Text> :: |parts| == |items| && IsWrapped(t, '[', parts, ']') && forall i :: 0 <= i < |items| ==> Reads(parts[i], items[i])
    case Obj(fields) =>
      exists parts: seq<Text> :: |parts| == |fields| && IsWrapped(t, '{', parts, '}')
                                 && forall i :: 0 <= i < |fields| ==> ReadsField(parts[i], fields[i].key, fields[i].value)
  }

  ghost predicate ReadsField(t: Text, key: Text, value: Json)
    decreases value, 1
  {
    exists k: Text, x: Text :: t == k + [':' as int] + x && ReadsString(k, key) && Reads(x, value)
  }

  /** Keys in ascending order of their code units, in objects at every depth. */
  ghost predicate KeysAscend(v: Json)
  {
    match v
    case Arr(items) => forall i :: 0 <= i < |items| ==> KeysAscend(items[i])
    case Obj(fields) =>
      && (forall i, j :: 0 <= i < j < |fields| ==> Precedes((a: Unit, b: Unit) => a < b, fields[i].key, fields[j].key))
      && (forall i :: 0 <= i < |fields| ==> KeysAscend(fields[i].value))
    case _ => true
  }

  // ----- printed numbers

  lemma {:induction false} DecimalOfDigits(s: string)
    requires CanonicalAmount.AllDigits(s)
    ensures DecimalValue(Ascii(s)) == CanonicalAmount.Parse(s)
  {
    if s != "" {
      var front := s[..|s| - 1];
      DecimalOfDigits(front);
      assert CanonicalAmount.IsDigit(s[|s| - 1]);
      assert Ascii(s)[..|s| - 1] == Ascii(front);
    }
  }

  lemma NaturalReads(n: nat)
    ensures var t := Ascii(CanonicalAmount.Digits(n)); IsDecimal(t) && DecimalValue(t) == n
  {
    var s := CanonicalAmount.Digits(n);
    CanonicalAmount.ParseDigits(n);
    DecimalOfDigits(s);
    assert forall i :: 0 <= i < |s| ==> CanonicalAmount.IsDigit(s[i]);
  }

  lemma IntReads(n: int)
    ensures ReadsInt(PrintInt(n), n)
  {
    if n < 0 {
      NaturalReads(-n);
      assert PrintInt(n)[1..] == Ascii(CanonicalAmount.Digits(-n));
    } else {
      NaturalReads(n);
    }
  }

  // ----- printed strings

  lemma HexReads(c: Unit)
    ensures ReadsHex(Hex4(c), c)
  {
    HexDigitsOf(c);
  }

  /** One printed token in front of a text. */
  lemma TokenReads(s: Text, rest: Text)
    requires s != [] && ReadsChars(rest, s[Width(s)..])
    ensures ReadsChars(Head(s) + rest, s)
  {
    hide ReadsHex, Hex4;
    var t := Head(s) + rest;
    HeadKind(s);
    if Width(s) == 2 {
      PairReads(s, rest);
    } else if Head(s)[0] == BACKSLASH {
      if Head(s)[1] == 0x75 {
        HexReads(s[0]);
        assert t[2..6] == Hex4(s[0]) && t[6..] == rest;
      } else {
        assert t[2..] == rest;
      }
    } else {
      assert t[1..] == rest;
    }
  }

  lemma PairReads(s: Text, rest: Text)
    requires s != [] && Width(s) == 2 && ReadsChars(rest, s[2..])
    ensures ReadsChars(Head(s) + rest, s)
  {
    var t := Head(s) + rest;
    assert t[1..][1..] == rest && s[1..][1..] == s[2..];
    assert t[0] == s[0] && t[1..][0] == s[1..][0] == s[1];
    assert ReadsChars(t[1..], s[1..]);
  }

  lemma {:induction false} EscapeReads(s: Text)
    ensures ReadsChars(Escape(s), s)
    decreases |s|
  {
    hide Head, Width, ReadsChars;
    if s == [] {
      NothingReads();
    } else {
      EscapeReads(s[Width(s)..]);
      TokenReads(s, Escape(s[Width(s)..]));
    }
  }

  lemma NothingReads()
    ensures ReadsChars([], [])
  {
  }

  lemma QuoteReads(s: Text)
    ensures ReadsString(Quote(s), s)
  {
    EscapeReads(s);
    assert Quote(s)[1..|Quote(s)| - 1] == Escape(s);
  }

  // ----- printed lists

  lemma {:induction false} JoinSeparates(parts: seq<Text>)
    ensures Join(parts) == CommaSeparated(parts)
    decreases |parts|
  {
    if |parts| > 1 {
      var front, last := parts[..|parts| - 1], parts[|parts| - 1];
      JoinSeparates(front);
      JoinSnoc(front, last);
      assert parts == front + [last];
    }
  }

  lemma {:induction false} JoinSnoc(front: seq<Text>, last: Text)
    requires front != []
    ensures Join(front + [last]) == Join(front) + [COMMA] + last
    decreases |front|
  {
    var all := front + [last];
    assert all[1..] == front[1..] + [last];
    if |front| > 1 {
      JoinSnoc(front[1..], last);
      assert front[0] + [COMMA] + (Join(front[1..]) + [COMMA] + last) == (front[0] + [COMMA] + Join(front[1..])) + [COMMA] + last;
    } else {
      assert front[1..] == [] && all[1..] == [last] && Join([last]) == last;
    }
  }

  // ----- printed values

  lemma ScalarReads(v: Json)
    requires !v.Arr? && !v.Obj?
    ensures Reads(Print(v), v) && KeysAscend(v) && Same(v, v)
  {
    match v
    case Null =>
    case Bool(b) =>
    case Int(n) => IntReads(n);
    case Str(s) => QuoteReads(s);
  }

  /** What is read in a printed value is the value, with the fields of every object in the order of their keys. */
  lemma {:induction false} PrintReads(v: Json) returns (w: Json)
    requires IsValid(v)
    ensures Reads(Print(v), w) && Same(v, w) && KeysAscend(w)
    decreases v, 1, 0
  {
    hide Print, Reads, KeysAscend, Same;
    if v.Arr? {
      var ws := ItemsRead(v.items, |v.items|);
      w := Arr(ws);
      ArrReads(v.items, ws);
    } else if v.Obj? {
      var es := Sort(ByKey, Entries(v.fields));
      SameElements(es, Entries(v.fields));
      var ws := EntriesRead(v.fields, es);
      w := Obj(ws);
      ObjReads(v.fields, es, ws);
    } else {
      w := v;
      ScalarReads(v);
    }
  }

  lemma {:induction false} ItemsRead(items: seq<Json>, n: nat) returns (ws: seq<Json>)
    requires IsValid(Arr(items)) && n <= |items|
    ensures |ws| == n && forall i :: 0 <= i < n ==> Reads(Print(items[i]), ws[i]) && Same(items[i], ws[i]) && KeysAscend(ws[i])
    decreases Arr(items), 0, n
  {
    hide Print, Reads, KeysAscend, Same;
    ws := [];
    if n > 0 {
      var front := ItemsRead(items, n - 1);
      var w := PrintReads(items[n - 1]);
      ws := front + [w];
    }
  }

  lemma ArrReads(items: seq<Json>, ws: seq<Json>)
    requires |ws| == |items|
    requires forall i :: 0 <= i < |items| ==> Reads(Print(items[i]), ws[i]) && Same(items[i], ws[i]) && KeysAscend(ws[i])
    ensures Reads(Print(Arr(items)), Arr(ws)) && Same(Arr(items), Arr(ws)) && KeysAscend(Arr(ws))
  {
    hide Print;
    PrintArr(items);
    JoinSeparates(Parts(items));
    assert IsWrapped(Print(Arr(items)), '[', Parts(items), ']');
  }

  /** A field read from a printed entry. */
  ghost predicate IsReadOf(fields: seq<Field>, e: Entry, w: Field)
  {
    && w.key == e.key && Reads(e.body, w.value) && KeysAscend(w.value)
    && exists i :: 0 <= i < |fields| && fields[i].key == w.key && Same(fields[i].value, w.value)
  }

  lemma {:induction false} EntriesRead(fields: seq<Field>, es: seq<Entry>) returns (ws: seq<Field>)
    requires IsValid(Obj(fields)) && forall e :: e in es ==> e in Entries(fields)
    ensures |ws| == |es| && forall k :: 0 <= k < |es| ==> IsReadOf(fields, es[k], ws[k])
    decreases Obj(fields), 0, |es|
  {
    hide Print, Reads, KeysAscend, Same, IsReadOf;
    ws := [];
    if es != [] {
      var front, e := es[..|es| - 1], es[|es| - 1];
      var before := EntriesRead(fields, front);
      assert e in Entries(fields);
      var i :| 0 <= i < |fields| && Entries(fields)[i] == e;
      var w := PrintReads(fields[i].value);
      ReadOne(fields, e, i, w);
      ws := before + [Field(e.key, w)];
    }
  }

  lemma ReadOne(fields: seq<Field>, e: Entry, i: nat, w: Json)
    requires i < |fields| && e == Entry(fields[i].key, Print(fields[i].value))
    requires Reads(Print(fields[i].value), w) && Same(fields[i].value, w) && KeysAscend(w)
    ensures IsReadOf(fields, e, Field(e.key, w))
  {
    hide Print, Reads, KeysAscend, Same;
    assert fields[i].key == Field(e.key, w).key && Same(fields[i].value, Field(e.key, w).value);
  }

  lemma PairIsField(e: Entry, w: Field)
    requires w.key == e.key && Reads(e.body, w.value)
    ensures ReadsField(Pair(e), w.key, w.value)
  {
    hide Reads, ReadsString, Quote;
    QuoteReads(e.key);
    assert Pair(e) == Quote(e.key) + [':' as int] + e.body;
  }

  lemma EntriesAscend(fields: seq<Field>, es: seq<Entry>)
    requires IsValid(Obj(fields)) && es == Sort(ByKey, Entries(fields))
    ensures forall i, j :: 0 <= i < j < |es| ==> Precedes((a: Unit, b: Unit) => a < b, es[i].key, es[j].key)
  {
    hide Print, LexLe, Precedes, Sort;
    UnitOrder();
    SortSorted(ByKey, Entries(fields));
    KeysStayDistinct(fields);
    DistinctEntries(Entries(fields));
    DistinctPermute(Entries(fields), es);
    SameElements(es, Entries(fields));
    forall i, j | 0 <= i < j < |es| ensures Precedes((a: Unit, b: Unit) => a < b, es[i].key, es[j].key) {
      LexPrecedes(UnitLt, es[i].key, es[j].key);
      assert es[i] in Entries(fields) && es[j] in Entries(fields);
      var m :| 0 <= m < |fields| && Entries(fields)[m] == es[i];
      var n :| 0 <= n < |fields| && Entries(fields)[n] == es[j];
      assert m != n;
      SameOrder(es[i].key, es[j].key);
    }
  }

  lemma SameOrder(a: Text, b: Text)
    ensures Precedes(UnitLt, a, b) <==> Precedes((a: Unit, b: Unit) => a < b, a, b)
  {
  }

  lemma ObjReads(fields: seq<Field>, es: seq<Entry>, ws: seq<Field>)
    requires IsValid(Obj(fields)) && es == Sort(ByKey, Entries(fields))
    requires |ws| == |es| && forall k :: 0 <= k < |es| ==> IsReadOf(fields, es[k], ws[k])
    ensures Reads(Print(Obj(fields)), Obj(ws)) && Same(Obj(fields), Obj(ws)) && KeysAscend(Obj(ws))
  {
    ObjText(fields, es, ws);
    ObjSame(fields, es, ws);
    EntriesAscend(fields, es);
  }

  lemma ObjText(fields: seq<Field>, es: seq<Entry>, ws: seq<Field>)
    requires es == Sort(ByKey, Entries(fields))
    requires |ws| == |es| && forall k :: 0 <= k < |es| ==> IsReadOf(fields, es[k], ws[k])
    ensures Reads(Print(Obj(fields)), Obj(ws))
  {
    hide Print, ReadsField, Pair, KeysAscend, Same, Sort;
    PrintObj(fields);
    var parts := Column(es, Pair);
    JoinSeparates(parts);
    forall i | 0 <= i < |ws| ensures ReadsField(parts[i], ws[i].key, ws[i].value) { PairIsField(es[i], ws[i]); }
    assert IsWrapped(Print(Obj(fields)), '{', parts, '}');
  }

  lemma ObjSame(fields: seq<Field>, es: seq<Entry>, ws: seq<Field>)
    requires IsValid(Obj(fields)) && es == Sort(ByKey, Entries(fields))
    requires |ws| == |es| && forall k :: 0 <= k < |es| ==> IsReadOf(fields, es[k], ws[k])
    ensures Same(Obj(fields), Obj(ws))
  {
    hide Print, Reads, KeysAscend, Sort;
    SameElements(es, Entries(fields));
    forall i | 0 <= i < |fields| ensures HasKey(ws, fields[i].key) {
      assert Entries(fields)[i] in es;
      var k :| 0 <= k < |es| && es[k] == Entries(fields)[i];
      assert IsReadOf(fields, es[k], ws[k]);
    }
    forall j | 0 <= j < |ws| ensures HasKey(fields, ws[j].key) { assert IsReadOf(fields, es[j], ws[j]); }
    forall i, j | 0 <= i < |fields| && 0 <= j < |ws| && fields[i].key == ws[j].key ensures Same(fields[i].value, ws[j].value) {
      assert IsReadOf(fields, es[j], ws[j]);
      var k :| 0 <= k < |fields| && fields[k].key == ws[j].key && Same(fields[k].value, ws[j].value);
      OneField(fields, i, k);
    }
  }

  // ----- a text spells one value

  lemma DecimalStart(a: Text, x: Text)
    requires forall i :: 0 <= i < |a| ==> IsDigitUnit(a[i])
    ensures if a == [] then a + x == x else a + x != [] && (a + x)[0] == a[0] && IsDigitUnit((a + x)[0])
  {
  }

  lemma {:induction false} DecimalsEnd(a: Text, b: Text, x: Text, y: Text)
    requires (forall i :: 0 <= i < |a| ==> IsDigitUnit(a[i])) && (forall i :: 0 <= i < |b| ==> IsDigitUnit(b[i]))
    requires Stops(x) && Stops(y) && a + x == b + y
    ensures a == b && x == y
  {
    DecimalStart(a, x);
    DecimalStart(b, y);
    assert a == [] <==> b == [];
    if a != [] {
      assert a[1..] + x == (a + x)[1..] == (b + y)[1..] == b[1..] + y;
      DecimalsEnd(a[1..], b[1..], x, y);
      assert a == [a[0]] + a[1..] && b == [b[0]] + b[1..];
    }
  }

  lemma IntsEnd(p: Text, q: Text, n: int, m: int, x: Text, y: Text)
    requires ReadsInt(p, n) && ReadsInt(q, m) && Stops(x) && Stops(y) && p + x == q + y
    ensures p == q && n == m && x == y
  {
    assert p[0] == (p + x)[0] == (q + y)[0] == q[0];
    if p[0] == '-' as int {
      assert p[1..] + x == (p + x)[1..] == (q + y)[1..] == q[1..] + y;
      DecimalsEnd(p[1..], q[1..], x, y);
      assert p == [p[0]] + p[1..] && q == [q[0]] + q[1..];
    } else {
      DecimalsEnd(p, q, x, y);
    }
  }

  /** How many units of a string's text spell its first unit. */
  function TokenSize(t: Text): (n: nat)
    requires t != []
  {
    if t[0] != '\\' as int then 1 else if |t| >= 6 && t[1] == 'u' as int then 6 else 2
  }

  lemma TokenSplits(t: Text, s: Text)
    requires t != [] && ReadsChars(t, s)
    ensures s != [] && TokenSize(t) <= |t| && ReadsChars(t[TokenSize(t)..], s[1..]) && t[0] != '"' as int
  {
  }

  /** How a token starts tells what it spells. */
  lemma TokenSpells(t: Text, s: Text)
    requires t != [] && ReadsChars(t, s)
    ensures s != []
    ensures t[0] != '\\' as int ==> TokenSize(t) == 1 && s[0] == t[0]
    ensures t[0] == '\\' as int ==>
              && |t| >= 2
              && (t[1] == 'u' as int ==> TokenSize(t) == 6 <= |t| && ReadsHex(t[2..6], s[0]))
              && (t[1] != 'u' as int ==> TokenSize(t) == 2 && EscapedUnit(t[1]) == Some(s[0]))
  {
    hide ReadsHex;
  }

  lemma SplitAt(a: Text, b: Text, x: Text, y: Text, n: nat)
    requires a + x == b + y && n <= |a| && n <= |b|
    ensures a[..n] == b[..n] && a[n..] + x == b[n..] + y
  {
    assert a[..n] == (a + x)[..n] && b[..n] == (b + y)[..n];
    assert a[n..] + x == (a + x)[n..] && b[n..] + y == (b + y)[n..];
  }

  lemma TokensAgree(a: Text, b: Text, s: Text, r: Text, x: Text, y: Text)
    requires a != [] && b != [] && ReadsChars(a, s) && ReadsChars(b, r) && a + x == b + y
    ensures s != [] && r != [] && TokenSize(a) == TokenSize(b) && TokenSize(a) <= |a| && TokenSize(b) <= |b|
    ensures a[..TokenSize(a)] == b[..TokenSize(b)] && s[0] == r[0]
    ensures a[TokenSize(a)..] + x == b[TokenSize(b)..] + y
  {
    hide ReadsChars, TokenSize, ReadsHex;
    TokenSpells(a, s);
    TokenSpells(b, r);
    SplitAt(a, b, x, y, 1);
    assert a[..1] == [a[0]] && b[..1] == [b[0]];
    if a[0] == '\\' as int {
      SplitAt(a, b, x, y, 2);
      assert a[..2][1] == a[1] && b[..2][1] == b[1];
      if a[1] == 'u' as int {
        SplitAt(a, b, x, y, 6);
        assert a[2..6] == a[..6][2..] && b[2..6] == b[..6][2..];
        HexSpellsOne(a[2..6], s[0], r[0]);
      }
    }
  }

  lemma HexSpellsOne(t: Text, c: Unit, d: Unit)
    requires ReadsHex(t, c) && ReadsHex(t, d)
    ensures c == d
  {
  }

  /** The text of a string ends at the quote that follows it. */
  lemma {:induction false} CharsEnd(a: Text, b: Text, s: Text, r: Text, x: Text, y: Text)
    requires ReadsChars(a, s) && ReadsChars(b, r) && a + ([QUOTE] + x) == b + ([QUOTE] + y)
    ensures a == b && s == r && x == y
    decreases |a|
  {
    hide ReadsChars, TokenSize;
    if a == [] || b == [] {
      CharsStart(a, s, x);
      CharsStart(b, r, y);
      NoChars(s);
      NoChars(r);
      SamePrefix([QUOTE], [QUOTE], x, y);
    } else {
      TokensAgree(a, b, s, r, [QUOTE] + x, [QUOTE] + y);
      TokenSplits(a, s);
      TokenSplits(b, r);
      TokenIsSome(a);
      var n := TokenSize(a);
      CharsEnd(a[n..], b[n..], s[1..], r[1..], x, y);
      assert a == a[..n] + a[n..] && b == b[..n] + b[n..] && s == [s[0]] + s[1..] && r == [r[0]] + r[1..];
    }
  }

  lemma TokenIsSome(t: Text)
    requires t != []
    ensures TokenSize(t) >= 1
  {
  }

  lemma NoChars(s: Text)
    ensures ReadsChars([], s) <==> s == []
  {
  }

  lemma CharsStart(a: Text, s: Text, x: Text)
    requires ReadsChars(a, s)
    ensures (a + ([QUOTE] + x))[0] == QUOTE <==> a == []
    ensures a == [] ==> a + ([QUOTE] + x) == [QUOTE] + x
  {
    if a != [] { TokenSplits(a, s); }
  }

  lemma StringsEnd(p: Text, q: Text, s: Text, r: Text, x: Text, y: Text)
    requires ReadsString(p, s) && ReadsString(q, r) && p + x == q + y
    ensures p == q && s == r && x == y
  {
    hide ReadsChars;
    var a, b := p[1..|p| - 1], q[1..|q| - 1];
    assert p == [QUOTE] + a + [QUOTE] && q == [QUOTE] + b + [QUOTE];
    WrapDecodes(QUOTE, QUOTE, a, b, x, y);
    CharsEnd(a, b, s, r, x, y);
  }

  lemma WordsEnd(x: Text, y: Text)
    ensures Chars("null") + x == Chars("null") + y ==> x == y
    ensures Chars("true") + x == Chars("true") + y ==> x == y
    ensures Chars("false") + x == Chars("false") + y ==> x == y
    ensures Chars("true") + x != Chars("false") + y
  {
    if Chars("null") + x == Chars("null") + y { SamePrefix(Chars("null"), Chars("null"), x, y); }
    if Chars("true") + x == Chars("true") + y { SamePrefix(Chars("true"), Chars("true"), x, y); }
    if Chars("false") + x == Chars("false") + y { SamePrefix(Chars("false"), Chars("false"), x, y); }
    assert (Chars("true") + x)[0] == 't' as int && (Chars("false") + y)[0] == 'f' as int;
  }

  lemma ReadStart(t: Text, v: Json)
    requires Reads(t, v)
    ensures t != [] && KindOfUnit(t[0]) == Kind(v) && StartsValue(t)
  {
  }

  lemma FieldStart(t: Text, key: Text, value: Json)
    requires ReadsField(t, key, value)
    ensures StartsValue(t)
  {
    var k: Text, x: Text :| t == k + [':' as int] + x && ReadsString(k, key) && Reads(x, value);
    assert t[0] == k[0];
  }

  /** Where a value's text ends, and which value it is, is settled by what it spells. */
  lemma {:induction false} ReadEnds(p: Text, q: Text, a: Json, b: Json, x: Text, y: Text)
    requires Reads(p, a) && Reads(q, b) && Stops(x) && Stops(y) && p + x == q + y
    ensures p == q && a == b && x == y
    decreases a, 1
  {
    hide Reads, Stops, StartsValue;
    ReadStart(p, a);
    ReadStart(q, b);
    assert p[0] == (p + x)[0] == (q + y)[0] == q[0];
    if a.Arr? {
      ArraysEnd(p, q, a, b, x, y);
    } else if a.Obj? {
      ObjectsEnd(p, q, a, b, x, y);
    } else {
      ScalarsEnd(p, q, a, b, x, y);
    }
  }

  lemma ScalarsEnd(p: Text, q: Text, a: Json, b: Json, x: Text, y: Text)
    requires Reads(p, a) && Reads(q, b) && Stops(x) && Stops(y) && p + x == q + y
    requires Kind(a) == Kind(b) && !a.Arr? && !a.Obj?
    ensures p == q && a == b && x == y
  {
    hide Stops, Chars, ReadsInt, ReadsString;
    WordsEnd(x, y);
    WordsEnd(y, x);
    match a
    case Null =>
    case Bool(_) =>
    case Int(n) => IntsEnd(p, q, n, b.number, x, y);
    case Str(s) => StringsEnd(p, q, s, b.text, x, y);
  }

  lemma {:induction false} ArraysEnd(p: Text, q: Text, a: Json, b: Json, x: Text, y: Text)
    requires a.Arr? && b.Arr? && Reads(p, a) && Reads(q, b) && Stops(x) && Stops(y) && p + x == q + y
    ensures p == q && a == b && x == y
    decreases a, 0
  {
    var c := ItemTexts(p, a);
    var d := ItemTexts(q, b);
    hide Reads, Stops, StartsValue, Apart;
    forall i | 0 <= i < |c| ensures StartsValue(c[i]) { ReadStart(c[i], a.items[i]); }
    forall i | 0 <= i < |d| ensures StartsValue(d[i]) { ReadStart(d[i], b.items[i]); }
    forall i | 0 <= i < |c| && i < |d| ensures Apart(c[i], d[i]) { ItemsApart(c[i], d[i], a.items[i], b.items[i]); }
    JoinSeparates(c);
    JoinSeparates(d);
    WrapDecodes(OPEN_LIST, CLOSE_LIST, Join(c), Join(d), x, y);
    JoinDecodes(c, d, CLOSE_LIST, x, y);
    forall i | 0 <= i < |c| ensures a.items[i] == b.items[i] {
      NothingStops();
      ReadEnds(c[i], d[i], a.items[i], b.items[i], [], []);
    }
  }

  lemma ItemTexts(t: Text, v: Json) returns (parts: seq<Text>)
    requires v.Arr? && Reads(t, v)
    ensures |parts| == |v.items| && t == [OPEN_LIST] + CommaSeparated(parts) + [CLOSE_LIST]
    ensures forall i :: 0 <= i < |parts| ==> Reads(parts[i], v.items[i])
  {
    parts :| |parts| == |v.items| && IsWrapped(t, '[', parts, ']') && forall i :: 0 <= i < |parts| ==> Reads(parts[i], v.items[i]);
  }

  lemma NothingStops()
    ensures Stops([])
  {
  }

  lemma {:induction false} ItemsApart(p: Text, q: Text, a: Json, b: Json)
    requires Reads(p, a) && Reads(q, b)
    ensures Apart(p, q)
    decreases a, 2
  {
    hide Reads, Stops;
    forall u, v | Stops(u) && Stops(v) && p + u == q + v ensures p == q { ReadEnds(p, q, a, b, u, v); }
  }

  lemma FieldText(k: Text, w: Text, x: Text)
    ensures (k + [':' as int] + w) + x == k + ([COLON] + (w + x))
  {
  }

  lemma {:induction false} FieldsEnd(p: Text, q: Text, f: Field, g: Field, x: Text, y: Text)
    requires ReadsField(p, f.key, f.value) && ReadsField(q, g.key, g.value) && Stops(x) && Stops(y) && p + x == q + y
    ensures p == q && f == g && x == y
    decreases f.value, 2
  {
    var k: Text, w: Text :| p == k + [':' as int] + w && ReadsString(k, f.key) && Reads(w, f.value);
    var l: Text, z: Text :| q == l + [':' as int] + z && ReadsString(l, g.key) && Reads(z, g.value);
    hide Reads, ReadsString, Stops;
    FieldText(k, w, x);
    FieldText(l, z, y);
    StringsEnd(k, l, f.key, g.key, [COLON] + (w + x), [COLON] + (z + y));
    SamePrefix([COLON], [COLON], w + x, z + y);
    ReadEnds(w, z, f.value, g.value, x, y);
  }

  lemma {:induction false} ObjectsEnd(p: Text, q: Text, a: Json, b: Json, x: Text, y: Text)
    requires a.Obj? && b.Obj? && Reads(p, a) && Reads(q, b) && Stops(x) && Stops(y) && p + x == q + y
    ensures p == q && a == b && x == y
    decreases a, 0
  {
    var c := FieldTexts(p, a);
    var d := FieldTexts(q, b);
    hide Reads, ReadsField, Stops, StartsValue, Apart;
    forall i | 0 <= i < |c| ensures StartsValue(c[i]) { FieldStart(c[i], a.fields[i].key, a.fields[i].value); }
    forall i | 0 <= i < |d| ensures StartsValue(d[i]) { FieldStart(d[i], b.fields[i].key, b.fields[i].value); }
    forall i | 0 <= i < |c| && i < |d| ensures Apart(c[i], d[i]) { FieldsApart(c[i], d[i], a.fields[i], b.fields[i]); }
    JoinSeparates(c);
    JoinSeparates(d);
    WrapDecodes(OPEN_OBJECT, CLOSE_OBJECT, Join(c), Join(d), x, y);
    JoinDecodes(c, d, CLOSE_OBJECT, x, y);
    forall i | 0 <= i < |c| ensures a.fields[i] == b.fields[i] {
      NothingStops();
      FieldsEnd(c[i], d[i], a.fields[i], b.fields[i], [], []);
    }
  }

  lemma FieldTexts(t: Text, v: Json) returns (parts: seq<Text>)
    requires v.Obj? && Reads(t, v)
    ensures |parts| == |v.fields| && t == [OPEN_OBJECT] + CommaSeparated(parts) + [CLOSE_OBJECT]
    ensures forall i :: 0 <= i < |parts| ==> ReadsField(parts[i], v.fields[i].key, v.fields[i].value)
  {
    parts :| |parts| == |v.fields| && IsWrapped(t, '{', parts, '}')
             && forall i :: 0 <= i < |parts| ==> ReadsField(parts[i], v.fields[i].key, v.fields[i].value);
  }

  lemma {:induction false} FieldsApart(p: Text, q: Text, f: Field, g: Field)
    requires ReadsField(p, f.key, f.value) && ReadsField(q, g.key, g.value)
    ensures Apart(p, q)
    decreases f.value, 3
  {
    hide ReadsField, Stops;
    forall u, v | Stops(u) && Stops(v) && p + u == q + v ensures p == q { FieldsEnd(p, q, f, g, u, v); }
  }

  /** A text spells at most one value. */
  lemma ReadsOnce(t: Text, a: Json, b: Json)
    requires Reads(t, a) && Reads(t, b)
    ensures a == b
  {
    NothingStops();
    ReadEnds(t, t, a, b, [], []);
  }

  /** A printed value is a compact JSON text, and whatever is read in it is the value, with keys in ascending order. */
  lemma PrintedIsRead(v: Json)
    requires IsValid(v)
    ensures exists w :: Reads(Print(v), w)
    ensures forall w :: Reads(Print(v), w) ==> Same(v, w) && KeysAscend(w)
  {
    hide Print, Reads, Same, KeysAscend;
    var r := PrintReads(v);
    forall w | Reads(Print(v), w) ensures Same(v, w) && KeysAscend(w) { ReadsOnce(Print(v), r, w); }
  }

  // ----- which of several spellings of a string is printed

  /** A unit between printed tokens: no surrogate pair is split. */
  predicate SplitsPair(s: Text, t: Text)
  {
    s != [] && t != [] && IsLead(s[|s| - 1]) && IsTrail(t[0])
  }

  /** Strings are printed piece by piece. */
  lemma {:induction false} EscapeAppend(s: Text, t: Text)
    requires !SplitsPair(s, t)
    ensures Escape(s + t) == Escape(s) + Escape(t)
    decreases |s|
  {
    hide Head;
    if s == [] {
      assert s + t == t;
    } else {
      var n := Width(s);
      assert Width(s + t) == n by {
        if n == 1 && |s| >= 2 { assert (s + t)[1] == s[1]; }
        if |s| == 1 && t != [] { assert (s + t)[1] == t[0]; }
      }
      HeadAppend(s, t);
      EscapeAppend(s[n..], t);
      assert (s + t)[n..] == s[n..] + t;
      assert Head(s) + (Escape(s[n..]) + Escape(t)) == (Head(s) + Escape(s[n..])) + Escape(t);
    }
  }

  lemma HeadAppend(s: Text, t: Text)
    requires s != [] && Width(s + t) == Width(s)
    ensures Head(s + t) == Head(s)
  {
    if Width(s) == 2 { assert (s + t)[..2] == s[..2]; }
  }

  predicate IsLowerHex(c: Unit) { '0' as int <= c <= '9' as int || 'a' as int <= c <= 'f' as int }

  /** One unit: a short escape where there is one, four lower-case digits for other control units and lone surrogates,
      otherwise itself. */
  lemma EscapeUnit(c: Unit)
    ensures c == 0x22 ==> Escape([c]) == Chars("\\\"")
    ensures c == 0x5C ==> Escape([c]) == Chars("\\\\")
    ensures c == 0x08 ==> Escape([c]) == Chars("\\b")
    ensures c == 0x09 ==> Escape([c]) == Chars("\\t")
    ensures c == 0x0A ==> Escape([c]) == Chars("\\n")
    ensures c == 0x0C ==> Escape([c]) == Chars("\\f")
    ensures c == 0x0D ==> Escape([c]) == Chars("\\r")
    ensures (c < 0x20 && c !in {0x08, 0x09, 0x0A, 0x0C, 0x0D}) || 0xD800 <= c <= 0xDFFF ==>
              |Escape([c])| == 6 && Escape([c])[..2] == Chars("\\u") && ReadsHex(Escape([c])[2..], c)
              && forall i :: 2 <= i < 6 ==> IsLowerHex(Escape([c])[i])
    ensures c >= 0x20 && c != 0x22 && c != 0x5C && !(0xD800 <= c <= 0xDFFF) ==> Escape([c]) == [c]
  {
    hide ReadsHex, Hex4;
    assert [c][Width([c])..] == [];
    assert Escape([]) == [];
    assert Escape([c]) == Head([c]) + Escape([c][Width([c])..]) == Head([c]);
    HexReads(c);
    HexIsLower(c);
    if Head([c]) == [BACKSLASH, 0x75] + Hex4(c) { assert Escape([c])[2..] == Hex4(c); }
  }

  lemma HexIsLower(c: Unit)
    ensures |Hex4(c)| == 4 && forall i :: 0 <= i < 4 ==> IsLowerHex(Hex4(c)[i])
  {
  }

  /** A surrogate pair stays as it is. */
  lemma EscapePair(c: Unit, d: Unit)
    requires 0xD800 <= c <= 0xDBFF && 0xDC00 <= d <= 0xDFFF
    ensures Escape([c, d]) == [c, d]
  {
    assert [c, d][2..] == [] && Escape([]) == [];
    assert [c, d][..2] == [c, d];
    assert Escape([c, d]) == Head([c, d]) + Escape([c, d][2..]);
  }
}
