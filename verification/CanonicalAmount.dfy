/** Amounts as the wallet signs them: text to millionths and back. */
module CanonicalAmount {
  import opened Prelude

  const PICOIN_UNIT: nat := 1000000
  const PICOIN_DECIMALS: nat := 6
  const MAX_SAFE_INTEGER: nat := 9007199254740991

  datatype AmountError = InvalidAmount | TooManyDecimals | TooLarge

  // ----- digits

  predicate IsDigit(c: char) { '0' <= c <= '9' }

  predicate AllDigits(s: string) { forall i :: 0 <= i < |s| ==> IsDigit(s[i]) }

  function DigitOf(n: nat): (c: char)
    requires n < 10
    ensures IsDigit(c) && ValueOf(c) == n
  {
    '0' + n as char
  }

  function ValueOf(c: char): (n: nat)
    requires IsDigit(c)
    ensures n < 10 && '0' + n as char == c
  {
    c as int - '0' as int
  }

  /** Decimal digits without leading zeros. */
  function Digits(n: nat): (s: string)
    ensures s != "" && AllDigits(s)
  {
    if n < 10 then [DigitOf(n)] else Digits(n / 10) + [DigitOf(n % 10)]
  }

  function Parse(s: string): nat
    requires AllDigits(s)
  {
    if s == "" then 0 else 10 * Parse(s[..|s| - 1]) + ValueOf(s[|s| - 1])
  }

  function Power10(n: nat): (p: nat)
    ensures p >= 1
  {
    if n == 0 then 1 else 10 * Power10(n - 1)
  }

  function Zeros(n: nat): (s: string)
    ensures |s| == n && AllDigits(s)
  {
    seq(n, _ => '0')
  }

  function PadStart(s: string, n: nat): string { if |s| >= n then s else Zeros(n - |s|) + s }

  function PadEnd(s: string, n: nat): string { if |s| >= n then s else s + Zeros(n - |s|) }

  // ----- the two directions

  /** Sign, whole part without leading zeros, and exactly six decimals. */
  function Canonical(units: int): string
  {
    var value: nat := if units < 0 then -units else units;
    (if units < 0 then "-" else "") + Digits(value / PICOIN_UNIT) + "." + PadStart(Digits(value % PICOIN_UNIT), PICOIN_DECIMALS)
  }

  /** The characters that trimming removes: white space and line terminators. */
  predicate IsSpace(c: char)
  {
    var n := c as int;
    || 9 <= n <= 13 || n == 32 || n == 0xA0 || n == 0x1680 || 0x2000 <= n <= 0x200A
    || n == 0x2028 || n == 0x2029 || n == 0x202F || n == 0x205F || n == 0x3000 || n == 0xFEFF
  }

  function TrimStart(s: string): string { if s != "" && IsSpace(s[0]) then TrimStart(s[1..]) else s }

  function TrimEnd(s: string): string { if s != "" && IsSpace(s[|s| - 1]) then TrimEnd(s[..|s| - 1]) else s }

  function Trim(s: string): string { TrimEnd(TrimStart(s)) }

  /** The part before the first point, and the part after it. */
  function Split(s: string): (r: (string, Option<string>))
  {
    if s == "" then ("", None)
    else if s[0] == '.' then ("", Some(s[1..]))
    else
      var rest := Split(s[1..]);
      ([s[0]] + rest.0, rest.1)
  }

  /** One or more digits, optionally a point and one or more digits. */
  predicate IsAmountText(s: string)
  {
    var parts := Split(s);
    && parts.0 != "" && AllDigits(parts.0)
    && (parts.1.Some? ==> parts.1.value != "" && AllDigits(parts.1.value))
  }

  function FractionOf(s: string): string
  {
    var parts := Split(s);
    if parts.1.Some? then parts.1.value else ""
  }

  function ToUnits(text: string): Result<nat, AmountError>
  {
    var raw := Trim(text);
    if !IsAmountText(raw) then Failure(InvalidAmount)
    else
      var whole, fraction := Split(raw).0, FractionOf(raw);
      if |fraction| > PICOIN_DECIMALS then Failure(TooManyDecimals)
      else
        var units := Parse(whole) * PICOIN_UNIT + Parse(PadEnd(fraction, PICOIN_DECIMALS));
        if units > MAX_SAFE_INTEGER then Failure(TooLarge) else Success(units)
  }

  // ----- what a text denotes

  /** The value of digits after a point. */
  function FractionValue(s: string): real
    requires AllDigits(s)
  {
    if s == "" then 0.0 else (ValueOf(s[0]) as real + FractionValue(s[1..])) / 10.0
  }

  function DecimalValue(s: string): real
    requires IsAmountText(s)
  {
    Parse(Split(s).0) as real + FractionValue(FractionOf(s))
  }

  /** No leading zero but for zero itself, and exactly six decimals. */
  predicate IsNormal(s: string)
  {
    && IsAmountText(s)
    && (|Split(s).0| > 1 ==> Split(s).0[0] != '0')
    && |FractionOf(s)| == PICOIN_DECIMALS
  }

  // ----- facts about digits

  lemma ParseLast(s: string, c: char)
    requires AllDigits(s) && IsDigit(c)
    ensures AllDigits(s + [c]) && Parse(s + [c]) == 10 * Parse(s) + ValueOf(c)
  {
    assert (s + [c])[..|s|] == s;
  }

  lemma {:induction false} ParseDigits(n: nat)
    ensures Parse(Digits(n)) == n
    ensures |Digits(n)| > 1 ==> Digits(n)[0] != '0'
    ensures n > 0 ==> Digits(n)[0] != '0'
    ensures n < 10 ==> |Digits(n)| == 1
  {
    if n < 10 {
      ParseLast("", DigitOf(n));
      assert "" + [DigitOf(n)] == [DigitOf(n)];
    } else {
      ParseDigits(n / 10);
      ParseLast(Digits(n / 10), DigitOf(n % 10));
    }
  }

  lemma {:induction false} ParseBound(s: string)
    requires AllDigits(s)
    ensures Parse(s) < Power10(|s|)
  {
    if s != "" { ParseBound(s[..|s| - 1]); }
  }

  lemma {:induction false} DigitsLength(n: nat, k: nat)
    requires n < Power10(k) && k >= 1
    ensures |Digits(n)| <= k
  {
    if n >= 10 { DigitsLength(n / 10, k - 1); }
  }

  /** Two digit texts of one length with one value are the same. */
  lemma {:induction false} ParseInjective(a: string, b: string)
    requires AllDigits(a) && AllDigits(b) && |a| == |b| && Parse(a) == Parse(b)
    ensures a == b
    decreases |a|
  {
    if a != "" {
      ParseInjective(a[..|a| - 1], b[..|b| - 1]);
      assert a == a[..|a| - 1] + [a[|a| - 1]] && b == b[..|b| - 1] + [b[|b| - 1]];
    }
  }

  /** Digits without a leading zero are determined by their value. */
  lemma {:induction false} DigitsUnique(s: string)
    requires AllDigits(s) && s != "" && (|s| > 1 ==> s[0] != '0')
    ensures Digits(Parse(s)) == s
    decreases |s|
  {
    var front := s[..|s| - 1];
    assert s == front + [s[|s| - 1]];
    if front == "" {
      assert Parse(front) == 0;
    } else {
      assert front[0] == s[0];
      DigitsUnique(front);
      NonZeroValue(front);
    }
  }

  lemma {:induction false} NonZeroValue(s: string)
    requires AllDigits(s) && s != "" && s[0] != '0'
    ensures Parse(s) >= 1
    decreases |s|
  {
    if |s| > 1 { NonZeroValue(s[..|s| - 1]); }
  }

  lemma {:induction false} ParseZeros(n: nat)
    ensures Parse(Zeros(n)) == 0
  {
    if n > 0 {
      assert Zeros(n)[..n - 1] == Zeros(n - 1);
      ParseZeros(n - 1);
    }
  }

  lemma {:induction false} ParseAppend(a: string, b: string)
    requires AllDigits(a) && AllDigits(b)
    ensures AllDigits(a + b) && Parse(a + b) == Parse(a) * Power10(|b|) + Parse(b)
    decreases |b|
  {
    if b == "" {
      assert a + b == a;
    } else {
      var front := b[..|b| - 1];
      ParseAppend(a, front);
      assert (a + b)[..|a + b| - 1] == a + front;
      assert Parse(a) * (10 * Power10(|front|)) == 10 * (Parse(a) * Power10(|front|));
    }
  }

  lemma PadStartValue(n: nat)
    requires n < PICOIN_UNIT
    ensures var s := PadStart(Digits(n), PICOIN_DECIMALS); AllDigits(s) && |s| == PICOIN_DECIMALS && Parse(s) == n
  {
    SixDigits();
    DigitsLength(n, PICOIN_DECIMALS);
    ParseDigits(n);
    ParseZeros(PICOIN_DECIMALS - |Digits(n)|);
    ParseAppend(Zeros(PICOIN_DECIMALS - |Digits(n)|), Digits(n));
  }

  lemma SixDigits()
    ensures Power10(PICOIN_DECIMALS) == PICOIN_UNIT
  {
    assert Power10(1) == 10 && Power10(2) == 100 && Power10(3) == 1000;
    assert Power10(4) == 10000 && Power10(5) == 100000;
  }

  // ----- splitting

  lemma {:induction false} SplitDigits(a: string, b: string)
    requires AllDigits(a)
    ensures Split(a + "." + b) == (a, Some(b))
  {
    var s := a + "." + b;
    if a == "" {
      assert s[1..] == b;
    } else {
      assert s[1..] == a[1..] + "." + b;
      SplitDigits(a[1..], b);
      assert a == [a[0]] + a[1..];
    }
  }

  lemma {:induction false} SplitJoins(s: string)
    ensures s == Split(s).0 + if Split(s).1.Some? then "." + Split(s).1.value else ""
  {
    if s != "" && s[0] != '.' {
      SplitJoins(s[1..]);
      assert s == [s[0]] + s[1..];
    }
  }

  lemma SplitMinus(s: string)
    ensures Split("-" + s).0 != "" && Split("-" + s).0[0] == '-'
  {
    assert ("-" + s)[0] == '-';
  }

  lemma NothingToTrim(s: string)
    requires s != "" && !IsSpace(s[0]) && !IsSpace(s[|s| - 1])
    ensures Trim(s) == s
  {
  }

  // ----- the laws

  lemma CanonicalParts(units: nat)
    ensures var whole, fraction := Digits(units / PICOIN_UNIT), PadStart(Digits(units % PICOIN_UNIT), PICOIN_DECIMALS);
            && Canonical(units) == whole + "." + fraction
            && AllDigits(fraction) && |fraction| == PICOIN_DECIMALS && Parse(fraction) == units % PICOIN_UNIT
            && Split(Canonical(units)) == (whole, Some(fraction))
            && Trim(Canonical(units)) == Canonical(units)
  {
    var whole, fraction := Digits(units / PICOIN_UNIT), PadStart(Digits(units % PICOIN_UNIT), PICOIN_DECIMALS);
    PadStartValue(units % PICOIN_UNIT);
    assert "" + whole == whole;
    var s := whole + "." + fraction;
    SplitDigits(whole, fraction);
    assert s[0] == whole[0] && s[|s| - 1] == fraction[|fraction| - 1];
    NothingToTrim(s);
  }

  /** Printing units and reading them back returns them, up to the largest safe integer; beyond it and below zero the text is refused. */
  lemma RoundTrip(units: int)
    ensures ToUnits(Canonical(units))
            == if units < 0 then Failure(InvalidAmount)
               else if units > MAX_SAFE_INTEGER then Failure(TooLarge)
               else Success(units)
  {
    if units < 0 {
      NegativeRefused(units);
    } else {
      CanonicalParts(units);
      ParseDigits(units / PICOIN_UNIT);
    }
  }

  lemma SignInFront(units: int)
    requires units < 0
    ensures Canonical(units) == "-" + Canonical(-units as int)
  {
  }

  lemma NegativeRefused(units: int)
    requires units < 0
    ensures ToUnits(Canonical(units)) == Failure(InvalidAmount)
  {
    hide Canonical, Digits, PadStart, Parse, Split, Trim;
    var value: nat := -units;
    CanonicalParts(value);
    SignInFront(units);
    var s := Canonical(units);
    SplitMinus(Canonical(value));
    NothingToTrim(s);
  }

  lemma {:induction false} FractionIsParse(s: string)
    requires AllDigits(s)
    ensures FractionValue(s) == Parse(s) as real / Power10(|s|) as real
  {
    if s != "" {
      FractionIsParse(s[1..]);
      ParseAppend([s[0]], s[1..]);
      assert s == [s[0]] + s[1..];
      ParseLast("", s[0]);
      assert "" + [s[0]] == [s[0]];
      DividedByTen(ValueOf(s[0]), Parse(s[1..]), Power10(|s| - 1));
    }
  }

  lemma DividedByTen(d: nat, n: nat, p: nat)
    requires p >= 1
    ensures (d as real + n as real / p as real) / 10.0 == (d * p + n) as real / (10 * p) as real
  {
    assert (d * p + n) as real == d as real * p as real + n as real;
    assert (d as real * p as real + n as real) / p as real == d as real + n as real / p as real;
    assert (10 * p) as real == 10.0 * p as real;
  }

  lemma PaddedFraction(fraction: string)
    requires AllDigits(fraction) && |fraction| <= PICOIN_DECIMALS
    ensures AllDigits(PadEnd(fraction, PICOIN_DECIMALS)) && |PadEnd(fraction, PICOIN_DECIMALS)| == PICOIN_DECIMALS
    ensures FractionValue(PadEnd(fraction, PICOIN_DECIMALS)) == FractionValue(fraction)
    decreases |fraction|
  {
    var zeros := Zeros(PICOIN_DECIMALS - |fraction|);
    if |fraction| == PICOIN_DECIMALS {
    } else {
      FractionOfZeros(|zeros|);
      FractionAppend(fraction, zeros);
    }
  }

  lemma {:induction false} FractionOfZeros(n: nat)
    ensures FractionValue(Zeros(n)) == 0.0
  {
    if n > 0 {
      assert Zeros(n)[1..] == Zeros(n - 1);
      FractionOfZeros(n - 1);
    }
  }

  lemma {:induction false} FractionAppend(a: string, b: string)
    requires AllDigits(a) && AllDigits(b) && FractionValue(b) == 0.0
    ensures AllDigits(a + b) && FractionValue(a + b) == FractionValue(a)
  {
    if a == "" {
      assert a + b == b;
    } else {
      FractionAppend(a[1..], b);
      assert (a + b)[1..] == a[1..] + b;
    }
  }

  /** An accepted text denotes exactly its units in millionths. */
  lemma UnitsDenote(text: string)
    requires ToUnits(text).Success?
    ensures IsAmountText(Trim(text))
    ensures DecimalValue(Trim(text)) == ToUnits(text).value as real / PICOIN_UNIT as real
  {
    var raw := Trim(text);
    var whole, padded := Split(raw).0, PadEnd(FractionOf(raw), PICOIN_DECIMALS);
    PaddedFraction(FractionOf(raw));
    FractionIsParse(padded);
    SixDigits();
    MillionthsAdd(Parse(whole), Parse(padded));
  }

  lemma MillionthsAdd(whole: nat, part: nat)
    ensures whole as real + part as real / PICOIN_UNIT as real == (whole * PICOIN_UNIT + part) as real / PICOIN_UNIT as real
  {
  }

  /** The printed form is normal and denotes the units. */
  lemma CanonicalDenotes(units: nat)
    ensures IsNormal(Canonical(units)) && DecimalValue(Canonical(units)) == units as real / PICOIN_UNIT as real
  {
    CanonicalParts(units);
    ParseDigits(units / PICOIN_UNIT);
    FractionIsParse(FractionOf(Canonical(units)));
    SixDigits();
    MillionthsAdd(units / PICOIN_UNIT, units % PICOIN_UNIT);
  }

  /** A normal text is the printed form of the number of millionths it denotes. */
  lemma NormalIsCanonical(s: string) returns (units: nat)
    requires IsNormal(s)
    ensures s == Canonical(units) && DecimalValue(s) == units as real / PICOIN_UNIT as real
  {
    var whole, fraction := Split(s).0, FractionOf(s);
    ParseBound(fraction);
    SixDigits();
    units := Parse(whole) * PICOIN_UNIT + Parse(fraction);
    assert units / PICOIN_UNIT == Parse(whole) && units % PICOIN_UNIT == Parse(fraction);
    CanonicalParts(units);
    DigitsUnique(whole);
    ParseInjective(fraction, PadStart(Digits(units % PICOIN_UNIT), PICOIN_DECIMALS));
    SplitJoins(s);
    assert s == whole + "." + fraction;
    CanonicalDenotes(units);
  }

  /** For every accepted text, printing its units gives the one normal text that denotes the same decimal. */
  lemma UniqueNormalForm(text: string, s: string)
    requires ToUnits(text).Success?
    ensures IsAmountText(Trim(text))
    ensures IsNormal(s) && DecimalValue(s) == DecimalValue(Trim(text)) <==> s == Canonical(ToUnits(text).value)
  {
    UnitsDenote(text);
    CanonicalDenotes(ToUnits(text).value);
    if IsNormal(s) && DecimalValue(s) == DecimalValue(Trim(text)) {
      var units := NormalIsCanonical(s);
      SameMillionths(units, ToUnits(text).value);
    }
  }

  lemma SameMillionths(a: nat, b: nat)
    requires a as real / PICOIN_UNIT as real == b as real / PICOIN_UNIT as real
    ensures a == b
  {
  }
}
