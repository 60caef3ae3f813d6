/** Sums of a quantity over the rows of a list. */
module Sums {
  import opened Prelude

  function SumInt<T>(s: seq<T>, f: T -> int): int
  {
    if s == [] then 0 else f(s[0]) + SumInt(s[1..], f)
  }

  function SumReal<T>(s: seq<T>, f: T -> real): real
  {
    if s == [] then 0.0 else f(s[0]) + SumReal(s[1..], f)
  }

  lemma {:induction false} SumIntAppend<T>(a: seq<T>, b: seq<T>, f: T -> int)
    ensures SumInt(a + b, f) == SumInt(a, f) + SumInt(b, f)
  {
    if a == [] {
      assert a + b == b;
    } else {
      SumIntAppend(a[1..], b, f);
      assert (a + b)[1..] == a[1..] + b;
    }
  }

  lemma {:induction false} SumRealAppend<T>(a: seq<T>, b: seq<T>, f: T -> real)
    ensures SumReal(a + b, f) == SumReal(a, f) + SumReal(b, f)
  {
    if a == [] {
      assert a + b == b;
    } else {
      SumRealAppend(a[1..], b, f);
      assert (a + b)[1..] == a[1..] + b;
    }
  }

  lemma {:induction false} SumIntEqual<T>(s: seq<T>, f: T -> int, g: T -> int)
    requires forall x :: x in s ==> f(x) == g(x)
    ensures SumInt(s, f) == SumInt(s, g)
  {
    if s != [] { SumIntEqual(s[1..], f, g); }
  }

  lemma {:induction false} SumRealAdd<T>(s: seq<T>, f: T -> real, g: T -> real, h: T -> real)
    requires forall x :: x in s ==> h(x) == f(x) + g(x)
    ensures SumReal(s, h) == SumReal(s, f) + SumReal(s, g)
  {
    if s != [] { SumRealAdd(s[1..], f, g, h); }
  }

  lemma {:induction false} SumRealScale<T>(s: seq<T>, f: T -> real, k: real, h: T -> real)
    requires forall x :: x in s ==> h(x) == k * f(x)
    ensures SumReal(s, h) == k * SumReal(s, f)
  {
    if s != [] {
      SumRealScale(s[1..], f, k, h);
      assert k * (f(s[0]) + SumReal(s[1..], f)) == k * f(s[0]) + k * SumReal(s[1..], f);
    }
  }

  lemma {:induction false} SumRealNonNegative<T>(s: seq<T>, f: T -> real)
    requires forall x :: x in s ==> f(x) >= 0.0
    ensures SumReal(s, f) >= 0.0
    ensures forall x :: x in s ==> f(x) <= SumReal(s, f)
  {
    if s != [] { SumRealNonNegative(s[1..], f); }
  }

  lemma {:induction false} SumIntNonNegative<T>(s: seq<T>, f: T -> int)
    requires forall x :: x in s ==> f(x) >= 0
    ensures SumInt(s, f) >= 0
    ensures forall x :: x in s ==> f(x) <= SumInt(s, f)
  {
    if s != [] { SumIntNonNegative(s[1..], f); }
  }

  lemma SumIntRemove<T>(s: seq<T>, i: nat, f: T -> int)
    requires i < |s|
    ensures SumInt(s, f) == f(s[i]) + SumInt(s[..i] + s[i + 1..], f)
  {
    SumIntAppend(s[..i], s[i + 1..], f);
    SumIntAppend(s[..i], s[i..], f);
    assert s == s[..i] + s[i..];
    assert s[i..][1..] == s[i + 1..];
  }

  /** A sum does not depend on the order of its rows. */
  lemma {:induction false} SumIntPermute<T>(a: seq<T>, b: seq<T>, f: T -> int)
    requires multiset(a) == multiset(b)
    ensures SumInt(a, f) == SumInt(b, f)
    decreases |a|
  {
    if a == [] {
      assert |multiset(b)| == 0;
    } else {
      var i := PullSame(a, b);
      SumIntPermute(a[1..], b[..i] + b[i + 1..], f);
      SumIntRemove(b, i, f);
    }
  }

  lemma SumRealRemove<T>(s: seq<T>, i: nat, f: T -> real)
    requires i < |s|
    ensures SumReal(s, f) == f(s[i]) + SumReal(s[..i] + s[i + 1..], f)
  {
    SumRealAppend(s[..i], s[i + 1..], f);
    SumRealAppend(s[..i], s[i..], f);
    assert s == s[..i] + s[i..];
    assert s[i..][1..] == s[i + 1..];
  }

  /** A sum does not depend on the order of its rows. */
  lemma {:induction false} SumRealPermute<T>(a: seq<T>, b: seq<T>, f: T -> real)
    requires multiset(a) == multiset(b)
    ensures SumReal(a, f) == SumReal(b, f)
    decreases |a|
  {
    if a == [] {
      assert |multiset(b)| == 0;
    } else {
      var i := PullSame(a, b);
      SumRealPermute(a[1..], b[..i] + b[i + 1..], f);
      SumRealRemove(b, i, f);
    }
  }

  // ----- columns

  function Column<T, K>(s: seq<T>, key: T -> K): (ks: seq<K>)
    ensures |ks| == |s|
    ensures forall i :: 0 <= i < |s| ==> ks[i] == key(s[i])
  {
    seq(|s|, i requires 0 <= i < |s| => key(s[i]))
  }

  function Marks<T, K(==)>(key: T -> K, k: K): T -> int { (x: T) => if key(x) == k then 1 else 0 }

  lemma {:induction false} ColumnCount<T, K>(s: seq<T>, key: T -> K, k: K)
    ensures multiset(Column(s, key))[k] == SumInt(s, Marks(key, k))
  {
    if s != [] {
      ColumnCount(s[1..], key, k);
      assert Column(s, key) == [key(s[0])] + Column(s[1..], key);
    }
  }

  /** Rearranging rows rearranges any column of them. */
  lemma ColumnPermute<T, K(!new)>(a: seq<T>, b: seq<T>, key: T -> K)
    requires multiset(a) == multiset(b)
    ensures multiset(Column(a, key)) == multiset(Column(b, key))
  {
    forall k ensures multiset(Column(a, key))[k] == multiset(Column(b, key))[k] {
      ColumnCount(a, key, k);
      ColumnCount(b, key, k);
      SumIntPermute(a, b, Marks(key, k));
    }
  }

  predicate Distinct<T(==)>(s: seq<T>)
  {
    forall i, j :: 0 <= i < j < |s| ==> s[i] != s[j]
  }

  lemma CountTwice<T>(s: seq<T>, i: nat, j: nat)
    requires i < j < |s| && s[i] == s[j]
    ensures multiset(s)[s[i]] >= 2
  {
    assert s == s[..i] + [s[i]] + s[i + 1..];
    assert s[i + 1..][j - i - 1] == s[i];
    assert s[i] in s[i + 1..];
  }

  lemma {:induction false} CountOnce<T>(s: seq<T>, x: T)
    requires Distinct(s)
    ensures multiset(s)[x] <= 1
  {
    if s != [] {
      CountOnce(s[1..], x);
      assert s == [s[0]] + s[1..];
      if x == s[0] { assert x !in s[1..]; }
    }
  }

  lemma DistinctPermute<T>(a: seq<T>, b: seq<T>)
    requires multiset(a) == multiset(b) && Distinct(a)
    ensures Distinct(b)
  {
    forall i, j | 0 <= i < j < |b| ensures b[i] != b[j] {
      CountOnce(a, b[i]);
      if b[i] == b[j] { CountTwice(b, i, j); }
    }
  }

  /** Summing a quantity that is x at one element and zero elsewhere. */
  lemma {:induction false} SumRealPoint<T>(s: seq<T>, f: T -> real, at: T, x: real)
    requires Distinct(s)
    requires forall y :: y in s ==> f(y) == if y == at then x else 0.0
    ensures SumReal(s, f) == if at in s then x else 0.0
  {
    if s != [] {
      SumRealPoint(s[1..], f, at, x);
      assert at in s <==> at == s[0] || at in s[1..];
    }
  }

  /** Splitting rows by a key: the groups' sums add up to the whole sum. */
  lemma {:induction false} SumByKey<T, K>(
    rows: seq<T>, keys: seq<K>, key: T -> K, f: T -> real, part: K -> T -> real, group: K -> real)
    requires Distinct(keys)
    requires forall r :: r in rows ==> key(r) in keys
    requires forall k, r :: k in keys && r in rows ==> part(k)(r) == if key(r) == k then f(r) else 0.0
    requires forall k :: k in keys ==> group(k) == SumReal(rows, part(k))
    ensures SumReal(keys, group) == SumReal(rows, f)
  {
    if rows == [] {
      SumRealScale(keys, group, 0.0, group);
    } else {
      var head := (k: K) => if key(rows[0]) == k then f(rows[0]) else 0.0;
      var rest := (k: K) => SumReal(rows[1..], part(k));
      SumByKey(rows[1..], keys, key, f, part, rest);
      SumRealPoint(keys, head, key(rows[0]), f(rows[0]));
      SumRealAdd(keys, head, rest, group);
    }
  }
}
