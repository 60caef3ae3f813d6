/** Result and option values, and the few facts about sequences every other module uses. */
module Prelude {

  datatype Option<+T> = None | Some(value: T)

  datatype Result<+T, +E> = Success(value: T) | Failure(error: E)

  function Min(a: int, b: int): (m: int)
    ensures m <= a && m <= b && (m == a || m == b)
  {
    if a <= b then a else b
  }

  function Max(a: int, b: int): (m: int)
    ensures m >= a && m >= b && (m == a || m == b)
  {
    if a >= b then a else b
  }

  /** Membership in a sequence depends only on its multiset. */
  lemma SameElements<T>(a: seq<T>, b: seq<T>)
    requires multiset(a) == multiset(b)
    ensures |a| == |b|
    ensures forall x :: x in a <==> x in b
  {
    assert |multiset(a)| == |a| && |multiset(b)| == |b|;
    forall x ensures x in a <==> x in b {
      assert x in a <==> x in multiset(a);
      assert x in b <==> x in multiset(b);
    }
  }

  /** Taking one occurrence of x out of a sequence takes one occurrence out of its multiset. */
  lemma RemoveAt<T>(s: seq<T>, i: nat)
    requires i < |s|
    ensures multiset(s[..i] + s[i + 1..]) == multiset(s) - multiset{s[i]}
  {
    assert s == s[..i] + [s[i]] + s[i + 1..];
  }

  /** Equal multisets stay equal when one occurrence of the same element is taken out of each. */
  lemma PullSame<T>(a: seq<T>, b: seq<T>) returns (i: nat)
    requires multiset(a) == multiset(b) && a != []
    ensures i < |b| && b[i] == a[0] && multiset(a[1..]) == multiset(b[..i] + b[i + 1..])
  {
    SameElements(a, b);
    assert a[0] in b;
    i :| 0 <= i < |b| && b[i] == a[0];
    RemoveAt(b, i);
    RemoveAt(a, 0);
    assert a[..0] + a[1..] == a[1..];
  }

  // ----- the rows that satisfy a test

  function Filter<T(!new)>(s: seq<T>, p: T -> bool): (r: seq<T>)
    ensures forall x :: x in r <==> x in s && p(x)
  {
    if s == [] then [] else (if p(s[0]) then [s[0]] else []) + Filter(s[1..], p)
  }

  lemma {:induction false} FilterNone<T(!new)>(s: seq<T>, p: T -> bool)
    requires forall x :: x in s ==> !p(x)
    ensures Filter(s, p) == []
  {
    if s != [] { FilterNone(s[1..], p); }
  }

  lemma FilterOne<T(!new)>(x: T, p: T -> bool)
    ensures Filter([x], p) == if p(x) then [x] else []
  {
    assert [x][1..] == [];
    assert Filter([x][1..], p) == [];
  }

  lemma AppendAssoc<T>(a: seq<T>, b: seq<T>, c: seq<T>)
    ensures a + (b + c) == (a + b) + c
  {
  }

  lemma {:induction false} FilterAppend<T(!new)>(a: seq<T>, b: seq<T>, p: T -> bool)
    ensures Filter(a + b, p) == Filter(a, p) + Filter(b, p)
  {
    if a == [] {
      assert a + b == b;
    } else {
      FilterAppend(a[1..], b, p);
      assert (a + b)[0] == a[0] && (a + b)[1..] == a[1..] + b;
      AppendAssoc(if p(a[0]) then [a[0]] else [], Filter(a[1..], p), Filter(b, p));
    }
  }

  lemma {:induction false} FilterWhole<T(!new)>(s: seq<T>, p: T -> bool)
    requires forall x :: x in s ==> p(x)
    ensures Filter(s, p) == s
  {
    if s != [] { FilterWhole(s[1..], p); }
  }

  /** Rounds up to a whole number. */
  function Ceiling(x: real): (n: int)
    ensures n as real - 1.0 < x <= n as real
  {
    -(-x).Floor
  }
}

/** The stable insertion order that a library sort by key produces. */
module StableSort {
  import opened Prelude

  ghost predicate TotalPreorder<T(!new)>(le: (T, T) -> bool)
  {
    && (forall x, y :: le(x, y) || le(y, x))
    && (forall x, y, z :: le(x, y) && le(y, z) ==> le(x, z))
  }

  ghost predicate Sorted<T>(le: (T, T) -> bool, s: seq<T>)
  {
    forall i, j :: 0 <= i < j < |s| ==> le(s[i], s[j])
  }

  /** Puts x before the first element that is not smaller, so equal elements keep their order. */
  function Insert<T>(le: (T, T) -> bool, x: T, s: seq<T>): (r: seq<T>)
    ensures |r| == |s| + 1
    ensures multiset(r) == multiset(s) + multiset{x}
  {
    if s == [] then [x]
    else if le(x, s[0]) then [x] + s
    else
      assert s == [s[0]] + s[1..];
      [s[0]] + Insert(le, x, s[1..])
  }

  function Sort<T>(le: (T, T) -> bool, s: seq<T>): (r: seq<T>)
    ensures |r| == |s|
    ensures multiset(r) == multiset(s)
  {
    if s == [] then []
    else
      assert s == [s[0]] + s[1..];
      Insert(le, s[0], Sort(le, s[1..]))
  }

  lemma {:induction false} InsertSorted<T(!new)>(le: (T, T) -> bool, x: T, s: seq<T>)
    requires TotalPreorder(le) && Sorted(le, s)
    ensures Sorted(le, Insert(le, x, s))
  {
    if s != [] {
      if le(x, s[0]) {
        assert forall j :: 0 <= j < |s| ==> le(x, s[j]);
      } else {
        InsertSorted(le, x, s[1..]);
        var r := Insert(le, x, s[1..]);
        forall j | 0 <= j < |r| ensures le(s[0], r[j]) {
          assert r[j] in multiset(r);
          assert r[j] == x || r[j] in s[1..];
        }
      }
    }
  }

  lemma {:induction false} SortSorted<T(!new)>(le: (T, T) -> bool, s: seq<T>)
    requires TotalPreorder(le)
    ensures Sorted(le, Sort(le, s))
  {
    if s != [] {
      SortSorted(le, s[1..]);
      InsertSorted(le, s[0], Sort(le, s[1..]));
    }
  }

  /** Two sorted arrangements of the same elements are equal when no two different elements tie. */
  lemma {:induction false} SortedUnique<T(!new)>(le: (T, T) -> bool, a: seq<T>, b: seq<T>)
    requires Sorted(le, a) && Sorted(le, b)
    requires multiset(a) == multiset(b)
    requires forall x, y :: x in a && y in a && le(x, y) && le(y, x) ==> x == y
    ensures a == b
  {
    SameElements(a, b);
    if a != [] {
      SmallestFirst(le, a, b);
      SmallestFirst(le, b, a);
      assert a[0] == b[0];
      DropFirst(a);
      DropFirst(b);
      SortedUnique(le, a[1..], b[1..]);
      assert a == [a[0]] + a[1..] && b == [b[0]] + b[1..];
    }
  }

  lemma DropFirst<T>(s: seq<T>)
    requires s != []
    ensures multiset(s[1..]) == multiset(s) - multiset{s[0]}
    ensures forall x :: x in s[1..] ==> x in s
  {
    assert s == [s[0]] + s[1..];
  }

  lemma SmallestFirst<T(!new)>(le: (T, T) -> bool, a: seq<T>, b: seq<T>)
    requires Sorted(le, a) && a != [] && b != []
    requires multiset(a) == multiset(b)
    ensures b[0] in a
    ensures a[0] == b[0] || le(a[0], b[0])
  {
    SameElements(a, b);
    assert b[0] in b;
    var j :| 0 <= j < |a| && a[j] == b[0];
  }
}

/** Dictionary order of sequences over an ordered alphabet. */
module TextOrder {
  import opened StableSort

  ghost predicate StrictTotal<T(!new)>(lt: (T, T) -> bool)
  {
    && (forall x, y :: lt(x, y) || x == y || lt(y, x))
    && (forall x, y :: lt(x, y) ==> !lt(y, x))
    && (forall x, y, z :: lt(x, y) && lt(y, z) ==> lt(x, z))
  }

  predicate LexLe<T(==)>(lt: (T, T) -> bool, a: seq<T>, b: seq<T>)
  {
    a == [] || (b != [] && (lt(a[0], b[0]) || (a[0] == b[0] && LexLe(lt, a[1..], b[1..]))))
  }

  /** The first place where two sequences differ decides; a beginning of a sequence comes before it. */
  predicate Precedes<T(==)>(lt: (T, T) -> bool, a: seq<T>, b: seq<T>)
  {
    || (|a| < |b| && a == b[..|a|])
    || exists n :: 0 <= n < |a| && n < |b| && a[..n] == b[..n] && lt(a[n], b[n])
  }

  lemma {:induction false} LexPrecedes<T(!new)>(lt: (T, T) -> bool, a: seq<T>, b: seq<T>)
    requires StrictTotal(lt)
    ensures LexLe(lt, a, b) <==> a == b || Precedes(lt, a, b)
  {
    if a != [] && b != [] {
      LexPrecedes(lt, a[1..], b[1..]);
      assert a == [a[0]] + a[1..] && b == [b[0]] + b[1..];
      if lt(a[0], b[0]) { assert a[..0] == b[..0]; }
      if a[0] == b[0] { PrecedesNext(lt, a, b); }
      if n :| 0 <= n < |a| && n < |b| && a[..n] == b[..n] && lt(a[n], b[n]) {
        assert n > 0 ==> a[..n][0] == b[..n][0];
      }
      if |a| < |b| && a == b[..|a|] { assert a[0] == b[..|a|][0]; }
    }
  }

  lemma PrecedesNext<T(!new)>(lt: (T, T) -> bool, a: seq<T>, b: seq<T>)
    requires StrictTotal(lt) && a != [] && b != [] && a[0] == b[0]
    ensures Precedes(lt, a, b) <==> Precedes(lt, a[1..], b[1..])
  {
    var x, y := a[1..], b[1..];
    assert a == [a[0]] + x && b == [b[0]] + y;
    if |x| < |y| && x == y[..|x|] { assert b[..|a|] == [b[0]] + y[..|x|]; }
    if |a| < |b| && a == b[..|a|] { assert a[1..] == b[..|a|][1..] == y[..|x|]; }
    if n :| 0 <= n < |x| && n < |y| && x[..n] == y[..n] && lt(x[n], y[n]) {
      assert a[..n + 1] == [a[0]] + x[..n] && b[..n + 1] == [b[0]] + y[..n] && lt(a[n + 1], b[n + 1]);
    }
    if n :| 0 <= n < |a| && n < |b| && a[..n] == b[..n] && lt(a[n], b[n]) {
      assert n > 0;
      assert x[..n - 1] == a[..n][1..] == b[..n][1..] == y[..n - 1] && lt(x[n - 1], y[n - 1]);
    }
  }

  lemma {:induction false} LexTotal<T(!new)>(lt: (T, T) -> bool, a: seq<T>, b: seq<T>)
    requires StrictTotal(lt)
    ensures LexLe(lt, a, b) || LexLe(lt, b, a)
  {
    if a != [] && b != [] { LexTotal(lt, a[1..], b[1..]); }
  }

  lemma {:induction false} LexTransitive<T(!new)>(lt: (T, T) -> bool, a: seq<T>, b: seq<T>, c: seq<T>)
    requires StrictTotal(lt) && LexLe(lt, a, b) && LexLe(lt, b, c)
    ensures LexLe(lt, a, c)
  {
    if a != [] && a[0] == b[0] == c[0] { LexTransitive(lt, a[1..], b[1..], c[1..]); }
  }

  lemma {:induction false} LexAntisymmetric<T(!new)>(lt: (T, T) -> bool, a: seq<T>, b: seq<T>)
    requires StrictTotal(lt) && LexLe(lt, a, b) && LexLe(lt, b, a)
    ensures a == b
  {
    if a != [] {
      assert a[0] == b[0];
      LexAntisymmetric(lt, a[1..], b[1..]);
      assert a == [a[0]] + a[1..] && b == [b[0]] + b[1..];
    }
  }

  function CharLt(a: char, b: char): bool { a < b }

  /** Texts in the order of their code points. */
  function TextLe(a: string, b: string): bool { LexLe(CharLt, a, b) }

  lemma TextLeTotal()
    ensures TotalPreorder(TextLe)
  {
    forall a, b ensures TextLe(a, b) || TextLe(b, a) { LexTotal(CharLt, a, b); }
    forall a, b, c | TextLe(a, b) && TextLe(b, c) ensures TextLe(a, c) { LexTransitive(CharLt, a, b, c); }
  }
}
