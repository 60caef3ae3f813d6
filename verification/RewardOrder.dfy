/** When the order of the reward rows matters to the payout computation: exactly when two leading rows disagree. */
module RewardOrder {
  import opened Prelude
  import opened StableSort
  import opened Sums
  import opened RoundWindows

  predicate SameKey(a: RewardRow, b: RewardRow)
  {
    a.completedTs == b.completedTs && a.poolTaskId == b.poolTaskId
  }

  /** A win that no other win of the same time precedes by its id. */
  predicate Leads(rows: seq<RewardRow>, a: RewardRow)
  {
    && a in rows && IsWin(a)
    && forall c :: c in rows && IsWin(c) && c.completedTs == a.completedTs ==> a.poolTaskId <= c.poolTaskId
  }

  /** Leading wins with the same time and id have the same reward. */
  ghost predicate LeadsAgree(rows: seq<RewardRow>)
  {
    forall a, b :: Leads(rows, a) && Leads(rows, b) && SameKey(a, b) ==> a.reward == b.reward
  }

  // ----- agreeing leads make the order irrelevant

  lemma {:induction false} FilterCount<T(!new)>(s: seq<T>, p: T -> bool, x: T)
    ensures multiset(Filter(s, p))[x] == if p(x) then multiset(s)[x] else 0
  {
    if s != [] {
      FilterCount(s[1..], p, x);
      assert s == [s[0]] + s[1..];
    }
  }

  lemma FilterPermute<T(!new)>(a: seq<T>, b: seq<T>, p: T -> bool)
    requires multiset(a) == multiset(b)
    ensures multiset(Filter(a, p)) == multiset(Filter(b, p))
  {
    forall x ensures multiset(Filter(a, p))[x] == multiset(Filter(b, p))[x] {
      FilterCount(a, p, x);
      FilterCount(b, p, x);
    }
  }

  function KeyOf(r: RewardRow): (int, int) { (r.completedTs, r.poolTaskId) }

  function Keys(s: seq<RewardRow>): seq<(int, int)> { Column(s, KeyOf) }

  function KeyLe(a: (int, int), b: (int, int)): bool { a.0 < b.0 || (a.0 == b.0 && a.1 <= b.1) }

  lemma KeysOfSorted(a: seq<RewardRow>, b: seq<RewardRow>)
    requires Sorted(ByCompletion, a) && Sorted(ByCompletion, b) && multiset(a) == multiset(b)
    ensures Keys(a) == Keys(b)
  {
    ColumnPermute(a, b, KeyOf);
    SortedUnique(KeyLe, Keys(a), Keys(b));
  }

  /** Where the window of the k-th win starts. */
  function StartOf(startTs: int, wins: seq<RewardRow>, k: nat): int
    requires k < |wins|
  {
    if k == 0 then startTs else wins[k - 1].completedTs
  }

  /** Equal times and equal rewards wherever a window can hold a share give equal amounts. */
  lemma {:induction false} SameLeadsSamePay(startTs: int, a: seq<RewardRow>, b: seq<RewardRow>, shares: seq<ShareRow>, w: string)
    requires Keys(a) == Keys(b)
    requires forall k :: 0 <= k < |a| ==> a[k].completedTs > 0
    requires forall k :: 0 <= k < |a| && StartOf(startTs, a, k) != a[k].completedTs ==> a[k] == b[k]
    ensures GrossOf(Rounds(startTs, a, shares), w) == GrossOf(Rounds(startTs, b, shares), w)
    ensures GrossTotal(Rounds(startTs, a, shares)) == GrossTotal(Rounds(startTs, b, shares))
    decreases |a|
  {
    if a != [] {
      assert Keys(a)[0] == Keys(b)[0];
      var end := a[0].completedTs;
      assert Keys(a[1..]) == Keys(a)[1..] && Keys(b[1..]) == Keys(b)[1..];
      forall k | 0 <= k < |a[1..]| && StartOf(end, a[1..], k) != a[1..][k].completedTs ensures a[1..][k] == b[1..][k] {
        assert StartOf(startTs, a, k + 1) == StartOf(end, a[1..], k);
      }
      SameLeadsSamePay(end, a[1..], b[1..], shares, w);
      var x, y := Rounds(startTs, a, shares), Rounds(startTs, b, shares);
      assert x[1..] == Rounds(end, a[1..], shares) && y[1..] == Rounds(end, b[1..], shares);
      if startTs == end {
        FilterNone(shares, WindowTest(startTs, end));
        assert x[0].shares == [] && y[0].shares == [];
        assert SumInt<ShareRow>([], UnitsColumn()) == 0;
        assert PayOf(x[0], w) == 0.0 && PayOf(y[0], w) == 0.0;
        assert Distributed(x[0]) == 0.0 && Distributed(y[0]) == 0.0;
      } else {
        assert StartOf(startTs, a, 0) != end;
        assert a[0] == b[0];
      }
    }
  }

  lemma LeadAt(rows: seq<RewardRow>, wins: seq<RewardRow>, k: nat)
    requires Sorted(ByCompletion, wins) && k < |wins|
    requires forall r :: r in wins <==> r in rows && IsWin(r)
    requires k == 0 || wins[k - 1].completedTs != wins[k].completedTs
    ensures Leads(rows, wins[k])
  {
    forall m | 0 <= m < k ensures wins[m].completedTs < wins[k].completedTs {
      assert m == k - 1 || ByCompletion(wins[m], wins[k - 1]);
      assert ByCompletion(wins[k - 1], wins[k]);
    }
    forall c | c in rows && IsWin(c) && c.completedTs == wins[k].completedTs ensures wins[k].poolTaskId <= c.poolTaskId {
      var m :| 0 <= m < |wins| && wins[m] == c;
      assert m == k || ByCompletion(wins[k], wins[m]);
    }
  }

  lemma SortedWins(a: seq<RewardRow>, b: seq<RewardRow>)
    requires multiset(a) == multiset(b)
    ensures Sorted(ByCompletion, Wins(a)) && Keys(Wins(a)) == Keys(Wins(b))
    ensures forall r :: r in Wins(a) <==> r in a && IsWin(r)
    ensures forall r :: r in Wins(b) <==> r in a && IsWin(r)
    ensures Sorted(ByCompletion, Wins(b))
  {
    WinsAscend(a);
    WinsAscend(b);
    FilterPermute(a, b, IsWin);
    SameElements(a, b);
    KeysOfSorted(Wins(a), Wins(b));
  }

  lemma LeadingRowsEqual(rows: seq<RewardRow>, x: seq<RewardRow>, y: seq<RewardRow>, k: nat)
    requires Sorted(ByCompletion, x) && Sorted(ByCompletion, y) && k < |x| == |y| && SameKey(x[k], y[k])
    requires forall r :: r in x <==> r in rows && IsWin(r)
    requires forall r :: r in y <==> r in rows && IsWin(r)
    requires k == 0 || (x[k - 1].completedTs == y[k - 1].completedTs != x[k].completedTs)
    requires LeadsAgree(rows)
    ensures x[k] == y[k]
  {
    hide Leads, Sorted, IsWin;
    LeadAt(rows, x, k);
    LeadAt(rows, y, k);
  }

  lemma KeysAt(x: seq<RewardRow>, y: seq<RewardRow>, k: nat)
    requires Keys(x) == Keys(y) && k < |x|
    ensures |x| == |y| && SameKey(x[k], y[k])
    ensures k > 0 ==> x[k - 1].completedTs == y[k - 1].completedTs
  {
    assert Keys(x)[k] == Keys(y)[k];
    assert k > 0 ==> Keys(x)[k - 1] == Keys(y)[k - 1];
  }

  lemma PositiveTimes(rows: seq<RewardRow>, wins: seq<RewardRow>)
    requires forall r :: r in wins <==> r in rows && IsWin(r)
    ensures forall k :: 0 <= k < |wins| ==> wins[k].completedTs > 0
  {
    forall k | 0 <= k < |wins| ensures wins[k].completedTs > 0 { assert wins[k] in wins; }
  }

  lemma AgreeingOrderIrrelevant(a: seq<RewardRow>, b: seq<RewardRow>, shares: seq<ShareRow>, w: string)
    requires multiset(a) == multiset(b) && LeadsAgree(a)
    ensures GrossOf(AllRounds(a, shares), w) == GrossOf(AllRounds(b, shares), w)
    ensures GrossTotal(AllRounds(a, shares)) == GrossTotal(AllRounds(b, shares))
  {
    hide LeadsAgree, Sorted, IsWin, Wins;
    SortedWins(a, b);
    var x, y := Wins(a), Wins(b);
    forall k | 0 <= k < |x| && StartOf(0, x, k) != x[k].completedTs ensures x[k] == y[k] {
      KeysAt(x, y, k);
      LeadingRowsEqual(a, x, y, k);
    }
    PositiveTimes(a, x);
    assert AllRounds(a, shares) == Rounds(0, x, shares) && AllRounds(b, shares) == Rounds(0, y, shares);
    SameLeadsSamePay(0, x, y, shares, w);
  }

  // ----- disagreeing leads show in the amounts

  /** A row that fits before the first of a sorted list fits before all of it. */
  lemma FitsBeforeAll(x: RewardRow, s: seq<RewardRow>)
    requires Sorted(ByCompletion, s) && s != [] && ByCompletion(x, s[0])
    ensures forall i :: 0 <= i < |s| ==> ByCompletion(x, s[i])
  {
    forall i | 0 <= i < |s| ensures ByCompletion(x, s[i]) {
      assert i == 0 || ByCompletion(s[0], s[i]);
    }
  }

  lemma {:induction false} InsertSplits(x: RewardRow, s: seq<RewardRow>) returns (k: nat)
    requires Sorted(ByCompletion, s)
    ensures k <= |s| && Insert(ByCompletion, x, s) == s[..k] + [x] + s[k..]
    ensures forall i :: 0 <= i < k ==> !ByCompletion(x, s[i])
    ensures forall i :: k <= i < |s| ==> ByCompletion(x, s[i])
    decreases |s|
  {
    hide ByCompletion;
    k := 0;
    if s == [] {
    } else if ByCompletion(x, s[0]) {
      FitsBeforeAll(x, s);
    } else {
      SortedTail(s);
      k := InsertSplits(x, s[1..]);
      SplitsShift(x, s, k);
      k := k + 1;
    }
  }

  lemma SortedTail(s: seq<RewardRow>)
    requires Sorted(ByCompletion, s) && s != []
    ensures Sorted(ByCompletion, s[1..])
  {
  }

  /** Inserting behind the first row shifts the insertion point by one. */
  lemma SplitsShift(x: RewardRow, s: seq<RewardRow>, k: nat)
    requires s != [] && k < |s| && !ByCompletion(x, s[0])
    requires Insert(ByCompletion, x, s[1..]) == s[1..][..k] + [x] + s[1..][k..]
    ensures Insert(ByCompletion, x, s) == s[..k + 1] + [x] + s[k + 1..]
  {
    hide ByCompletion;
    Regroup([s[0]], s[1..][..k], [x], s[1..][k..]);
    assert s[..k + 1] == [s[0]] + s[1..][..k];
    assert s[k + 1..] == s[1..][k..];
  }

  lemma Regroup<T>(a: seq<T>, b: seq<T>, c: seq<T>, d: seq<T>)
    ensures a + (b + c + d) == (a + b) + c + d
  {
  }

  /** With one share at time `at`, only the first win at or after that time pays. */
  lemma {:induction false} OneSharePays(startTs: int, pre: seq<RewardRow>, x: RewardRow, post: seq<RewardRow>, share: ShareRow)
    requires share.units == 1 && share.createdTs == x.completedTs > 0 && (pre == [] ==> startTs < x.completedTs)
    requires forall r :: r in pre ==> 0 < r.completedTs < x.completedTs
    requires forall r :: r in post ==> x.completedTs <= r.completedTs
    ensures GrossOf(Rounds(startTs, pre + [x] + post, [share]), share.workerId) == x.reward
    decreases |pre|
  {
    var all := pre + [x] + post;
    assert all[1..] == if pre == [] then post else pre[1..] + [x] + post;
    var rs := Rounds(startTs, all, [share]);
    if pre == [] {
      assert all[0] == x;
      assert rs[1..] == Rounds(x.completedTs, post, [share]);
      NothingLeft(x.completedTs, post, share);
      FilterOne(share, WindowTest(startTs, x.completedTs));
      assert rs[0].shares == [share];
      SingleShare(share);
      FractionWhole(x.reward, 1);
    } else {
      assert all[0] == pre[0];
      assert rs[1..] == Rounds(pre[0].completedTs, all[1..], [share]);
      FilterNone([share], WindowTest(startTs, pre[0].completedTs));
      forall r | r in pre[1..] ensures r in pre {}
      OneSharePays(pre[0].completedTs, pre[1..], x, post, share);
    }
  }

  lemma SingleShare(share: ShareRow)
    ensures UnitsIn([share]) == share.units && UnitsBy([share], share.workerId) == share.units
  {
    assert [share][1..] == [];
    assert SumInt([share][1..], UnitsColumn()) == 0 && SumInt([share][1..], UnitsFor(share.workerId)) == 0;
  }

  lemma {:induction false} NothingLeft(startTs: int, post: seq<RewardRow>, share: ShareRow)
    requires 0 < share.createdTs <= startTs
    requires forall i :: 0 <= i < |post| ==> share.createdTs <= post[i].completedTs
    ensures GrossOf(Rounds(startTs, post, [share]), share.workerId) == 0.0
    decreases |post|
  {
    if post != [] {
      FilterNone([share], WindowTest(startTs, post[0].completedTs));
      assert Rounds(startTs, post, [share])[1..] == Rounds(post[0].completedTs, post[1..], [share]);
      NothingLeft(post[0].completedTs, post[1..], share);
    }
  }

  /** Listing a leading win first makes it the one that pays for a share of its time. */
  lemma LeadListedFirst(x: RewardRow, rest: seq<RewardRow>, share: ShareRow)
    requires Leads([x] + rest, x) && share == ShareRow(share.workerId, 1, x.completedTs)
    ensures GrossOf(AllRounds([x] + rest, [share]), share.workerId) == x.reward
  {
    var rows := [x] + rest;
    assert rows[1..] == rest;
    assert Filter(rows, IsWin) == [x] + Filter(rest, IsWin);
    var tail := Sort(ByCompletion, Filter(rest, IsWin));
    assert Filter(rows, IsWin)[1..] == Filter(rest, IsWin);
    assert Wins(rows) == Insert(ByCompletion, x, tail);
    ByCompletionTotal();
    SortSorted(ByCompletion, Filter(rest, IsWin));
    SameElements(tail, Filter(rest, IsWin));
    var k := InsertSplits(x, tail);
    forall r | r in tail[..k] ensures 0 < r.completedTs < x.completedTs {
      assert r in tail && r in rows;
    }
    OneSharePays(0, tail[..k], x, tail[k..], share);
  }

  lemma MoveToFront(rows: seq<RewardRow>, x: RewardRow) returns (rest: seq<RewardRow>)
    requires x in rows
    ensures multiset([x] + rest) == multiset(rows)
  {
    var i :| 0 <= i < |rows| && rows[i] == x;
    RemoveAt(rows, i);
    rest := rows[..i] + rows[i + 1..];
  }

  ghost predicate OrderIrrelevant(rows: seq<RewardRow>)
  {
    && (forall other, shares, w :: multiset(other) == multiset(rows)
          ==> GrossOf(AllRounds(other, shares), w) == GrossOf(AllRounds(rows, shares), w))
    && (forall other, shares :: multiset(other) == multiset(rows)
          ==> GrossTotal(AllRounds(other, shares)) == GrossTotal(AllRounds(rows, shares)))
  }

  lemma DisagreeingOrderShows(rows: seq<RewardRow>, a: RewardRow, b: RewardRow)
    requires Leads(rows, a) && Leads(rows, b) && SameKey(a, b) && a.reward != b.reward
    ensures !OrderIrrelevant(rows)
  {
    var share := ShareRow("w", 1, a.completedTs);
    var restA := MoveToFront(rows, a);
    var restB := MoveToFront(rows, b);
    SameElements([a] + restA, rows);
    SameElements([b] + restB, rows);
    LeadListedFirst(a, restA, share);
    LeadListedFirst(b, restB, share);
  }

  lemma AgreeingIsIrrelevant(rows: seq<RewardRow>)
    requires LeadsAgree(rows)
    ensures OrderIrrelevant(rows)
  {
    hide GrossOf, GrossTotal, AllRounds, LeadsAgree;
    forall other, shares, w | multiset(other) == multiset(rows)
      ensures GrossOf(AllRounds(other, shares), w) == GrossOf(AllRounds(rows, shares), w)
    {
      AgreeingOrderIrrelevant(rows, other, shares, w);
    }
    forall other, shares | multiset(other) == multiset(rows)
      ensures GrossTotal(AllRounds(other, shares)) == GrossTotal(AllRounds(rows, shares))
    {
      AgreeingOrderIrrelevant(rows, other, shares, "");
    }
  }

  /** The amounts are independent of the order of the reward rows, for all shares, exactly when leading wins agree. */
  lemma RewardOrderIff(rows: seq<RewardRow>)
    ensures OrderIrrelevant(rows) <==> LeadsAgree(rows)
  {
    hide OrderIrrelevant;
    if LeadsAgree(rows) {
      AgreeingIsIrrelevant(rows);
    } else {
      var a, b :| Leads(rows, a) && Leads(rows, b) && SameKey(a, b) && a.reward != b.reward;
      DisagreeingOrderShows(rows, a, b);
    }
  }

  /** Rows of different tasks, as the task table's primary key guarantees, can be listed in any order. */
  lemma DistinctIdsOrderIrrelevant(rows: seq<RewardRow>)
    requires forall i, j :: 0 <= i < j < |rows| ==> rows[i].poolTaskId != rows[j].poolTaskId
    ensures OrderIrrelevant(rows)
  {
    hide OrderIrrelevant;
    forall a, b | Leads(rows, a) && Leads(rows, b) && SameKey(a, b) ensures a.reward == b.reward {
      var i :| 0 <= i < |rows| && rows[i] == a;
      var j :| 0 <= j < |rows| && rows[j] == b;
    }
    RewardOrderIff(rows);
  }

  /** Two rows for one task and time: the row listed first decides what the share earns. */
  lemma OrderCanMatter()
    ensures !OrderIrrelevant([RewardRow(7, 1.0, 5), RewardRow(7, 2.0, 5)])
  {
    var rows := [RewardRow(7, 1.0, 5), RewardRow(7, 2.0, 5)];
    assert rows[0] in rows && rows[1] in rows;
    DisagreeingOrderShows(rows, rows[0], rows[1]);
  }
}
