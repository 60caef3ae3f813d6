/** The share views of the statistics page: windows cut again by other code, and why they agree with the payouts. */
module PoolStats {
  import opened Prelude
  import opened StableSort
  import opened TextOrder
  import opened Sums
  import opened RoundWindows
  import opened PayoutSummary

  // ----- windows of the statistics page

  /** A bound of 0 stands for an absent or unreadable time, which does not bound the window. */
  predicate IsInView(startTs: int, endTs: int, s: ShareRow)
  {
    s.createdTs > 0 && (startTs > 0 ==> s.createdTs > startTs) && (endTs > 0 ==> s.createdTs <= endTs)
  }

  function ViewTest(startTs: int, endTs: int): ShareRow -> bool { (s: ShareRow) => IsInView(startTs, endTs, s) }

  method FilterSharesByWindow(rows: seq<ShareRow>, startTs: int, endTs: int) returns (windowed: seq<ShareRow>)
    ensures windowed == Filter(rows, ViewTest(startTs, endTs))
  {
    windowed := [];
    for i := 0 to |rows|
      invariant windowed == Filter(rows[..i], ViewTest(startTs, endTs))
    {
      FilterNext(rows, ViewTest(startTs, endTs), i);
      if rows[i].createdTs <= 0 { continue; }
      if startTs > 0 && rows[i].createdTs <= startTs { continue; }
      if endTs > 0 && rows[i].createdTs > endTs { continue; }
      windowed := windowed + [rows[i]];
    }
    assert rows[..|rows|] == rows;
  }

  lemma FilterNext(rows: seq<ShareRow>, p: ShareRow -> bool, i: nat)
    requires i < |rows|
    ensures Filter(rows[..i + 1], p) == if p(rows[i]) then Filter(rows[..i], p) + [rows[i]] else Filter(rows[..i], p)
  {
    assert rows[..i + 1] == rows[..i] + [rows[i]];
    FilterAppend(rows[..i], [rows[i]], p);
    FilterOne(rows[i], p);
  }

  /** Where the last round starts and ends, and where the current one starts; 0 where there is none. */
  datatype LatestWindow = LatestWindow(lastStart: int, lastEnd: int)

  function ByTime(a: RewardRow, b: RewardRow): bool { a.completedTs <= b.completedTs }

  function LatestRewardWindow(rewards: seq<RewardRow>): LatestWindow
  {
    var ordered := Sort(ByTime, rewards);
    if ordered == [] then LatestWindow(0, 0)
    else LatestWindow(if |ordered| >= 2 then ordered[|ordered| - 2].completedTs else 0, ordered[|ordered| - 1].completedTs)
  }

  // ----- units per worker

  datatype ShareLine = ShareLine(workerId: string, units: int, fraction: real)

  function PartOf(units: int, total: int): real { if total != 0 then units as real / total as real else 0.0 }

  predicate HasLine(lines: seq<ShareLine>, w: string) { exists i :: 0 <= i < |lines| && lines[i].workerId == w }

  predicate HasShare(rows: seq<ShareRow>, w: string) { exists s :: s in rows && s.workerId == w }

  /** What the table of shares per worker says. */
  ghost predicate Summarizes(lines: seq<ShareLine>, rows: seq<ShareRow>)
  {
    && (forall i, j :: 0 <= i < j < |lines| ==> lines[i].workerId != lines[j].workerId && TextLe(lines[i].workerId, lines[j].workerId))
    && (forall s :: s in rows ==> HasLine(lines, s.workerId))
    && (forall i :: 0 <= i < |lines| ==>
          && HasShare(rows, lines[i].workerId)
          && lines[i].units == UnitsBy(rows, lines[i].workerId)
          && lines[i].fraction == PartOf(lines[i].units, UnitsIn(rows)))
  }

  method SummarizeShares(rows: seq<ShareRow>) returns (lines: seq<ShareLine>, total: int)
    ensures Summarizes(lines, rows)
    ensures total == UnitsIn(rows)
  {
    hide Tally, Summarizes;
    var names: seq<string>, units: map<string, int> := [], map[];
    TallyEmpty();
    for i := 0 to |rows|
      invariant Tally(names, units, rows[..i])
    {
      var w := rows[i].workerId;
      assert rows[..i + 1] == rows[..i] + [rows[i]];
      TallyAdd(names, units, rows[..i], rows[i]);
      names, units := if w in units then names else names + [w],
                      units[w := (if w in units then units[w] else 0) + rows[i].units];
    }
    assert rows[..|rows|] == rows;
    TallyTotals(names, units, Round(RewardRow(0, 0.0, 0), 0, rows));
    total := SumInt(names, (w: string) => if w in units then units[w] else 0);
    var ordered := Sort(TextLe, names);
    SortedNames(names, units, rows);
    lines := seq(|ordered|, i requires 0 <= i < |ordered| && ordered[i] in units =>
      ShareLine(ordered[i], units[ordered[i]], PartOf(units[ordered[i]], total)));
    LinesSummarize(lines, ordered, names, units, rows);
  }

  lemma SortedNames(names: seq<string>, units: map<string, int>, rows: seq<ShareRow>)
    requires Tally(names, units, rows)
    ensures forall i :: 0 <= i < |Sort(TextLe, names)| ==> Sort(TextLe, names)[i] in units
    ensures forall w :: w in Sort(TextLe, names) <==> w in names
    ensures Sorted(TextLe, Sort(TextLe, names)) && Distinct(Sort(TextLe, names))
  {
    TextLeTotal();
    SortSorted(TextLe, names);
    SameElements(Sort(TextLe, names), names);
    DistinctPermute(names, Sort(TextLe, names));
  }

  /** Line i of the table belongs to the i-th name in order. */
  predicate LinesFollow(lines: seq<ShareLine>, ordered: seq<string>, units: map<string, int>, total: int)
  {
    && |lines| == |ordered|
    && forall i :: 0 <= i < |lines| ==>
         ordered[i] in units && lines[i] == ShareLine(ordered[i], units[ordered[i]], PartOf(units[ordered[i]], total))
  }

  lemma LineHolds(lines: seq<ShareLine>, ordered: seq<string>, names: seq<string>, units: map<string, int>, rows: seq<ShareRow>, i: nat)
    requires Tally(names, units, rows) && LinesFollow(lines, ordered, units, UnitsIn(rows)) && i < |lines|
    requires ordered[i] in names
    ensures HasShare(rows, lines[i].workerId)
    ensures lines[i].units == UnitsBy(rows, lines[i].workerId) && lines[i].fraction == PartOf(lines[i].units, UnitsIn(rows))
  {
  }

  lemma ShareHasLine(lines: seq<ShareLine>, ordered: seq<string>, names: seq<string>, units: map<string, int>, rows: seq<ShareRow>, s: ShareRow)
    requires Tally(names, units, rows) && LinesFollow(lines, ordered, units, UnitsIn(rows)) && s in rows
    requires forall w :: w in ordered <==> w in names
    ensures HasLine(lines, s.workerId)
  {
    assert s.workerId in ordered;
    var i :| 0 <= i < |ordered| && ordered[i] == s.workerId;
    assert lines[i].workerId == s.workerId;
  }

  lemma LinesSummarize(lines: seq<ShareLine>, ordered: seq<string>, names: seq<string>, units: map<string, int>, rows: seq<ShareRow>)
    requires Tally(names, units, rows) && LinesFollow(lines, ordered, units, UnitsIn(rows))
    requires Sorted(TextLe, ordered) && Distinct(ordered) && forall w :: w in ordered <==> w in names
    ensures Summarizes(lines, rows)
  {
    hide Tally, UnitsBy, UnitsIn, PartOf, TextLe, HasLine, HasShare;
    forall s | s in rows ensures HasLine(lines, s.workerId) {
      ShareHasLine(lines, ordered, names, units, rows, s);
    }
    forall i | 0 <= i < |lines|
      ensures HasShare(rows, lines[i].workerId)
      ensures lines[i].units == UnitsBy(rows, lines[i].workerId) && lines[i].fraction == PartOf(lines[i].units, UnitsIn(rows))
    {
      LineHolds(lines, ordered, names, units, rows, i);
    }
  }

  /** A line's fraction is its part of the window's units. */
  lemma FractionIs(lines: seq<ShareLine>, rows: seq<ShareRow>, i: nat)
    requires Summarizes(lines, rows) && i < |lines|
    ensures if UnitsIn(rows) == 0 then lines[i].fraction == 0.0
            else lines[i].fraction * UnitsIn(rows) as real == UnitsBy(rows, lines[i].workerId) as real
  {
    hide UnitsIn, UnitsBy, TextLe;
    var total, units := UnitsIn(rows), UnitsBy(rows, lines[i].workerId);
    if total != 0 { assert units as real / total as real * total as real == units as real; }
  }

  /** The workers' units in the table add up to the window's units. */
  lemma TableAddsUp(lines: seq<ShareLine>, rows: seq<ShareRow>)
    requires Summarizes(lines, rows)
    ensures SumInt(lines, (l: ShareLine) => l.units) == UnitsIn(rows)
  {
    hide UnitsBy, TextLe;
    var names := Column(lines, (l: ShareLine) => l.workerId);
    forall s | s in rows ensures s.workerId in names {
      var i :| 0 <= i < |lines| && lines[i].workerId == s.workerId;
      assert names[i] == s.workerId;
    }
    WorkerUnitsAddUp(rows, names);
    SumColumn(lines, rows);
  }

  lemma {:induction false} SumColumn(lines: seq<ShareLine>, rows: seq<ShareRow>)
    requires forall i :: 0 <= i < |lines| ==> lines[i].units == UnitsBy(rows, lines[i].workerId)
    ensures SumInt(lines, (l: ShareLine) => l.units)
            == SumInt(Column(lines, (l: ShareLine) => l.workerId), (w: string) => UnitsBy(rows, w))
  {
    if lines != [] {
      SumColumn(lines[1..], rows);
      assert Column(lines, (l: ShareLine) => l.workerId)[1..] == Column(lines[1..], (l: ShareLine) => l.workerId);
    }
  }

  // ----- agreement with the payout rounds

  /** What the database guarantees of the rows both computations read. */
  predicate RowsAreSound(rewards: seq<RewardRow>, shares: seq<ShareRow>)
  {
    (forall r :: r in rewards ==> IsWin(r)) && (forall s :: s in shares ==> IsValidShare(s))
  }

  lemma {:induction false} FilterSame<T(!new)>(s: seq<T>, p: T -> bool, q: T -> bool)
    requires forall x :: x in s ==> p(x) == q(x)
    ensures Filter(s, p) == Filter(s, q)
  {
    if s != [] { FilterSame(s[1..], p, q); }
  }

  function TimeOf(r: RewardRow): int { r.completedTs }

  function IntLe(a: int, b: int): bool { a <= b }

  lemma TimesAscend(rows: seq<RewardRow>)
    requires Sorted(ByTime, rows)
    ensures Sorted(IntLe, Column(rows, TimeOf))
  {
    forall i, j | 0 <= i < j < |rows| ensures IntLe(Column(rows, TimeOf)[i], Column(rows, TimeOf)[j]) {
      assert ByTime(rows[i], rows[j]);
    }
  }

  lemma CompletionIsByTime(rows: seq<RewardRow>)
    requires Sorted(ByCompletion, rows)
    ensures Sorted(ByTime, rows)
  {
    forall i, j | 0 <= i < j < |rows| ensures ByTime(rows[i], rows[j]) {
      assert ByCompletion(rows[i], rows[j]);
    }
  }

  lemma ByTimeTotal()
    ensures TotalPreorder(ByTime)
  {
  }

  /** Sorting by time alone and sorting by time and id see the same times in the same places, ties included. */
  lemma SameTimes(rewards: seq<RewardRow>)
    requires forall r :: r in rewards ==> IsWin(r)
    ensures |Wins(rewards)| == |Sort(ByTime, rewards)|
    ensures forall i :: 0 <= i < |Wins(rewards)| ==> Wins(rewards)[i].completedTs == Sort(ByTime, rewards)[i].completedTs
  {
    hide IsWin, Sort, Sorted, Wins;
    var a, b := Sort(ByTime, rewards), Wins(rewards);
    FilterWhole(rewards, IsWin);
    WinsAre(rewards);
    WinsAscend(rewards);
    ByTimeTotal();
    SortSorted(ByTime, rewards);
    CompletionIsByTime(b);
    TimesAscend(a);
    TimesAscend(b);
    ColumnPermute(a, b, TimeOf);
    SortedUnique(IntLe, Column(a, TimeOf), Column(b, TimeOf));
    forall i | 0 <= i < |b| ensures b[i].completedTs == a[i].completedTs {
      assert Column(a, TimeOf)[i] == Column(b, TimeOf)[i];
    }
  }

  lemma WinsAre(rewards: seq<RewardRow>)
    ensures Wins(rewards) == Sort(ByCompletion, Filter(rewards, IsWin))
  {
  }

  /** Two windows of the statistics page: the last round's and the current one's. */
  function LastView(rewards: seq<RewardRow>, shares: seq<ShareRow>): seq<ShareRow>
  {
    Filter(shares, ViewTest(LatestRewardWindow(rewards).lastStart, LatestRewardWindow(rewards).lastEnd))
  }

  function CurrentView(rewards: seq<RewardRow>, shares: seq<ShareRow>): seq<ShareRow>
  {
    Filter(shares, ViewTest(LatestRewardWindow(rewards).lastEnd, 0))
  }

  /** The shares of the last round are exactly those of the newest round the payouts distribute. */
  lemma LastViewIsNewestRound(rewards: seq<RewardRow>, shares: seq<ShareRow>)
    requires RowsAreSound(rewards, shares) && rewards != []
    ensures var rs := AllRounds(rewards, shares);
            rs != [] && LastView(rewards, shares) == rs[|rs| - 1].shares
  {
    SameTimes(rewards);
    var rs, wins := AllRounds(rewards, shares), Wins(rewards);
    var n := |rs| - 1;
    WinsAscend(rewards);
    assert wins[n] in wins;
    FilterSame(shares, ViewTest(LatestRewardWindow(rewards).lastStart, LatestRewardWindow(rewards).lastEnd),
               WindowTest(rs[n].startTs, wins[n].completedTs));
  }

  /** Units of the shares after a time; a time of 0 takes them all. */
  function UnitsAfter(shares: seq<ShareRow>, startTs: int): int { UnitsIn(Filter(shares, ViewTest(startTs, 0))) }

  function RoundUnitsColumn(): Round -> int { (r: Round) => UnitsIn(r.shares) }

  lemma {:induction false} SplitWindow(shares: seq<ShareRow>, startTs: int, endTs: int)
    requires forall s :: s in shares ==> IsValidShare(s)
    requires 0 <= startTs <= endTs && 0 < endTs
    ensures UnitsAfter(shares, startTs) == UnitsIn(Window(shares, startTs, endTs)) + UnitsAfter(shares, endTs)
  {
    if shares != [] {
      SplitWindow(shares[1..], startTs, endTs);
      var s := shares[0];
      UnitsFirst(shares, ViewTest(startTs, 0));
      UnitsFirst(shares, WindowTest(startTs, endTs));
      UnitsFirst(shares, ViewTest(endTs, 0));
      assert s in shares;
    }
  }

  lemma UnitsFirst(shares: seq<ShareRow>, p: ShareRow -> bool)
    requires shares != []
    ensures UnitsIn(Filter(shares, p)) == (if p(shares[0]) then shares[0].units else 0) + UnitsIn(Filter(shares[1..], p))
  {
    var rest := Filter(shares[1..], p);
    assert ([shares[0]] + rest)[1..] == rest;
    assert [] + rest == rest;
  }

  /** From any start: rounds and open window together hold every later share once. */
  lemma {:induction false} RoundsAndOpenWindow(startTs: int, wins: seq<RewardRow>, shares: seq<ShareRow>)
    requires forall s :: s in shares ==> IsValidShare(s)
    requires Sorted(ByTime, wins) && 0 <= startTs && forall i :: 0 <= i < |wins| ==> startTs <= wins[i].completedTs && 0 < wins[i].completedTs
    ensures UnitsAfter(shares, startTs)
            == SumInt(Rounds(startTs, wins, shares), RoundUnitsColumn())
               + UnitsAfter(shares, if wins == [] then startTs else wins[|wins| - 1].completedTs)
    decreases |wins|
  {
    hide UnitsAfter;
    if wins != [] {
      var end := wins[0].completedTs;
      SplitWindow(shares, startTs, end);
      forall i | 0 <= i < |wins[1..]| ensures end <= wins[1..][i].completedTs && 0 < wins[1..][i].completedTs {
        assert ByTime(wins[0], wins[i + 1]);
      }
      RoundsAndOpenWindow(end, wins[1..], shares);
      assert Rounds(startTs, wins, shares)[1..] == Rounds(end, wins[1..], shares);
    }
  }

  /** Lifetime units are the units of all rounds plus those of the open window, however completion times tie. */
  lemma LifetimeSplits(rewards: seq<RewardRow>, shares: seq<ShareRow>)
    requires RowsAreSound(rewards, shares)
    ensures UnitsIn(shares)
            == SumInt(AllRounds(rewards, shares), RoundUnitsColumn()) + UnitsIn(CurrentView(rewards, shares))
  {
    SameTimes(rewards);
    WinsAscend(rewards);
    var wins := Wins(rewards);
    CompletionIsByTime(wins);
    forall i | 0 <= i < |wins| ensures 0 < wins[i].completedTs { assert wins[i] in wins; }
    RoundsAndOpenWindow(0, wins, shares);
    FilterWhole(shares, ViewTest(0, 0));
  }
}
