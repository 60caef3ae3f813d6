/** Reward windows: which shares each won block pays for, and what every worker gets from it. */
module RoundWindows {
  import opened Prelude
  import opened StableSort
  import opened Sums

  /** Times are whole numbers; 0 stands for a missing or unreadable time.
      A pool task id is fixed-width hexadecimal text, kept as the number it spells, which has the same order. */
  datatype RewardRow = RewardRow(poolTaskId: int, reward: real, completedTs: int)

  datatype ShareRow = ShareRow(workerId: string, units: int, createdTs: int)

  datatype PayoutRow = PayoutRow(workerId: string, address: Option<string>, amount: real, fee: real)

  /** A won block with the shares of its window; startTs 0 means the window has no start. */
  datatype Round = Round(reward: RewardRow, startTs: int, shares: seq<ShareRow>)

  // ----- windows

  function ByCompletion(a: RewardRow, b: RewardRow): bool
  {
    a.completedTs < b.completedTs || (a.completedTs == b.completedTs && a.poolTaskId <= b.poolTaskId)
  }

  predicate IsWin(r: RewardRow) { r.reward > 0.0 && r.completedTs > 0 }

  predicate IsValidShare(s: ShareRow) { s.units > 0 && s.createdTs > 0 }

  function Wins(rows: seq<RewardRow>): seq<RewardRow>
  {
    Sort(ByCompletion, Filter(rows, IsWin))
  }

  predicate InWindow(startTs: int, endTs: int, s: ShareRow)
  {
    IsValidShare(s) && (startTs > 0 ==> s.createdTs > startTs) && s.createdTs <= endTs
  }

  function WindowTest(startTs: int, endTs: int): ShareRow -> bool { (s: ShareRow) => InWindow(startTs, endTs, s) }

  function Window(shares: seq<ShareRow>, startTs: int, endTs: int): seq<ShareRow>
  {
    Filter(shares, WindowTest(startTs, endTs))
  }

  /** One round per won block, each starting where the one before ended. */
  function Rounds(startTs: int, wins: seq<RewardRow>, shares: seq<ShareRow>): (rs: seq<Round>)
    ensures |rs| == |wins|
    ensures forall k :: 0 <= k < |wins| ==>
              rs[k].reward == wins[k]
              && rs[k].startTs == (if k == 0 then startTs else wins[k - 1].completedTs)
              && rs[k].shares == Window(shares, rs[k].startTs, wins[k].completedTs)
    decreases |wins|
  {
    if wins == [] then []
    else [Round(wins[0], startTs, Window(shares, startTs, wins[0].completedTs))] + Rounds(wins[0].completedTs, wins[1..], shares)
  }

  function AllRounds(rewards: seq<RewardRow>, shares: seq<ShareRow>): seq<Round>
  {
    Rounds(0, Wins(rewards), shares)
  }

  lemma ByCompletionTotal()
    ensures TotalPreorder(ByCompletion)
  {
  }

  lemma WinsAscend(rows: seq<RewardRow>)
    ensures Sorted(ByCompletion, Wins(rows))
    ensures forall r :: r in Wins(rows) <==> r in rows && IsWin(r)
  {
    ByCompletionTotal();
    SortSorted(ByCompletion, Filter(rows, IsWin));
    SameElements(Wins(rows), Filter(rows, IsWin));
  }

  predicate InRound(r: Round, s: ShareRow) { InWindow(r.startTs, r.reward.completedTs, s) }

  lemma RoundsDisjoint(rs: seq<Round>, wins: seq<RewardRow>, shares: seq<ShareRow>, i: nat, j: nat, s: ShareRow)
    requires Sorted(ByCompletion, wins) && rs == Rounds(0, wins, shares) && (forall r :: r in wins ==> IsWin(r))
    requires i < j < |rs| && InRound(rs[i], s)
    ensures !InRound(rs[j], s)
  {
    LaterWindow(wins, i, j);
    assert wins[j - 1] in wins;
  }

  /** A valid share belongs to exactly one round when it is no later than the last win, and to none otherwise. */
  lemma OneRoundPerShare(rewards: seq<RewardRow>, shares: seq<ShareRow>, s: ShareRow)
    requires IsValidShare(s)
    ensures var rs := AllRounds(rewards, shares);
            && (forall i, j :: 0 <= i < j < |rs| ==> !(InRound(rs[i], s) && InRound(rs[j], s)))
            && ((exists i :: 0 <= i < |rs| && InRound(rs[i], s))
                <==> rs != [] && s.createdTs <= rs[|rs| - 1].reward.completedTs)
  {
    var rs := AllRounds(rewards, shares);
    WinsAscend(rewards);
    forall i, j | 0 <= i < j < |rs| ensures !(InRound(rs[i], s) && InRound(rs[j], s)) {
      if InRound(rs[i], s) { RoundsDisjoint(rs, Wins(rewards), shares, i, j, s); }
    }
    SomeRound(rs, Wins(rewards), shares, s);
  }

  lemma SomeRound(rs: seq<Round>, wins: seq<RewardRow>, shares: seq<ShareRow>, s: ShareRow)
    requires IsValidShare(s) && Sorted(ByCompletion, wins) && rs == Rounds(0, wins, shares)
    ensures (exists i :: 0 <= i < |rs| && InRound(rs[i], s)) <==> rs != [] && s.createdTs <= rs[|rs| - 1].reward.completedTs
  {
    if rs != [] && s.createdTs <= rs[|rs| - 1].reward.completedTs {
      var k := FirstWinFrom(wins, s.createdTs);
      assert InRound(rs[k], s);
    }
    if i :| 0 <= i < |rs| && InRound(rs[i], s) {
      assert i == |wins| - 1 || ByCompletion(wins[i], wins[|wins| - 1]);
    }
  }

  lemma LaterWindow(wins: seq<RewardRow>, i: nat, j: nat)
    requires Sorted(ByCompletion, wins) && i < j < |wins|
    ensures wins[i].completedTs <= wins[j - 1].completedTs
  {
    assert i == j - 1 || ByCompletion(wins[i], wins[j - 1]);
  }

  lemma {:induction false} FirstWinFrom(wins: seq<RewardRow>, at: int) returns (k: nat)
    requires wins != [] && at <= wins[|wins| - 1].completedTs
    ensures k < |wins| && at <= wins[k].completedTs
    ensures k > 0 ==> wins[k - 1].completedTs < at
  {
    if at <= wins[0].completedTs {
      k := 0;
    } else {
      k := FirstWinFrom(wins[1..], at);
      k := k + 1;
    }
  }

  // ----- units and amounts

  function UnitsFor(w: string): ShareRow -> int { (s: ShareRow) => if s.workerId == w then s.units else 0 }

  function UnitsColumn(): ShareRow -> int { (s: ShareRow) => s.units }

  function UnitsBy(shares: seq<ShareRow>, w: string): int { SumInt(shares, UnitsFor(w)) }

  function UnitsIn(shares: seq<ShareRow>): int { SumInt(shares, UnitsColumn()) }

  function Fraction(amount: real, part: int, whole: int): real
    requires whole > 0
  {
    amount * part as real / whole as real
  }

  /** What a round pays a worker before fees. */
  function PayOf(r: Round, w: string): real
  {
    if UnitsIn(r.shares) > 0 then Fraction(r.reward.reward, UnitsBy(r.shares, w), UnitsIn(r.shares)) else 0.0
  }

  /** A worker's part of the reward is its part of the units. */
  lemma PayIsProportional(r: Round, w: string)
    ensures UnitsIn(r.shares) > 0 ==> PayOf(r, w) * UnitsIn(r.shares) as real == r.reward.reward * UnitsBy(r.shares, w) as real
    ensures UnitsIn(r.shares) <= 0 ==> PayOf(r, w) == 0.0
  {
    hide UnitsIn, UnitsBy;
    var total, part := UnitsIn(r.shares) as real, r.reward.reward * UnitsBy(r.shares, w) as real;
    if UnitsIn(r.shares) > 0 { assert part / total * total == part; }
  }

  function PayFor(w: string): Round -> real { (r: Round) => PayOf(r, w) }

  function GrossOf(rounds: seq<Round>, w: string): real { SumReal(rounds, PayFor(w)) }

  /** The reward of a round that has shares. */
  function Distributed(r: Round): real { if UnitsIn(r.shares) > 0 then r.reward.reward else 0.0 }

  function GrossTotal(rounds: seq<Round>): real { SumReal(rounds, Distributed) }

  predicate Covers(names: seq<string>, rounds: seq<Round>)
  {
    && Distinct(names)
    && forall r, s :: r in rounds && s in r.shares ==> s.workerId in names
  }

  lemma {:induction false} SumIntAsReal<T>(s: seq<T>, f: T -> int, g: T -> real)
    requires forall x :: x in s ==> g(x) == f(x) as real
    ensures SumReal(s, g) == SumInt(s, f) as real
  {
    if s != [] { SumIntAsReal(s[1..], f, g); }
  }

  /** Workers' units add up to the units of the round. */
  lemma WorkerUnitsAddUp(shares: seq<ShareRow>, names: seq<string>)
    requires Distinct(names) && forall s :: s in shares ==> s.workerId in names
    ensures SumInt(names, (w: string) => UnitsBy(shares, w)) == UnitsIn(shares)
  {
    var f := (s: ShareRow) => s.units as real;
    var part := (w: string) => (s: ShareRow) => if s.workerId == w then s.units as real else 0.0;
    var group := (w: string) => UnitsBy(shares, w) as real;
    forall w | w in names ensures group(w) == SumReal(shares, part(w)) {
      SumIntAsReal(shares, UnitsFor(w), part(w));
    }
    SumByKey(shares, names, (s: ShareRow) => s.workerId, f, part, group);
    SumIntAsReal(shares, UnitsColumn(), f);
    SumIntAsReal(names, (w: string) => UnitsBy(shares, w), group);
  }

  /** A round with shares pays out its reward exactly. */
  lemma RoundPaysReward(r: Round, names: seq<string>)
    requires Distinct(names) && forall s :: s in r.shares ==> s.workerId in names
    ensures SumReal(names, (w: string) => PayOf(r, w)) == Distributed(r)
  {
    var pay := (w: string) => PayOf(r, w);
    if UnitsIn(r.shares) > 0 {
      WorkerUnitsAddUp(r.shares, names);
      FractionsAdd(names, (w: string) => UnitsBy(r.shares, w), r.reward.reward, UnitsIn(r.shares), pay);
      FractionWhole(r.reward.reward, UnitsIn(r.shares));
    } else {
      SumRealScale(names, pay, 0.0, pay);
    }
  }

  lemma FractionWhole(amount: real, whole: int)
    requires whole > 0
    ensures Fraction(amount, whole, whole) == amount
  {
  }

  lemma FractionSplit(amount: real, a: int, b: int, whole: int)
    requires whole > 0
    ensures Fraction(amount, a + b, whole) == Fraction(amount, a, whole) + Fraction(amount, b, whole)
  {
    assert amount * (a + b) as real == amount * a as real + amount * b as real;
  }

  lemma {:induction false} FractionsAdd(names: seq<string>, units: string -> int, amount: real, whole: int, pay: string -> real)
    requires whole > 0 && forall w :: w in names ==> pay(w) == Fraction(amount, units(w), whole)
    ensures SumReal(names, pay) == Fraction(amount, SumInt(names, units), whole)
  {
    if names == [] {
      FractionSplit(amount, 0, 0, whole);
    } else {
      FractionsAdd(names[1..], units, amount, whole, pay);
      FractionSplit(amount, units(names[0]), SumInt(names[1..], units), whole);
    }
  }

  /** Workers' gross amounts add up to the rewards of the rounds that have shares. */
  lemma {:induction false} GrossAddsUp(rounds: seq<Round>, names: seq<string>)
    requires Covers(names, rounds)
    ensures SumReal(names, (w: string) => GrossOf(rounds, w)) == GrossTotal(rounds)
  {
    var all := (w: string) => GrossOf(rounds, w);
    if rounds == [] {
      SumRealScale(names, all, 0.0, all);
    } else {
      var first := (w: string) => PayOf(rounds[0], w);
      var rest := (w: string) => GrossOf(rounds[1..], w);
      GrossAddsUp(rounds[1..], names);
      assert rounds[0] in rounds;
      RoundPaysReward(rounds[0], names);
      SumRealAdd(names, first, rest, all);
    }
  }

  // ----- input order does not matter

  /** A weight that is zero outside the window turns the sum over a window into a sum over all shares. */
  lemma {:induction false} WindowSum(shares: seq<ShareRow>, p: ShareRow -> bool, f: ShareRow -> int, g: ShareRow -> int)
    requires forall s :: s in shares ==> g(s) == if p(s) then f(s) else 0
    ensures SumInt(Filter(shares, p), f) == SumInt(shares, g)
  {
    if shares != [] {
      WindowSum(shares[1..], p, f, g);
      SumIntAppend(if p(shares[0]) then [shares[0]] else [], Filter(shares[1..], p), f);
    }
  }

  lemma SharesPermute(a: seq<ShareRow>, b: seq<ShareRow>, startTs: int, endTs: int, f: ShareRow -> int)
    requires multiset(a) == multiset(b)
    ensures SumInt(Window(a, startTs, endTs), f) == SumInt(Window(b, startTs, endTs), f)
  {
    var p := WindowTest(startTs, endTs);
    var g := (s: ShareRow) => if InWindow(startTs, endTs, s) then f(s) else 0;
    WindowSum(a, p, f, g);
    WindowSum(b, p, f, g);
    SumIntPermute(a, b, g);
  }

  /** Reordering the shares changes no worker's amount. */
  lemma {:induction false} ShareOrderIrrelevant(startTs: int, wins: seq<RewardRow>, a: seq<ShareRow>, b: seq<ShareRow>, w: string)
    requires multiset(a) == multiset(b)
    ensures GrossOf(Rounds(startTs, wins, a), w) == GrossOf(Rounds(startTs, wins, b), w)
    ensures GrossTotal(Rounds(startTs, wins, a)) == GrossTotal(Rounds(startTs, wins, b))
    decreases |wins|
  {
    if wins != [] {
      var end := wins[0].completedTs;
      SharesPermute(a, b, startTs, end, UnitsFor(w));
      SharesPermute(a, b, startTs, end, UnitsColumn());
      ShareOrderIrrelevant(end, wins[1..], a, b, w);
      assert Rounds(startTs, wins, a)[1..] == Rounds(end, wins[1..], a);
      assert Rounds(startTs, wins, b)[1..] == Rounds(end, wins[1..], b);
    }
  }
}
