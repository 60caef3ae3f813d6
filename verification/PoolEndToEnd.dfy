/** From the concurrent pool to the money: timestamp windows agree with cutting the sequence of tasks at each won block. */
module PoolEndToEnd {
  import opened Prelude
  import opened StableSort
  import opened Sums
  import opened PoolRanges
  import opened PoolTables
  import opened PoolProtocol
  import opened PoolInvariants
  import opened PoolTableFacts
  import opened PoolSafety
  import opened RoundWindows

  // ----- what the statistics query reads

  predicate IsWon(t: Task)
  {
    && t.status == Accepted && t.completedAt.Some?
    && t.reply.Some? && t.reply.value.block.Some? && t.reply.value.block.value.reward.Some?
    && t.reply.value.block.value.reward.value > 0.0
  }

  /** A won task as a reward row; `name` gives the random text id of each task row. */
  function WonRow(t: Task, id: int): RewardRow
    requires IsWon(t)
  {
    RewardRow(id, t.reply.value.block.value.reward.value, t.completedAt.value)
  }

  /** The table positions of the won tasks from position `from` on. */
  function WonFrom(tasks: seq<Task>, from: nat): (r: seq<nat>)
    requires from <= |tasks|
    ensures forall k :: 0 <= k < |r| ==> from <= r[k] < |tasks| && IsWon(tasks[r[k]])
    ensures forall j, k :: 0 <= j < k < |r| ==> r[j] < r[k]
    ensures forall t :: from <= t < |tasks| && IsWon(tasks[t]) ==> t in r
    decreases |tasks| - from
  {
    if from == |tasks| then []
    else if IsWon(tasks[from]) then [from] + WonFrom(tasks, from + 1)
    else WonFrom(tasks, from + 1)
  }

  function WonTasks(tasks: seq<Task>): (r: seq<nat>)
    ensures forall k :: 0 <= k < |r| ==> r[k] < |tasks| && IsWon(tasks[r[k]])
    ensures forall j, k :: 0 <= j < k < |r| ==> r[j] < r[k]
    ensures forall t :: 0 <= t < |tasks| && IsWon(tasks[t]) ==> t in r
  {
    WonFrom(tasks, 0)
  }

  function RowsAt(tasks: seq<Task>, name: nat -> int, won: seq<nat>): (rows: seq<RewardRow>)
    requires forall k :: 0 <= k < |won| ==> won[k] < |tasks| && IsWon(tasks[won[k]])
    ensures |rows| == |won|
    ensures forall k :: 0 <= k < |won| ==> rows[k] == WonRow(tasks[won[k]], name(won[k]))
  {
    seq(|won|, k requires 0 <= k < |won| => WonRow(tasks[won[k]], name(won[k])))
  }

  function NewestFirst(a: RewardRow, b: RewardRow): bool { a.completedTs >= b.completedTs }

  /** The reward rows, newest completion first. */
  function AcceptedTaskRewards(tasks: seq<Task>, name: nat -> int): seq<RewardRow>
  {
    Sort(NewestFirst, RowsAt(tasks, name, WonTasks(tasks)))
  }

  function ShareRowOf(s: Share): ShareRow { ShareRow(s.worker, s.units, s.createdAt) }

  /** The credited shares that satisfy a test on their task, in table order. */
  function CreditedRows(shares: seq<Share>, keep: nat -> bool): seq<ShareRow>
  {
    if shares == [] then []
    else (if shares[0].credited && keep(shares[0].task) then [ShareRowOf(shares[0])] else []) + CreditedRows(shares[1..], keep)
  }

  function AnyTask(): nat -> bool { (t: nat) => true }

  /** Tasks after `lo`, up to and including `hi`. */
  function Between(lo: int, hi: int): nat -> bool { (t: nat) => lo < t <= hi }

  /** The task before the k-th piece; -1 before the first. */
  function PieceStart(won: seq<nat>, k: nat): (lo: int)
    requires k < |won|
    ensures lo == if k == 0 then -1 else won[k - 1]
  {
    if k == 0 then -1 else won[k - 1]
  }

  // ----- times of shares follow the order of tasks

  /** A credited share's time lies after every earlier task was closed and before its own task was. */
  lemma ShareTimes(cfg: Config, db: Db, clock: int, s: Share, t: nat)
    requires TasksOk(db.tasks, clock) && OrderOk(db.tasks)
    requires ShareOk(cfg, db.tasks, db.chunks, clock, s) && s.credited
    requires t < |db.tasks| && db.tasks[t].completedAt.Some?
    ensures s.createdAt <= db.tasks[t].completedAt.value <==> s.task <= t
    ensures s.createdAt != db.tasks[t].completedAt.value
    ensures 0 < s.createdAt && s.units > 0
  {
    assert TaskOk(db.tasks[s.task], clock) && TaskOk(db.tasks[t], clock);
    if s.task < t {
      assert db.tasks[s.task].completedAt.value < db.tasks[t].createdAt;
    } else if t < s.task {
      assert db.tasks[t].completedAt.value < db.tasks[s.task].createdAt;
    }
  }

  lemma WindowIsPiece(cfg: Config, db: Db, clock: int, lo: int, hi: nat, s: Share)
    requires TasksOk(db.tasks, clock) && OrderOk(db.tasks)
    requires ShareOk(cfg, db.tasks, db.chunks, clock, s) && s.credited
    requires hi < |db.tasks| && db.tasks[hi].completedAt.Some?
    requires lo == -1 || (0 <= lo < hi && db.tasks[lo].completedAt.Some?)
    ensures var start := if lo == -1 then 0 else db.tasks[lo].completedAt.value;
            InWindow(start, db.tasks[hi].completedAt.value, ShareRowOf(s)) <==> lo < s.task <= hi
  {
    ShareTimes(cfg, db, clock, s, hi);
    if lo >= 0 {
      ShareTimes(cfg, db, clock, s, lo);
      assert TaskOk(db.tasks[lo], clock);
    }
  }

  lemma {:induction false} WindowsArePieces(cfg: Config, db: Db, clock: int, lo: int, hi: nat, shares: seq<Share>, start: int)
    requires TasksOk(db.tasks, clock) && OrderOk(db.tasks) && SharesOk(cfg, db.tasks, db.chunks, shares, clock)
    requires hi < |db.tasks| && db.tasks[hi].completedAt.Some?
    requires lo == -1 || (0 <= lo < hi && db.tasks[lo].completedAt.Some?)
    requires start == if lo == -1 then 0 else db.tasks[lo].completedAt.value
    ensures Window(CreditedRows(shares, AnyTask()), start, db.tasks[hi].completedAt.value) == CreditedRows(shares, Between(lo, hi))
    decreases |shares|
  {
    if shares != [] {
      var end := db.tasks[hi].completedAt.value;
      var rest := CreditedRows(shares[1..], AnyTask());
      assert forall i :: 0 <= i < |shares[1..]| ==> shares[1..][i] == shares[i + 1];
      WindowsArePieces(cfg, db, clock, lo, hi, shares[1..], start);
      if shares[0].credited {
        WindowIsPiece(cfg, db, clock, lo, hi, shares[0]);
        var row := ShareRowOf(shares[0]);
        assert CreditedRows(shares, AnyTask()) == [row] + rest;
        assert ([row] + rest)[0] == row && ([row] + rest)[1..] == rest;
      } else {
        assert CreditedRows(shares, AnyTask()) == rest;
      }
    }
  }

  // ----- the rounds of a reachable database

  lemma WonAscend(tasks: seq<Task>, clock: int, name: nat -> int, won: seq<nat>)
    requires TasksOk(tasks, clock) && OrderOk(tasks)
    requires forall k :: 0 <= k < |won| ==> won[k] < |tasks| && IsWon(tasks[won[k]])
    requires forall j, k :: 0 <= j < k < |won| ==> won[j] < won[k]
    ensures var rows := RowsAt(tasks, name, won);
            && (forall j, k :: 0 <= j < k < |rows| ==> rows[j].completedTs < rows[k].completedTs)
            && (forall k :: 0 <= k < |rows| ==> IsWin(rows[k]))
  {
    var rows := RowsAt(tasks, name, won);
    forall k | 0 <= k < |rows| ensures IsWin(rows[k]) { assert TaskOk(tasks[won[k]], clock); }
    forall j, k | 0 <= j < k < |rows| ensures rows[j].completedTs < rows[k].completedTs {
      assert TaskOk(tasks[won[k]], clock);
      assert tasks[won[j]].completedAt.value < tasks[won[k]].createdAt;
    }
  }

  /** Wins at strictly increasing times are in completion order and no two of them tie. */
  lemma AscendingIsSorted(rows: seq<RewardRow>)
    requires forall j, k :: 0 <= j < k < |rows| ==> rows[j].completedTs < rows[k].completedTs
    ensures Sorted(ByCompletion, rows)
    ensures forall x, y :: x in rows && y in rows && ByCompletion(x, y) && ByCompletion(y, x) ==> x == y
  {
  }

  /** Sorting a listing of rows that are all wins finds the one ascending arrangement. */
  lemma WinsOfListing(listed: seq<RewardRow>, rows: seq<RewardRow>)
    requires multiset(listed) == multiset(rows)
    requires forall j, k :: 0 <= j < k < |rows| ==> rows[j].completedTs < rows[k].completedTs
    requires forall k :: 0 <= k < |rows| ==> IsWin(rows[k])
    ensures Wins(listed) == rows
  {
    hide IsWin, Sorted, Sort;
    SameElements(listed, rows);
    FilterWhole(listed, IsWin);
    ByCompletionTotal();
    SortSorted(ByCompletion, listed);
    AscendingIsSorted(rows);
    SortedUnique(ByCompletion, rows, Wins(listed));
  }

  /** The rows the query returns newest first are put back in task order by the payout computation. */
  lemma WinsAreTasks(tasks: seq<Task>, clock: int, name: nat -> int)
    requires TasksOk(tasks, clock) && OrderOk(tasks)
    ensures Wins(AcceptedTaskRewards(tasks, name)) == RowsAt(tasks, name, WonTasks(tasks))
  {
    hide TasksOk, OrderOk, Wins, Sort;
    WonAscend(tasks, clock, name, WonTasks(tasks));
    WinsOfListing(AcceptedTaskRewards(tasks, name), RowsAt(tasks, name, WonTasks(tasks)));
  }

  /** Every window is a piece of the task sequence. */
  lemma RoundsArePieces(cfg: Config, db: Db, clock: int, name: nat -> int)
    requires TasksOk(db.tasks, clock) && OrderOk(db.tasks) && SharesOk(cfg, db.tasks, db.chunks, db.shares, clock)
    ensures var won, rs := WonTasks(db.tasks), AllRounds(AcceptedTaskRewards(db.tasks, name), CreditedRows(db.shares, AnyTask()));
            && |rs| == |won|
            && forall k :: 0 <= k < |won| ==>
                 && rs[k].reward == WonRow(db.tasks[won[k]], name(won[k]))
                 && rs[k].shares == CreditedRows(db.shares, Between(PieceStart(won, k), won[k]))
  {
    var won := WonTasks(db.tasks);
    var shares := CreditedRows(db.shares, AnyTask());
    WinsAreTasks(db.tasks, clock, name);
    var wins := RowsAt(db.tasks, name, won);
    var rs := AllRounds(AcceptedTaskRewards(db.tasks, name), shares);
    assert rs == Rounds(0, wins, shares);
    forall k | 0 <= k < |won|
      ensures rs[k].shares == CreditedRows(db.shares, Between(PieceStart(won, k), won[k]))
    {
      var lo := PieceStart(won, k);
      assert rs[k].startTs == if lo == -1 then 0 else db.tasks[lo].completedAt.value;
      WindowsArePieces(cfg, db, clock, lo, won[k], db.shares, rs[k].startTs);
    }
  }

  // ----- no reward is left undistributed

  lemma {:induction false} CreditedContains(shares: seq<Share>, keep: nat -> bool, i: nat)
    requires i < |shares| && shares[i].credited && keep(shares[i].task)
    ensures ShareRowOf(shares[i]) in CreditedRows(shares, keep)
  {
    if i > 0 { CreditedContains(shares[1..], keep, i - 1); }
  }

  /** A won task has a credited share of its own. */
  lemma WonTaskHasShare(cfg: Config, db: Db, clock: int, t: nat) returns (i: nat)
    requires DbOk(cfg, db, clock) && t < |db.tasks| && IsWon(db.tasks[t])
    ensures i < |db.shares| && db.shares[i].task == t && db.shares[i].credited
  {
    var rows := RowsOf(db.chunks, t);
    assert TaskOk(db.tasks[t], clock);
    assert Tiles(db.tasks[t].rangeStart, db.tasks[t].rangeEnd, RowRanges(rows));
    assert rows != [];
    RowsAreRows(db.chunks, t);
    assert rows[0] in rows;
    var c :| 0 <= c < |db.chunks| && db.chunks[c] == rows[0];
    assert AllDone(db.chunks, t);
    assert HasFirstShare(db.chunks[c], c, db.shares);
    i :| 0 <= i < |db.shares| && IsFirstShare(db.chunks[c], c, db.shares[i]);
    assert ShareOk(cfg, db.tasks, db.chunks, clock, db.shares[i]);
  }

  lemma {:induction false} CreditedUnits(cfg: Config, db: Db, clock: int, shares: seq<Share>, keep: nat -> bool)
    requires SharesOk(cfg, db.tasks, db.chunks, shares, clock)
    ensures forall r :: r in CreditedRows(shares, keep) ==> r.units > 0
  {
    if shares != [] {
      assert ShareOk(cfg, db.tasks, db.chunks, clock, shares[0]);
      assert forall i :: 0 <= i < |shares[1..]| ==> shares[1..][i] == shares[i + 1];
      CreditedUnits(cfg, db, clock, shares[1..], keep);
    }
  }

  lemma RoundHasUnits(cfg: Config, db: Db, clock: int, lo: int, t: nat)
    requires DbOk(cfg, db, clock) && t < |db.tasks| && IsWon(db.tasks[t]) && lo < t
    ensures UnitsIn(CreditedRows(db.shares, Between(lo, t))) > 0
  {
    var i := WonTaskHasShare(cfg, db, clock, t);
    var rows := CreditedRows(db.shares, Between(lo, t));
    CreditedContains(db.shares, Between(lo, t), i);
    CreditedUnits(cfg, db, clock, db.shares, Between(lo, t));
    SumIntNonNegative(rows, UnitsColumn());
    assert UnitsColumn()(ShareRowOf(db.shares[i])) > 0;
  }

  function RewardsOf(rows: seq<RewardRow>): real
  {
    if rows == [] then 0.0 else rows[0].reward + RewardsOf(rows[1..])
  }

  lemma {:induction false} AllDistributed(rs: seq<Round>, rows: seq<RewardRow>)
    requires |rs| == |rows| && forall k :: 0 <= k < |rs| ==> rs[k].reward == rows[k] && UnitsIn(rs[k].shares) > 0
    ensures GrossTotal(rs) == RewardsOf(rows)
  {
    if rs != [] { AllDistributed(rs[1..], rows[1..]); }
  }

  lemma DbHasParts(cfg: Config, db: Db, clock: int)
    requires DbOk(cfg, db, clock)
    ensures TasksOk(db.tasks, clock) && OrderOk(db.tasks) && SharesOk(cfg, db.tasks, db.chunks, db.shares, clock)
  {
  }

  lemma RoundsHaveUnits(cfg: Config, db: Db, clock: int, name: nat -> int)
    requires DbOk(cfg, db, clock)
    ensures forall k :: 0 <= k < |WonTasks(db.tasks)| ==>
              UnitsIn(CreditedRows(db.shares, Between(PieceStart(WonTasks(db.tasks), k), WonTasks(db.tasks)[k]))) > 0
  {
    hide DbOk, UnitsIn, CreditedRows;
    var won := WonTasks(db.tasks);
    forall k | 0 <= k < |won| ensures UnitsIn(CreditedRows(db.shares, Between(PieceStart(won, k), won[k]))) > 0 {
      RoundHasUnits(cfg, db, clock, PieceStart(won, k), won[k]);
    }
  }

  /** In every state of every run: the window of a won block holds exactly the credited shares of the tasks after the
      previous won task up to its own, and the distributed total is the sum of all won rewards. */
  lemma WindowsFollowTaskOrder(cfg: Config, run: seq<System>, i: nat, name: nat -> int)
    requires IsRun(cfg, run) && i < |run|
    ensures var db := run[i].db;
            var won, rs := WonTasks(db.tasks), AllRounds(AcceptedTaskRewards(db.tasks, name), CreditedRows(db.shares, AnyTask()));
            && |rs| == |won|
            && (forall k :: 0 <= k < |won| ==>
                  && rs[k].reward == WonRow(db.tasks[won[k]], name(won[k]))
                  && rs[k].shares == CreditedRows(db.shares, Between(PieceStart(won, k), won[k]))
                  && UnitsIn(rs[k].shares) > 0)
            && GrossTotal(rs) == RewardsOf(RowsAt(db.tasks, name, won))
  {
    hide *;
    RunIsSafe(cfg, run, i);
    InvParts(cfg, run[i]);
    DbRounds(cfg, run[i].db, run[i].clock, name);
  }

  lemma DbRounds(cfg: Config, db: Db, clock: int, name: nat -> int)
    requires DbOk(cfg, db, clock)
    ensures var won, rs := WonTasks(db.tasks), AllRounds(AcceptedTaskRewards(db.tasks, name), CreditedRows(db.shares, AnyTask()));
            && |rs| == |won|
            && (forall k :: 0 <= k < |won| ==>
                  && rs[k].reward == WonRow(db.tasks[won[k]], name(won[k]))
                  && rs[k].shares == CreditedRows(db.shares, Between(PieceStart(won, k), won[k]))
                  && UnitsIn(rs[k].shares) > 0)
            && GrossTotal(rs) == RewardsOf(RowsAt(db.tasks, name, won))
  {
    hide *;
    DbHasParts(cfg, db, clock);
    RoundsArePieces(cfg, db, clock, name);
    RoundsHaveUnits(cfg, db, clock, name);
    AllDistributed(AllRounds(AcceptedTaskRewards(db.tasks, name), CreditedRows(db.shares, AnyTask())),
                   RowsAt(db.tasks, name, WonTasks(db.tasks)));
  }
}
