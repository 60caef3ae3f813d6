/** What the pool guarantees over every run: commits, credit, shares, and the order of progress. */
module PoolTheorems {
  import opened Prelude
  import opened PoolRanges
  import opened PoolTables
  import opened PoolProtocol
  import opened PoolInvariants
  import opened PoolTableFacts
  import opened PoolSafety
  import opened PoolEndToEnd
  import opened StableSort
  import opened Sums
  import opened RoundWindows
  import opened PayoutSummary
  import opened PoolStats

  // ----- commits

  /** Each task is committed to mainnet at most once, although submit threads and the tick both finalize;
      with chunk verification on, the committed text is the true text of the whole task range. */
  lemma CommittedAtMostOnce(cfg: Config, run: seq<System>, i: nat)
    requires IsRun(cfg, run) && i < |run|
    ensures var s := run[i];
            && (forall a, b :: 0 <= a < b < |s.commits| ==> s.commits[a].task != s.commits[b].task)
            && (forall a :: 0 <= a < |s.commits| ==>
                  && s.commits[a].task < |s.db.tasks|
                  && (cfg.verify ==>
                        var t := s.db.tasks[s.commits[a].task];
                        s.commits[a].text == TrueSegment(cfg, t.algorithm, t.rangeStart, t.rangeEnd)))
  {
    hide IsRun, DbOk, TrueSegment;
    RunIsSafe(cfg, run, i);
    forall a | 0 <= a < |run[i].commits| ensures CommitOk(cfg, run[i].db, run[i].commits[a]) {}
  }

  /** The pieces a finalizer holds always fit together, no matter how long ago it read them. */
  lemma AssemblyCannotFail(cfg: Config, run: seq<System>, i: nat, f: Finalizer)
    requires IsRun(cfg, run) && i < |run| && f in run[i].finishing
    ensures f.task < |run[i].db.tasks| && Assembled(run[i].db, f).Success?
  {
    hide *;
    RunIsSafe(cfg, run, i);
    InvParts(cfg, run[i]);
    FinalizerHolds(run[i], f);
    AssembledIsTrue(cfg, run[i], f);
  }

  lemma FinalizerHolds(s: System, f: Finalizer)
    requires FinalizersOk(s) && f in s.finishing
    ensures FinalizerOk(s.db, s.commits, f) && f.task < |s.db.tasks|
  {
    assert FinalizerOk(s.db, s.commits, f);
  }

  // ----- submits

  /** The second locked block of a submit never looks at the task: it either finds its chunk taken, or its worker unknown,
      and changes nothing, or its task is still gathering and it adds one share of the whole chunk. */
  lemma CompletesOnlyWhileGathering(cfg: Config, run: seq<System>, i: nat, now: int, sub: Submit)
    requires IsRun(cfg, run) && i < |run| && Enabled(cfg, run[i], now, CompleteChunk(sub))
    ensures var db, next := run[i].db, ApplyComplete(run[i], sub, now).db;
            var row := db.chunks[sub.chunk];
            if row.status == Completed || sub.worker !in db.workers then next == db
            else
              && row.task < |db.tasks| && db.tasks[row.task].status == Gathering
              && next.tasks == db.tasks
              && next.shares == db.shares + [Share(sub.worker, row.task, sub.chunk, row.units, false, now)]
              && next.chunks[sub.chunk].worker == Some(sub.worker) && next.chunks[sub.chunk].segment == Some(sub.segment)
              && next.chunks[sub.chunk].status == Completed && next.chunks[sub.chunk].computeMs == Max(0, sub.ms)
              && forall c :: 0 <= c < |db.chunks| && c != sub.chunk ==> next.chunks[c] == db.chunks[c]
  {
    RunIsSafe(cfg, run, i);
    var db := run[i].db;
    assert SubmitOk(db, run[i].clock, sub);
    assert ChunkOk(cfg, db.tasks, db.chunks[sub.chunk]);
    if db.chunks[sub.chunk].status != Completed {
      assert db.tasks[db.chunks[sub.chunk].task].status != Gathering ==> AllDone(db.chunks, db.chunks[sub.chunk].task);
    }
  }

  /** Completing a chunk is final, and a task that left gathering has only completed chunks, then and ever after. */
  lemma CompletedIsFinal(cfg: Config, run: seq<System>, i: nat, j: nat)
    requires IsRun(cfg, run) && i <= j < |run|
    ensures var a, b := run[i].db, run[j].db;
            && (forall c :: 0 <= c < |a.chunks| && a.chunks[c].status == Completed ==> c < |b.chunks| && b.chunks[c] == a.chunks[c])
            && (forall t :: 0 <= t < |a.tasks| && a.tasks[t].status != Gathering ==>
                  AllDone(b.chunks, t) && RowsOf(b.chunks, t) == RowsOf(a.chunks, t))
  {
    hide IsRun;
    RunIsSafe(cfg, run, i);
    RunGrows(cfg, run, i, j);
    var a, b := run[i].db, run[j].db;
    forall c | 0 <= c < |a.chunks| && a.chunks[c].status == Completed ensures b.chunks[c] == a.chunks[c] {
      assert ChunkGrows(a.chunks[c], b.chunks[c]);
    }
    forall t | 0 <= t < |a.tasks| && a.tasks[t].status != Gathering
      ensures AllDone(b.chunks, t) && RowsOf(b.chunks, t) == RowsOf(a.chunks, t)
    {
      GrowsAllDone(a, b, t);
    }
  }

  // ----- credit

  /** A task that may still receive shares. */
  predicate TakesShares(db: Db, t: nat)
  {
    t < |db.tasks| && (db.tasks[t].status == Gathering || db.tasks[t].status == Submitting)
  }

  /** Every share a step adds belongs to a task that was gathering or submitting. */
  lemma AddedShares(cfg: Config, s: System, now: int, step: Step, k: nat)
    requires Inv(cfg, s) && Enabled(cfg, s, now, step)
    requires |s.db.shares| <= k < |Apply(cfg, s, now, step).db.shares|
    ensures TakesShares(s.db, Apply(cfg, s, now, step).db.shares[k].task)
  {
    hide *;
    InvParts(cfg, s);
    if step.CompleteChunk? {
      CompleteIs(cfg, s, now, step.submit);
      AddedByCompletion(cfg, s, now, step.submit, k);
    } else if step.CreditRace? {
      AddedByRace(cfg, s, now, step.submit, step.stamp, k);
    } else {
      SharesUntouched(cfg, s, now, step);
    }
  }

  lemma CompleteIs(cfg: Config, s: System, now: int, sub: Submit)
    requires Enabled(cfg, s, now, CompleteChunk(sub))
    ensures Apply(cfg, s, now, CompleteChunk(sub)) == ApplyComplete(s, sub, now)
  {
  }

  lemma AddedByCompletion(cfg: Config, s: System, now: int, sub: Submit, k: nat)
    requires SubmitsOk(s.db, s.clock, s.submits) && DoneOk(s.db.tasks, s.db.chunks) && ChunksOk(cfg, s.db.tasks, s.db.chunks)
    requires Enabled(cfg, s, now, CompleteChunk(sub)) && |s.db.shares| <= k < |ApplyComplete(s, sub, now).db.shares|
    ensures TakesShares(s.db, ApplyComplete(s, sub, now).db.shares[k].task)
  {
    var c := sub.chunk;
    assert ChunkOk(cfg, s.db.tasks, s.db.chunks[c]);
    assert s.db.tasks[s.db.chunks[c].task].status != Gathering ==> AllDone(s.db.chunks, s.db.chunks[c].task);
  }

  lemma AddedByRace(cfg: Config, s: System, now: int, sub: Submit, stamp: int, k: nat)
    requires Enabled(cfg, s, now, CreditRace(sub, stamp))
    requires |s.db.shares| <= k < |Apply(cfg, s, now, CreditRace(sub, stamp)).db.shares|
    ensures TakesShares(s.db, Apply(cfg, s, now, CreditRace(sub, stamp)).db.shares[k].task)
  {
  }

  /** No share of a task is ever added after the task left submitting. */
  lemma {:induction false} NoShareAfterSubmitting(cfg: Config, run: seq<System>, i: nat, j: nat, t: nat)
    requires IsRun(cfg, run) && i <= j < |run|
    requires t < |run[i].db.tasks| && Stage(run[i].db.tasks[t].status) >= 2
    ensures |run[i].db.shares| <= |run[j].db.shares|
    ensures forall k :: |run[i].db.shares| <= k < |run[j].db.shares| ==> run[j].db.shares[k].task != t
    decreases j - i
  {
    hide Inv, Enabled, Apply;
    if i < j {
      var p := run[j - 1];
      NoShareAfterSubmitting(cfg, run, i, j - 1, t);
      RunIsSafe(cfg, run, j - 1);
      assert IsStep(cfg, run[j - 1], run[j - 1 + 1]);
      var now: int, step: Step :| Enabled(cfg, p, now, step) && run[j] == Apply(cfg, p, now, step);
      StepKeeps(cfg, p, now, step);
      RunGrows(cfg, run, i, j - 1);
      assert TaskGrows(run[i].db.tasks[t], p.db.tasks[t]);
      forall k | |run[i].db.shares| <= k < |run[j].db.shares| ensures run[j].db.shares[k].task != t {
        if k < |p.db.shares| {
          assert ShareGrows(p.db.shares[k], run[j].db.shares[k]);
        } else {
          AddedShares(cfg, p, now, step, k);
        }
      }
    }
  }

  /** Credit is all or nothing per task; it is there for every task that mainnet took; and it is never cleared. */
  lemma CreditIsAllOrNothing(cfg: Config, run: seq<System>, i: nat, j: nat)
    requires IsRun(cfg, run) && i <= j < |run|
    ensures var a, b := run[i].db, run[j].db;
            && (forall k, l :: 0 <= k < l < |a.shares| && a.shares[k].task == a.shares[l].task ==> a.shares[k].credited == a.shares[l].credited)
            && (forall k :: 0 <= k < |a.shares| ==>
                  && a.shares[k].task < |a.tasks|
                  && (AwaitsMainnet(a.tasks[a.shares[k].task].status) || a.tasks[a.shares[k].task].status == Accepted ==> a.shares[k].credited)
                  && (IsBusy(a.tasks[a.shares[k].task].status) ==> !a.shares[k].credited))
            && (forall k :: 0 <= k < |a.shares| && a.shares[k].credited ==> k < |b.shares| && b.shares[k] == a.shares[k])
  {
    hide IsRun;
    RunIsSafe(cfg, run, i);
    RunGrows(cfg, run, i, j);
    var a, b := run[i].db, run[j].db;
    forall k | 0 <= k < |a.shares| ensures ShareOk(cfg, a.tasks, a.chunks, run[i].clock, a.shares[k]) {}
    forall k | 0 <= k < |a.shares| && a.shares[k].credited ensures b.shares[k] == a.shares[k] {
      assert ShareGrows(a.shares[k], b.shares[k]);
    }
  }

  // ----- what a reveal decides

  /** Over every run a task's status is what mainnet last answered about it: accepted with a block, waiting for validation,
      or accepted without a block; and its shares are credited unless mainnet never answered or refused the reveal. */
  lemma StatusFollowsReply(cfg: Config, run: seq<System>, i: nat, t: nat)
    requires IsRun(cfg, run) && i < |run| && t < |run[i].db.tasks|
    ensures var db := run[i].db;
            var task := db.tasks[t];
            && (task.status == Accepted <==> task.reply.Some? && task.reply.value.accepted && task.reply.value.block.Some?)
            && (task.status == ValidationPending <==>
                  task.reply.Some? && task.reply.value.status == "validation_pending"
                  && !(task.reply.value.accepted && task.reply.value.block.Some?))
            && (task.status == Submitted <==>
                  task.reply.Some? && task.reply.value.accepted && task.reply.value.block.None?
                  && task.reply.value.status != "validation_pending")
            && (task.status == Gathering || task.status == Submitting || task.status == Failed ==> task.reply.None?)
            && (task.reply.None? ==>
                  task.status == Gathering || task.status == Submitting || task.status == Lost || task.status == Failed)
            && (forall k :: 0 <= k < |db.shares| && db.shares[k].task == t ==>
                  && (task.reply.None? ==> !db.shares[k].credited)
                  && (task.reply.Some? && task.status != Rejected ==> db.shares[k].credited))
  {
    hide IsRun;
    RunIsSafe(cfg, run, i);
    var db := run[i].db;
    assert TaskOk(db.tasks[t], run[i].clock);
    forall k | 0 <= k < |db.shares| ensures ShareOk(cfg, db.tasks, db.chunks, run[i].clock, db.shares[k]) {}
  }

  /** What storing a reveal makes of its task: four outcomes by three columns of the reply, credit for all shares or none. */
  lemma RevealDecides(cfg: Config, run: seq<System>, i: nat, now: int, f: Finalizer, r: RevealReply)
    requires IsRun(cfg, run) && i < |run| && Enabled(cfg, run[i], now, FinishFinalize(f, r))
    ensures var db, next := run[i].db, Apply(cfg, run[i], now, FinishFinalize(f, r)).db;
            && f.task < |next.tasks| == |db.tasks| && |next.shares| == |db.shares|
            && (forall u :: 0 <= u < |db.tasks| && u != f.task ==> next.tasks[u] == db.tasks[u])
            && var task, won, waits := next.tasks[f.task], r.accepted && r.block.Some?, r.status == "validation_pending";
               && (task.status == Accepted <==> won)
               && (task.status == ValidationPending <==> !won && waits)
               && (task.status == Submitted <==> !won && !waits && r.accepted)
               && (task.status == Rejected <==> !waits && !r.accepted)
               && task.reply == Some(r) && task.completedAt == Some(now) && SameOrigin(db.tasks[f.task], task)
               && (forall k :: 0 <= k < |db.shares| ==>
                     if db.shares[k].task == f.task then
                       next.shares[k] == db.shares[k].(credited := waits || r.accepted)
                     else next.shares[k] == db.shares[k])
  {
    hide IsRun;
    RunIsSafe(cfg, run, i);
    var db := run[i].db;
    assert FinalizerOk(db, run[i].commits, f);
    forall k | 0 <= k < |db.shares| ensures ShareOk(cfg, db.tasks, db.chunks, run[i].clock, db.shares[k]) {}
  }

  /** A reveal that mainnet accepts with a block of positive reward is won at once, with that block's reward. */
  lemma AcceptedRevealIsWon(cfg: Config, run: seq<System>, i: nat, now: int, f: Finalizer, r: RevealReply, id: int)
    requires IsRun(cfg, run) && i < |run| && Enabled(cfg, run[i], now, FinishFinalize(f, r))
    requires r.accepted && r.block.Some? && r.block.value.reward.Some? && r.block.value.reward.value > 0.0
    ensures var next := Apply(cfg, run[i], now, FinishFinalize(f, r)).db;
            && f.task in WonTasks(next.tasks) && f.task < |next.tasks| && IsWon(next.tasks[f.task])
            && WonRow(next.tasks[f.task], id) == RewardRow(id, r.block.value.reward.value, now)
            && forall k :: 0 <= k < |next.shares| && next.shares[k].task == f.task ==> next.shares[k].credited
  {
    hide IsRun, WonTasks, Apply, Enabled;
    RevealDecides(cfg, run, i, now, f, r);
  }

  // ----- share conservation

  /** A completed chunk has exactly one share of the worker that completed it, for all its units. */
  lemma OneFirstShare(cfg: Config, run: seq<System>, i: nat, c: nat)
    requires IsRun(cfg, run) && i < |run|
    requires c < |run[i].db.chunks| && run[i].db.chunks[c].status == Completed
    ensures var db := run[i].db;
            exists k :: 0 <= k < |db.shares| && IsFirstShare(db.chunks[c], c, db.shares[k])
                        && forall l :: 0 <= l < |db.shares| && l != k ==> !IsFirstShare(db.chunks[c], c, db.shares[l])
  {
    hide *;
    RunIsSafe(cfg, run, i);
    InvParts(cfg, run[i]);
    FirstShareUnique(run[i].db.chunks, run[i].db.shares, c);
  }

  lemma FirstShareUnique(chunks: seq<Chunk>, shares: seq<Share>, c: nat)
    requires FirstShares(chunks, shares) && OnePerWorker(shares) && c < |chunks| && chunks[c].status == Completed
    ensures exists k :: 0 <= k < |shares| && IsFirstShare(chunks[c], c, shares[k])
                        && forall l :: 0 <= l < |shares| && l != k ==> !IsFirstShare(chunks[c], c, shares[l])
  {
    assert HasFirstShare(chunks[c], c, shares);
    var k :| 0 <= k < |shares| && IsFirstShare(chunks[c], c, shares[k]);
    forall l | 0 <= l < |shares| && l != k ensures !IsFirstShare(chunks[c], c, shares[l]) {
      assert if k < l then shares[k].chunk != shares[l].chunk || shares[k].worker != shares[l].worker
             else shares[l].chunk != shares[k].chunk || shares[l].worker != shares[k].worker;
    }
  }

  predicate HasUnits(rows: seq<Chunk>)
  {
    forall c :: 0 <= c < |rows| ==> rows[c].units == rows[c].rangeEnd - rows[c].rangeStart + 1 >= 1
  }

  predicate AllCompleted(rows: seq<Chunk>)
  {
    forall c :: 0 <= c < |rows| ==> rows[c].status == Completed
  }

  /** Units of the completed rows in a list. */
  function DoneIn(rows: seq<Chunk>): int
  {
    if rows == [] then 0 else DoneIn(rows[..|rows| - 1]) + if rows[|rows| - 1].status == Completed then rows[|rows| - 1].units else 0
  }

  lemma {:induction false} DoneUnitsOfRows(chunks: seq<Chunk>, t: nat)
    ensures DoneUnits(chunks, t) == DoneIn(RowsOf(chunks, t))
  {
    if chunks != [] {
      var front, last := chunks[..|chunks| - 1], chunks[|chunks| - 1];
      DoneUnitsOfRows(front, t);
      if last.task == t {
        var rows := RowsOf(front, t) + [last];
        assert rows[..|rows| - 1] == RowsOf(front, t);
      } else {
        assert RowsOf(front, t) + [] == RowsOf(front, t);
      }
    }
  }

  lemma {:induction false} UnitsAppend(rs: seq<Range>, r: Range)
    ensures UnitsOf(rs + [r]) == UnitsOf(rs) + r.Units()
  {
    if rs == [] {
      assert [r][1..] == [] && rs + [r] == [r];
    } else {
      assert (rs + [r])[1..] == rs[1..] + [r];
      UnitsAppend(rs[1..], r);
    }
  }

  /** Completed rows never hold more than all rows, and hold as much only when all are completed. */
  lemma {:induction false} DoneAtMostAll(rows: seq<Chunk>)
    requires HasUnits(rows)
    ensures DoneIn(rows) <= UnitsOf(RowRanges(rows))
    ensures DoneIn(rows) == UnitsOf(RowRanges(rows)) <==> AllCompleted(rows)
  {
    if rows != [] {
      var front, last := rows[..|rows| - 1], rows[|rows| - 1];
      DoneAtMostAll(front);
      assert rows == front + [last];
      RowRangesAppend(front, last);
      UnitsAppend(RowRanges(front), Range(last.rangeStart, last.rangeEnd));
      assert AllCompleted(rows) <==> AllCompleted(front) && last.status == Completed by {
        assert forall c :: 0 <= c < |front| ==> rows[c] == front[c];
      }
    }
  }

  lemma TaskRows(cfg: Config, tasks: seq<Task>, chunks: seq<Chunk>, t: nat)
    requires ChunksOk(cfg, tasks, chunks)
    ensures HasUnits(RowsOf(chunks, t))
    ensures AllCompleted(RowsOf(chunks, t)) <==> AllDone(chunks, t)
  {
    var rows := RowsOf(chunks, t);
    RowsAreRows(chunks, t);
    forall c | 0 <= c < |rows|
      ensures rows[c].units == rows[c].rangeEnd - rows[c].rangeStart + 1 >= 1 && (AllDone(chunks, t) ==> rows[c].status == Completed)
    {
      assert rows[c] in rows;
      var k :| 0 <= k < |chunks| && chunks[k] == rows[c];
      assert ChunkOk(cfg, tasks, chunks[k]);
    }
    if AllCompleted(rows) {
      forall c | 0 <= c < |chunks| && chunks[c].task == t ensures chunks[c].status == Completed {
        RowsContain(chunks, t, c);
      }
    }
  }

  lemma DoneUnitsBound(cfg: Config, tasks: seq<Task>, chunks: seq<Chunk>, t: nat)
    requires ChunksOk(cfg, tasks, chunks) && TilesOk(tasks, chunks) && t < |tasks|
    ensures DoneUnits(chunks, t) <= tasks[t].rangeEnd - tasks[t].rangeStart + 1
    ensures DoneUnits(chunks, t) == tasks[t].rangeEnd - tasks[t].rangeStart + 1 <==> AllDone(chunks, t)
  {
    var rows := RowsOf(chunks, t);
    TaskRows(cfg, tasks, chunks, t);
    DoneUnitsOfRows(chunks, t);
    DoneAtMostAll(rows);
    TilesUnits(tasks[t].rangeStart, tasks[t].rangeEnd, RowRanges(rows));
  }

  /** Outside full-task races a task's shares add up to its completed units: never more than its size, and exactly its
      size just when every chunk is completed. */
  lemma SharesAreCompletedUnits(cfg: Config, run: seq<System>, i: nat, t: nat)
    requires IsRun(cfg, run) && i < |run| && t < |run[i].db.tasks|
    requires !IsRaceTask(cfg, run[i].db.tasks[t], run[i].db.chunks, t)
    ensures var db := run[i].db;
            var size := db.tasks[t].rangeEnd - db.tasks[t].rangeStart + 1;
            && ShareUnits(db.shares, t) == DoneUnits(db.chunks, t) <= size
            && (ShareUnits(db.shares, t) == size <==> AllDone(db.chunks, t))
  {
    hide IsRun, Inv, DbOk, ChunksOk, TilesOk;
    RunIsSafe(cfg, run, i);
    InvParts(cfg, run[i]);
    DoneUnitsBound(cfg, run[i].db.tasks, run[i].db.chunks, t);
  }

  // ----- full-task races

  /** A longer computation is never credited more. */
  lemma RaceCreditFalls(units: int, winnerMs: int, fast: int, slow: int)
    requires fast <= slow
    ensures RaceCredit(units, winnerMs, slow) <= RaceCredit(units, winnerMs, fast)
  {
    var total := Max(1, units) * Max(1, winnerMs);
    QuotientFalls(total, Max(1, fast), Max(1, slow));
  }

  lemma QuotientFalls(total: int, a: int, b: int)
    requires total >= 0 && 1 <= a <= b
    ensures total / b <= total / a
  {
    var q := total / b;
    assert q >= 0 && q * b <= total;
    assert q * a <= q * b;
    assert q * a < (total / a + 1) * a;
    ProductsOrder(q, total / a + 1, a);
  }

  /** In a full-task race a worker holds at most one share of 1 to all units; nobody gets more than the winner; and of two
      late workers the slower never gets more. */
  lemma RaceSharesAreFair(cfg: Config, run: seq<System>, i: nat, k: nat, l: nat)
    requires IsRun(cfg, run) && i < |run| && k < |run[i].db.shares| && l < |run[i].db.shares| && k != l
    requires run[i].db.shares[k].chunk == run[i].db.shares[l].chunk
    ensures var s := run[i];
            var a, b := s.db.shares[k], s.db.shares[l];
            && a.chunk < |s.db.chunks|
            && a.worker != b.worker
            && 1 <= a.units <= s.db.chunks[a.chunk].units
            && (s.db.chunks[a.chunk].worker == Some(b.worker) ==> a.units <= b.units)
            && (k in s.raceMs && l in s.raceMs && s.raceMs[l] <= s.raceMs[k] ==> a.units <= b.units)
  {
    hide IsRun;
    RunIsSafe(cfg, run, i);
    var s := run[i];
    var a, b := s.db.shares[k], s.db.shares[l];
    assert ShareOk(cfg, s.db.tasks, s.db.chunks, s.clock, a);
    assert ShareOk(cfg, s.db.tasks, s.db.chunks, s.clock, b);
    var c := s.db.chunks[a.chunk];
    if k in s.raceMs && l in s.raceMs && s.raceMs[l] <= s.raceMs[k] {
      RaceCreditFalls(c.units, c.computeMs, s.raceMs[l], s.raceMs[k]);
    }
  }

  /** Who has a share of a chunk it did not complete was timed in a full-task race, and holds the time-weighted units. */
  lemma LateSharesAreTimed(cfg: Config, run: seq<System>, i: nat, k: nat)
    requires IsRun(cfg, run) && i < |run| && k < |run[i].db.shares|
    ensures var s := run[i];
            var a := s.db.shares[k];
            && a.chunk < |s.db.chunks| && a.task < |s.db.tasks|
            && (s.db.chunks[a.chunk].worker != Some(a.worker) ==>
                  var c, task := s.db.chunks[a.chunk], s.db.tasks[a.task];
                  && cfg.mode.HybridRace? && c.rangeStart == task.rangeStart && c.rangeEnd == task.rangeEnd
                  && c.units == task.rangeEnd - task.rangeStart + 1
                  && k in s.raceMs
                  && var winner, worker := Max(1, c.computeMs), Max(1, s.raceMs[k]);
                     if worker <= winner then a.units == c.units
                     else a.units >= 1 && a.units * worker <= c.units * winner < (a.units + 1) * worker)
  {
    hide *;
    RunIsSafe(cfg, run, i);
    InvParts(cfg, run[i]);
    LateRow(cfg, run[i], k);
  }

  lemma LateRow(cfg: Config, s: System, k: nat)
    requires ChunksOk(cfg, s.db.tasks, s.db.chunks) && SharesOk(cfg, s.db.tasks, s.db.chunks, s.db.shares, s.clock)
    requires RaceOk(s.db, s.raceMs) && k < |s.db.shares|
    ensures var a := s.db.shares[k];
            && a.chunk < |s.db.chunks| && a.task < |s.db.tasks|
            && (s.db.chunks[a.chunk].worker != Some(a.worker) ==>
                  var c, task := s.db.chunks[a.chunk], s.db.tasks[a.task];
                  && cfg.mode.HybridRace? && c.rangeStart == task.rangeStart && c.rangeEnd == task.rangeEnd
                  && c.units == task.rangeEnd - task.rangeStart + 1
                  && k in s.raceMs
                  && var winner, worker := Max(1, c.computeMs), Max(1, s.raceMs[k]);
                     if worker <= winner then a.units == c.units
                     else a.units >= 1 && a.units * worker <= c.units * winner < (a.units + 1) * worker)
  {
    hide RaceCredit;
    assert ShareOk(cfg, s.db.tasks, s.db.chunks, s.clock, s.db.shares[k]);
    var c := s.db.chunks[s.db.shares[k].chunk];
    assert ChunkOk(cfg, s.db.tasks, c);
    if c.worker != Some(s.db.shares[k].worker) { RaceCreditIs(c.units, c.computeMs, s.raceMs[k]); }
  }

  // ----- progress

  /** At most one task is gathering or submitting: the newest. */
  lemma OneBusyTask(cfg: Config, run: seq<System>, i: nat, t: nat)
    requires IsRun(cfg, run) && i < |run| && t < |run[i].db.tasks| && IsBusy(run[i].db.tasks[t].status)
    ensures t == |run[i].db.tasks| - 1
  {
    hide *;
    RunIsSafe(cfg, run, i);
    InvParts(cfg, run[i]);
    BusyIsLast(run[i].db.tasks, run[i].clock, t);
  }

  lemma EarlierIsClosed(tasks: seq<Task>, t: nat, u: nat)
    requires OrderOk(tasks) && t < u < |tasks|
    ensures tasks[t].completedAt.Some? && tasks[t].completedAt.value < tasks[u].createdAt
  {
  }

  lemma BusyIsLast(tasks: seq<Task>, clock: int, t: nat)
    requires TasksOk(tasks, clock) && OrderOk(tasks) && t < |tasks| && IsBusy(tasks[t].status)
    ensures t == |tasks| - 1
  {
    var last := |tasks| - 1;
    assert TaskOk(tasks[t], clock);
    if t < last { EarlierIsClosed(tasks, t, last); }
  }

  /** No task goes back a stage, terminal rows never change, completion times are set once, and an accepted task has its block. */
  lemma StagesOnlyRise(cfg: Config, run: seq<System>, i: nat, j: nat, t: nat)
    requires IsRun(cfg, run) && i <= j < |run| && t < |run[i].db.tasks|
    ensures t < |run[j].db.tasks|
    ensures var a, b := run[i].db.tasks[t], run[j].db.tasks[t];
            && Stage(a.status) <= Stage(b.status)
            && (Stage(a.status) == 3 ==> b == a)
            && (a.completedAt.Some? ==> b.completedAt == a.completedAt)
            && b.mainnetId == a.mainnetId
            && (b.status == Accepted ==> b.reply.Some? && b.reply.value.block.Some?)
  {
    hide IsRun, Inv, DbOk;
    RunGrows(cfg, run, i, j);
    assert TaskGrows(run[i].db.tasks[t], run[j].db.tasks[t]);
    RunIsSafe(cfg, run, j);
    InvParts(cfg, run[j]);
    assert TaskOk(run[j].db.tasks[t], run[j].clock);
  }

  /** The won rewards only grow: a won task stays won with the same reward and time, and no mainnet task is counted twice. */
  lemma WonRewardsOnlyGrow(cfg: Config, run: seq<System>, i: nat, j: nat)
    requires IsRun(cfg, run) && i <= j < |run|
    ensures var a, b := run[i].db.tasks, run[j].db.tasks;
            && (forall t :: t in WonTasks(a) ==> t in WonTasks(b) && t < |a| <= |b| && b[t] == a[t])
            && (forall t, u :: t in WonTasks(b) && u in WonTasks(b) && t != u ==> b[t].mainnetId != b[u].mainnetId)
  {
    hide IsRun, WonTasks;
    RunIsSafe(cfg, run, j);
    forall t | t in WonTasks(run[i].db.tasks)
      ensures t in WonTasks(run[j].db.tasks) && t < |run[i].db.tasks| <= |run[j].db.tasks| && run[j].db.tasks[t] == run[i].db.tasks[t]
    {
      StagesOnlyRise(cfg, run, i, j, t);
      GrowsLength(run[i].db, run[j].db) by { RunGrows(cfg, run, i, j); }
    }
  }

  // ----- settlement

  lemma {:induction false} LastBlockIs(blocks: seq<Block>, p: Block -> bool)
    ensures LastBlock(blocks, p).None? <==> forall i :: 0 <= i < |blocks| ==> !p(blocks[i])
    ensures LastBlock(blocks, p).Some? ==>
              exists i :: 0 <= i < |blocks| && blocks[i] == LastBlock(blocks, p).value && p(blocks[i])
                          && forall j :: i < j < |blocks| ==> !p(blocks[j])
  {
    if blocks != [] {
      var front, n := blocks[..|blocks| - 1], |blocks| - 1;
      LastBlockIs(front, p);
      assert forall i :: 0 <= i < n ==> front[i] == blocks[i];
      if p(blocks[n]) {
        assert blocks[n] == LastBlock(blocks, p).value;
      } else if LastBlock(front, p).Some? {
        var i :| 0 <= i < |front| && front[i] == LastBlock(front, p).value && p(front[i]) && forall j :: i < j < |front| ==> !p(front[j]);
        assert blocks[i] == LastBlock(blocks, p).value;
      }
    }
  }

  /** The last block of a task in a block list. */
  predicate IsOwnBlock(blocks: seq<Block>, i: nat, mainnetId: string)
  {
    && i < |blocks| && mainnetId != "" && blocks[i].taskId == mainnetId
    && forall j :: i < j < |blocks| ==> blocks[j].taskId != mainnetId
  }

  /** The last block at a task's height, found by another task. */
  predicate IsRivalBlock(blocks: seq<Block>, i: nat, mainnetId: string, height: int)
  {
    && i < |blocks| && blocks[i].height == Some(height) && blocks[i].taskId != "" && blocks[i].taskId != mainnetId
    && forall j :: i < j < |blocks| ==> blocks[j].height != Some(height)
  }

  /** A task is won exactly when the block list has a block of it, and beaten exactly when it has none and the last block at
      its height is another task's. */
  lemma SettlementIs(mainnetId: string, roundHeight: Option<int>, blocks: seq<Block>)
    ensures var d := DecideSettlement(mainnetId, roundHeight, blocks);
            && (d.Won? <==> exists i :: 0 <= i < |blocks| && IsOwnBlock(blocks, i, mainnetId))
            && (d.Won? ==> exists i :: 0 <= i < |blocks| && IsOwnBlock(blocks, i, mainnetId) && d.block == blocks[i])
            && (d.Beaten? <==>
                  && (forall i :: 0 <= i < |blocks| ==> mainnetId == "" || blocks[i].taskId != mainnetId)
                  && roundHeight.Some? && exists i :: 0 <= i < |blocks| && IsRivalBlock(blocks, i, mainnetId, roundHeight.value))
  {
    LastBlockIs(blocks, OfTask(mainnetId));
    LastBlockIs(blocks, AtHeight(roundHeight));
    var own, at := LastBlock(blocks, OfTask(mainnetId)), LastBlock(blocks, AtHeight(roundHeight));
    if own.Some? {
      var i :| 0 <= i < |blocks| && blocks[i] == own.value && OfTask(mainnetId)(blocks[i])
               && forall j :: i < j < |blocks| ==> !OfTask(mainnetId)(blocks[j]);
      assert IsOwnBlock(blocks, i, mainnetId);
    }
    if at.Some? && roundHeight.Some? {
      var i :| 0 <= i < |blocks| && blocks[i] == at.value && AtHeight(roundHeight)(blocks[i])
               && forall j :: i < j < |blocks| ==> !AtHeight(roundHeight)(blocks[j]);
      assert forall j :: i < j < |blocks| ==> blocks[j].height != roundHeight;
      if at.value.taskId != "" && at.value.taskId != mainnetId { assert IsRivalBlock(blocks, i, mainnetId, roundHeight.value); }
    }
    forall i | 0 <= i < |blocks| && roundHeight.Some? && IsRivalBlock(blocks, i, mainnetId, roundHeight.value)
      ensures at.Some? && at.value == blocks[i]
    {
      assert AtHeight(roundHeight)(blocks[i]);
    }
  }

  /** Over every run: one row of a settlement pass makes a task accepted with its own block, or lost to another task's block at
      its height, or leaves it. */
  lemma SettleRowDecides(cfg: Config, run: seq<System>, i: nat, now: int, t: nat, blocks: seq<Block>)
    requires IsRun(cfg, run) && i < |run| && Enabled(cfg, run[i], now, SettleRow(t, blocks))
    ensures var task, next := run[i].db.tasks[t], Apply(cfg, run[i], now, SettleRow(t, blocks)).db.tasks;
            && |next| == |run[i].db.tasks| && (forall u :: 0 <= u < |next| && u != t ==> next[u] == run[i].db.tasks[u])
            && (if exists k :: 0 <= k < |blocks| && IsOwnBlock(blocks, k, task.mainnetId) then
                  && next[t].status == Accepted
                  && exists k :: 0 <= k < |blocks| && IsOwnBlock(blocks, k, task.mainnetId)
                                 && next[t].reply == Some(RevealReply(true, "accepted", Some(blocks[k])))
                else if task.roundHeight.Some? && exists k :: 0 <= k < |blocks| && IsRivalBlock(blocks, k, task.mainnetId, task.roundHeight.value)
                then next[t].status == Lost && next[t].reply == Some(RevealReply(false, "lost", None))
                else next[t] == task)
  {
    hide IsRun, DecideSettlement, IsOwnBlock, IsRivalBlock, DbOk;
    RunIsSafe(cfg, run, i);
    var task := run[i].db.tasks[t];
    SettlementIs(task.mainnetId, task.roundHeight, blocks);
    NoOwnBlock(blocks, task.mainnetId);
  }

  lemma {:induction false} NoOwnBlock(blocks: seq<Block>, id: string)
    ensures (exists k :: 0 <= k < |blocks| && IsOwnBlock(blocks, k, id)) <==> exists k :: 0 <= k < |blocks| && id != "" && blocks[k].taskId == id
  {
    LastBlockIs(blocks, OfTask(id));
    if LastBlock(blocks, OfTask(id)).Some? {
      var i :| 0 <= i < |blocks| && blocks[i] == LastBlock(blocks, OfTask(id)).value && OfTask(id)(blocks[i])
               && forall j :: i < j < |blocks| ==> !OfTask(id)(blocks[j]);
      assert forall j :: i < j < |blocks| ==> blocks[j].taskId != id;
      assert IsOwnBlock(blocks, i, id);
    }
    forall k | 0 <= k < |blocks| && id != "" && blocks[k].taskId == id ensures OfTask(id)(blocks[k]) {}
  }

  // ----- statistics

  lemma {:induction false} CreditedAreValid(cfg: Config, tasks: seq<Task>, chunks: seq<Chunk>, shares: seq<Share>, clock: int)
    requires TasksOk(tasks, clock) && SharesOk(cfg, tasks, chunks, shares, clock)
    ensures forall r :: r in CreditedRows(shares, AnyTask()) ==> IsValidShare(r)
  {
    if shares != [] {
      assert ShareOk(cfg, tasks, chunks, clock, shares[0]);
      assert TaskOk(tasks[shares[0].task], clock);
      assert forall i :: 0 <= i < |shares[1..]| ==> shares[1..][i] == shares[i + 1];
      CreditedAreValid(cfg, tasks, chunks, shares[1..], clock);
    }
  }

  lemma RewardsAreWins(tasks: seq<Task>, clock: int, name: nat -> int)
    requires TasksOk(tasks, clock) && OrderOk(tasks)
    ensures forall r :: r in AcceptedTaskRewards(tasks, name) ==> IsWin(r)
  {
    hide TasksOk, OrderOk, Sort, IsWin;
    var rows := RowsAt(tasks, name, WonTasks(tasks));
    WonAscend(tasks, clock, name, WonTasks(tasks));
    SameElements(AcceptedTaskRewards(tasks, name), rows);
  }

  /** In every state of every run the statistics page's last round holds the credited shares of the newest won piece of the
      task sequence, and lifetime units split into the rounds' units and the current round's. */
  lemma StatsFollowTaskOrder(cfg: Config, run: seq<System>, i: nat, name: nat -> int)
    requires IsRun(cfg, run) && i < |run|
    ensures var db := run[i].db;
            var won, rewards, shares := WonTasks(db.tasks), AcceptedTaskRewards(db.tasks, name), CreditedRows(db.shares, AnyTask());
            && (won != [] ==> LastView(rewards, shares)
                              == CreditedRows(db.shares, Between(PieceStart(won, |won| - 1), won[|won| - 1])))
            && UnitsIn(shares) == SumInt(AllRounds(rewards, shares), RoundUnitsColumn()) + UnitsIn(CurrentView(rewards, shares))
  {
    hide *;
    RunIsSafe(cfg, run, i);
    InvParts(cfg, run[i]);
    DbStats(cfg, run[i].db, run[i].clock, name);
  }

  lemma DbStats(cfg: Config, db: Db, clock: int, name: nat -> int)
    requires DbOk(cfg, db, clock)
    ensures var won, rewards, shares := WonTasks(db.tasks), AcceptedTaskRewards(db.tasks, name), CreditedRows(db.shares, AnyTask());
            && (won != [] ==> LastView(rewards, shares)
                              == CreditedRows(db.shares, Between(PieceStart(won, |won| - 1), won[|won| - 1])))
            && UnitsIn(shares) == SumInt(AllRounds(rewards, shares), RoundUnitsColumn()) + UnitsIn(CurrentView(rewards, shares))
  {
    hide *;
    DbHasParts(cfg, db, clock);
    var rewards, shares := AcceptedTaskRewards(db.tasks, name), CreditedRows(db.shares, AnyTask());
    CreditedAreValid(cfg, db.tasks, db.chunks, db.shares, clock);
    RewardsAreWins(db.tasks, clock, name);
    SoundFromParts(rewards, shares);
    LifetimeSplits(rewards, shares);
    RoundsArePieces(cfg, db, clock, name);
    if WonTasks(db.tasks) != [] {
      NoWinNoRound(rewards, shares);
      LastViewIsNewestRound(rewards, shares);
    }
  }

  /** A line of the statistics page shows the n-th won piece of the task sequence. */
  ghost predicate ShowsPiece(view: RoundView, db: Db, n: nat, name: nat -> int)
    requires n < |WonTasks(db.tasks)|
  {
    var won := WonTasks(db.tasks);
    && view.reward == WonRow(db.tasks[won[n]], name(won[n]))
    && view.totalUnits == UnitsIn(CreditedRows(db.shares, Between(PieceStart(won, n), won[n])))
    && view.totalUnits > 0
  }

  /** The statistics page of any reachable state: it distributes exactly the sum of all won rewards, and its rounds are the
      pieces of the task sequence, newest first. */
  method SummarizeReachable(
    cfg: Config, ghost run: seq<System>, ghost i: nat, db: Db, name: nat -> int,
    workerRows: seq<WorkerRow>, payoutRows: seq<PayoutRow>, feePercent: real, minPayoutAmount: real)
    returns (summary: Summary)
    requires IsRun(cfg, run) && i < |run| && db == run[i].db
    ensures var won := WonTasks(db.tasks);
            && summary.grossTotal == Cut8(RewardsOf(RowsAt(db.tasks, name, won)))
            && |summary.rounds| == Min(20, |won|)
            && forall k :: 0 <= k < |summary.rounds| ==> ShowsPiece(summary.rounds[k], db, |won| - 1 - k, name)
  {
    hide *;
    var rewards, shares := AcceptedTaskRewards(db.tasks, name), CreditedRows(db.shares, AnyTask());
    ReachableTotals(cfg, run, i, name);
    summary := SummarizeRoundWindowPayouts(rewards, shares, workerRows, payoutRows, feePercent, minPayoutAmount);
    forall k | 0 <= k < |summary.rounds| ensures ShowsPiece(summary.rounds[k], db, |WonTasks(db.tasks)| - 1 - k, name) {
      ReachableView(cfg, run, i, name, k);
    }
  }

  lemma ReachableTotals(cfg: Config, run: seq<System>, i: nat, name: nat -> int)
    requires IsRun(cfg, run) && i < |run|
    ensures var db := run[i].db;
            var won, rewards, shares := WonTasks(db.tasks), AcceptedTaskRewards(db.tasks, name), CreditedRows(db.shares, AnyTask());
            && Filter(shares, IsValidShare) == shares
            && |AllRounds(rewards, shares)| == |won|
            && GrossTotal(AllRounds(rewards, shares)) == RewardsOf(RowsAt(db.tasks, name, won))
  {
    hide *;
    var db := run[i].db;
    RunIsSafe(cfg, run, i);
    InvParts(cfg, run[i]);
    WindowsFollowTaskOrder(cfg, run, i, name);
    CreditedAreValid(cfg, db.tasks, db.chunks, db.shares, run[i].clock);
    FilterWhole(CreditedRows(db.shares, AnyTask()), IsValidShare);
  }

  lemma ReachableView(cfg: Config, run: seq<System>, i: nat, name: nat -> int, k: nat)
    requires IsRun(cfg, run) && i < |run|
    requires k < |LastReversed(Views(AllRounds(AcceptedTaskRewards(run[i].db.tasks, name), CreditedRows(run[i].db.shares, AnyTask()))), 20)|
    ensures k < |WonTasks(run[i].db.tasks)|
    ensures var db := run[i].db;
            var rs := AllRounds(AcceptedTaskRewards(db.tasks, name), CreditedRows(db.shares, AnyTask()));
            ShowsPiece(LastReversed(Views(rs), 20)[k], db, |WonTasks(db.tasks)| - 1 - k, name)
  {
    hide *;
    var db := run[i].db;
    var rs := AllRounds(AcceptedTaskRewards(db.tasks, name), CreditedRows(db.shares, AnyTask()));
    ReachableTotals(cfg, run, i, name);
    ViewAt(rs, k);
    ReachablePiece(cfg, run, i, name, |rs| - 1 - k);
    PieceShown(LastReversed(Views(rs), 20)[k], rs[|rs| - 1 - k], db, |rs| - 1 - k, name);
  }

  lemma ReachablePiece(cfg: Config, run: seq<System>, i: nat, name: nat -> int, n: nat)
    requires IsRun(cfg, run) && i < |run| && n < |WonTasks(run[i].db.tasks)|
    ensures var db := run[i].db;
            var won, rs := WonTasks(db.tasks), AllRounds(AcceptedTaskRewards(db.tasks, name), CreditedRows(db.shares, AnyTask()));
            && n < |rs| && rs[n].reward == WonRow(db.tasks[won[n]], name(won[n]))
            && rs[n].shares == CreditedRows(db.shares, Between(PieceStart(won, n), won[n])) && UnitsIn(rs[n].shares) > 0
  {
    hide *;
    WindowsFollowTaskOrder(cfg, run, i, name);
  }

  lemma ViewAt(rs: seq<Round>, k: nat)
    requires k < |LastReversed(Views(rs), 20)|
    ensures k < |rs|
    ensures var view, r := LastReversed(Views(rs), 20)[k], rs[|rs| - 1 - k];
            view.reward == r.reward && view.totalUnits == UnitsIn(r.shares)
  {
  }

  lemma PieceShown(view: RoundView, r: Round, db: Db, n: nat, name: nat -> int)
    requires n < |WonTasks(db.tasks)| && view.reward == r.reward && view.totalUnits == UnitsIn(r.shares) && UnitsIn(r.shares) > 0
    requires r.reward == WonRow(db.tasks[WonTasks(db.tasks)[n]], name(WonTasks(db.tasks)[n]))
    requires r.shares == CreditedRows(db.shares, Between(PieceStart(WonTasks(db.tasks), n), WonTasks(db.tasks)[n]))
    ensures ShowsPiece(view, db, n, name)
  {
  }

  lemma SoundFromParts(rewards: seq<RewardRow>, shares: seq<ShareRow>)
    requires (forall r :: r in rewards ==> IsWin(r)) && (forall s :: s in shares ==> IsValidShare(s))
    ensures RowsAreSound(rewards, shares)
  {
  }

  lemma NoWinNoRound(rewards: seq<RewardRow>, shares: seq<ShareRow>)
    ensures AllRounds(rewards, shares) != [] ==> rewards != []
  {
  }
}
