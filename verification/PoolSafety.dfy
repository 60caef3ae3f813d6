/** The invariant holds in every reachable state, and no step undoes recorded work. */
module PoolSafety {
  import opened Prelude
  import opened PoolRanges
  import opened PoolTables
  import opened PoolProtocol
  import opened PoolInvariants
  import opened PoolTableFacts
  import opened PoolSteps

  // ----- progress order

  /** How far a task has come; 3 is final. */
  function Stage(s: TaskStatus): nat
  {
    match s
    case Active => 0
    case Gathering => 0
    case Submitting => 1
    case Submitted => 2
    case ValidationPending => 2
    case Unsettled => 2
    case _ => 3
  }

  predicate TaskGrows(a: Task, b: Task)
  {
    && SameOrigin(a, b)
    && Stage(a.status) <= Stage(b.status)
    && (Stage(a.status) == 3 ==> b == a)
    && (a.completedAt.Some? ==> b.completedAt == a.completedAt)
  }

  predicate ChunkGrows(a: Chunk, b: Chunk)
  {
    SameShape(a, b) && (a.status == Completed ==> b == a)
  }

  predicate ShareGrows(a: Share, b: Share)
  {
    b == a || b == a.(credited := true)
  }

  /** Nothing recorded in `a` is undone in `b`. */
  predicate Grows(a: Db, b: Db)
  {
    && |a.tasks| <= |b.tasks| && |a.chunks| <= |b.chunks| && |a.shares| <= |b.shares|
    && (forall t :: 0 <= t < |a.tasks| ==> TaskGrows(a.tasks[t], b.tasks[t]))
    && (forall c :: 0 <= c < |a.chunks| ==> ChunkGrows(a.chunks[c], b.chunks[c]))
    && (forall c :: |a.chunks| <= c < |b.chunks| ==> b.chunks[c].task >= |a.tasks|)
    && (forall i :: 0 <= i < |a.shares| ==> ShareGrows(a.shares[i], b.shares[i]))
  }

  lemma GrowsTransitive(a: Db, b: Db, c: Db)
    requires Grows(a, b) && Grows(b, c)
    ensures Grows(a, c)
  {
    forall t | 0 <= t < |a.tasks| ensures TaskGrows(a.tasks[t], c.tasks[t]) {
      assert TaskGrows(a.tasks[t], b.tasks[t]) && TaskGrows(b.tasks[t], c.tasks[t]);
    }
    forall k | 0 <= k < |a.chunks| ensures ChunkGrows(a.chunks[k], c.chunks[k]) {
      assert ChunkGrows(a.chunks[k], b.chunks[k]) && ChunkGrows(b.chunks[k], c.chunks[k]);
    }
    forall k | |a.chunks| <= k < |c.chunks| ensures c.chunks[k].task >= |a.tasks| {
      if k < |b.chunks| { assert ChunkGrows(b.chunks[k], c.chunks[k]); }
    }
    forall i | 0 <= i < |a.shares| ensures ShareGrows(a.shares[i], c.shares[i]) {
      assert ShareGrows(a.shares[i], b.shares[i]) && ShareGrows(b.shares[i], c.shares[i]);
    }
  }

  lemma GrowsAllDone(a: Db, b: Db, t: nat)
    requires Grows(a, b) && t < |a.tasks| && AllDone(a.chunks, t)
    ensures AllDone(b.chunks, t)
    ensures RowsOf(b.chunks, t) == RowsOf(a.chunks, t)
  {
    forall c | 0 <= c < |b.chunks| && b.chunks[c].task == t ensures c < |a.chunks| && b.chunks[c] == a.chunks[c] {
      assert c < |a.chunks| ==> ChunkGrows(a.chunks[c], b.chunks[c]);
    }
    var old_ := b.chunks[..|a.chunks|];
    assert b.chunks == old_ + b.chunks[|a.chunks|..];
    RowsAppend(old_, b.chunks[|a.chunks|..], t);
    RowsOfNone(b.chunks[|a.chunks|..], t);
    forall c | 0 <= c < |old_| ensures a.chunks[c].task == old_[c].task && (a.chunks[c].task == t ==> a.chunks[c] == old_[c]) {
      assert ChunkGrows(a.chunks[c], b.chunks[c]);
    }
    RowsFrame(a.chunks, old_, t);
    assert RowsOf(old_, t) + [] == RowsOf(old_, t);
  }

  lemma OpenEditGrows(a: Db, b: Db)
    requires IsOpenEdit(a, b)
    ensures Grows(a, b)
  {
  }

  lemma TaskEditGrows(a: Db, b: Db, t: nat, task: Task, credit: bool)
    requires t < |a.tasks| && IsTaskEdit(a, b, t, task, credit) && TaskGrows(a.tasks[t], task)
    ensures Grows(a, b)
  {
  }

  // ----- the database part of every step

  lemma CompleteGrows(db: Db, w: string, c: nat, segment: string, ms: int, now: int)
    requires c < |db.chunks|
    ensures Grows(db, DoComplete(db, w, c, segment, ms, now))
  {
  }

  lemma CompleteStep(cfg: Config, db: Db, sub: Submit, clock: int, now: int)
    requires DbOk(cfg, db, clock) && clock < now && SubmitOk(db, clock, sub) && sub.Plan(cfg).Complete?
    ensures DbOk(cfg, DoComplete(db, sub.worker, sub.chunk, sub.segment, sub.ms, now), now)
  {
    if db.chunks[sub.chunk].status == Completed {
      OpenEditKeeps(cfg, db, db, clock, now);
    } else {
      SubmitFits(cfg, db, sub, clock);
      CompleteKeeps(cfg, db, sub.worker, sub.chunk, sub.segment, sub.ms, clock, now);
    }
  }

  /** What a submit checked on the rows it read still holds of the chunk it is about to complete. */
  lemma SubmitFits(cfg: Config, db: Db, sub: Submit, clock: int)
    requires ChunksOk(cfg, db.tasks, db.chunks) && SubmitOk(db, clock, sub) && sub.Plan(cfg).Complete?
    ensures var row := db.chunks[sub.chunk];
            && row.task < |db.tasks| && |sub.segment| == row.units
            && (cfg.verify ==> sub.segment == TrueSegment(cfg, db.tasks[row.task].algorithm, row.rangeStart, row.rangeEnd))
  {
    assert ChunkOk(cfg, db.tasks, db.chunks[sub.chunk]);
  }

  lemma CreditLateGrows(db: Db, w: string, c: nat, units: int, stamp: int)
    requires c < |db.chunks|
    ensures Grows(db, DoCreditLate(db, w, c, units, stamp))
  {
  }

  lemma CreditRaceStep(cfg: Config, db: Db, sub: Submit, stamp: int, clock: int, now: int)
    requires DbOk(cfg, db, clock) && clock < now && SubmitOk(db, clock, sub) && sub.Plan(cfg).CreditLate?
    requires sub.readAt < stamp < now
    ensures DbOk(cfg, DoCreditLate(db, sub.worker, sub.chunk, sub.Plan(cfg).units, stamp), now)
  {
    if CanCreditLate(db, sub.worker, sub.chunk) {
      LateFits(cfg, db, sub, clock);
      LateKeeps(cfg, db, sub.worker, sub.chunk, sub.Plan(cfg).units, stamp, clock, now);
    } else {
      OpenEditKeeps(cfg, db, db, clock, now);
    }
  }

  lemma LateFits(cfg: Config, db: Db, sub: Submit, clock: int)
    requires ChunksOk(cfg, db.tasks, db.chunks) && SubmitOk(db, clock, sub) && sub.Plan(cfg).CreditLate?
    ensures var row := db.chunks[sub.chunk];
            && row == sub.row && row.task < |db.tasks| && IsFullRace(cfg, row, db.tasks[row.task])
            && 1 <= sub.Plan(cfg).units <= row.units
            && sub.Plan(cfg).units == RaceCredit(row.units, row.computeMs, sub.ms)
            && db.tasks[row.task].createdAt < sub.readAt
  {
    assert ChunkOk(cfg, db.tasks, db.chunks[sub.chunk]);
  }

  lemma CreateGrows(cfg: Config, db: Db, o: Offer, stamp: int, cutoff: int)
    ensures Grows(db, DoCreate(cfg, db, o, stamp, cutoff))
  {
    var next := DoCreate(cfg, db, o, stamp, cutoff);
    if next != db {
      var cut := ResolveChunks(cfg, ActiveWorkers(db.workers, cutoff), o.rangeStart, o.rangeEnd).value;
      forall c | |db.chunks| <= c < |next.chunks| ensures next.chunks[c].task >= |db.tasks| {
        assert next.chunks[c] == NewChunks(|db.tasks|, cut)[c - |db.chunks|];
      }
    }
  }

  lemma CreateStep(cfg: Config, db: Db, at: int, o: Offer, stamp: int, cutoff: int, clock: int, now: int)
    requires DbOk(cfg, db, clock) && 0 <= clock < now && TickOk(db, clock, Ensuring(at)) && 0 <= at < stamp < now
    ensures DbOk(cfg, DoCreate(cfg, db, o, stamp, cutoff), now)
  {
    CreateKeeps(cfg, db, o, stamp, cutoff, clock, now);
  }

  /** The row of a closed or closing task: valid, with only completed chunks. */
  lemma RowAt(cfg: Config, db: Db, t: nat, clock: int)
    requires DbOk(cfg, db, clock) && t < |db.tasks|
    ensures TaskOk(db.tasks[t], clock)
    ensures db.tasks[t].status != Gathering ==> AllDone(db.chunks, t)
  {
  }

  lemma BeginStep(cfg: Config, db: Db, t: nat, clock: int, now: int)
    requires DbOk(cfg, db, clock) && clock < now && t < |db.tasks| && AllDone(db.chunks, t)
    ensures DbOk(cfg, DoBeginSubmit(db, t), now) && Grows(db, DoBeginSubmit(db, t))
  {
    hide DbOk, Grows, AllDone;
    if db.tasks[t].status == Gathering {
      var task := db.tasks[t].(status := Submitting);
      RowAt(cfg, db, t, clock);
      TaskEditKeeps(cfg, db, DoBeginSubmit(db, t), t, task, false, clock, now);
      TaskEditGrows(db, DoBeginSubmit(db, t), t, task, false);
    } else {
      OpenEditKeeps(cfg, db, db, clock, now);
      OpenEditGrows(db, db);
    }
  }

  lemma FinishStep(cfg: Config, db: Db, t: nat, r: RevealReply, clock: int, now: int)
    requires DbOk(cfg, db, clock) && clock < now && t < |db.tasks| && db.tasks[t].status == Submitting
    ensures DbOk(cfg, DoFinishSubmit(db, t, r, now), now) && Grows(db, DoFinishSubmit(db, t, r, now))
  {
    hide DbOk, Grows, AllDone, Credit;
    var task := db.tasks[t].(status := RevealOutcome(r), reply := Some(r), completedAt := Some(now));
    RowAt(cfg, db, t, clock);
    TaskEditKeeps(cfg, db, DoFinishSubmit(db, t, r, now), t, task, IsCredited(r), clock, now);
    TaskEditGrows(db, DoFinishSubmit(db, t, r, now), t, task, IsCredited(r));
  }

  lemma FailStep(cfg: Config, db: Db, t: nat, lost: bool, clock: int, now: int)
    requires DbOk(cfg, db, clock) && clock < now && t < |db.tasks| && db.tasks[t].status == Submitting
    ensures DbOk(cfg, DoFailSubmit(db, t, lost, now), now) && Grows(db, DoFailSubmit(db, t, lost, now))
  {
    hide DbOk, Grows, AllDone;
    var task := db.tasks[t].(status := if lost then Lost else Failed, completedAt := Some(now));
    RowAt(cfg, db, t, clock);
    TaskEditKeeps(cfg, db, DoFailSubmit(db, t, lost, now), t, task, false, clock, now);
    TaskEditGrows(db, DoFailSubmit(db, t, lost, now), t, task, false);
  }

  /** Settlement acts on a task that still awaits mainnet: its completion time and credit stay as they are. */
  lemma SettleStep(cfg: Config, db: Db, t: nat, settlement: Settlement, clock: int, now: int)
    requires DbOk(cfg, db, clock) && clock < now && t < |db.tasks| && AwaitsMainnet(db.tasks[t].status)
    ensures DbOk(cfg, DoSettle(db, t, settlement, now), now) && Grows(db, DoSettle(db, t, settlement, now))
  {
    hide DbOk, Grows, AllDone;
    var next := DoSettle(db, t, settlement, now);
    RowAt(cfg, db, t, clock);
    if settlement.Undecided? {
      OpenEditKeeps(cfg, db, db, clock, now);
      OpenEditGrows(db, db);
    } else {
      TaskEditKeeps(cfg, db, next, t, next.tasks[t], false, clock, now);
      TaskEditGrows(db, next, t, next.tasks[t], false);
    }
  }

  lemma ApplyStatusStep(cfg: Config, db: Db, t: nat, reply: StatusReply, clock: int, now: int)
    requires DbOk(cfg, db, clock) && clock < now && t < |db.tasks|
    ensures DbOk(cfg, DoApplyStatus(db, t, reply, now), now) && Grows(db, DoApplyStatus(db, t, reply, now))
  {
    hide DbOk, Grows, AllDone;
    var next := DoApplyStatus(db, t, reply, now);
    RowAt(cfg, db, t, clock);
    if next == db {
      OpenEditKeeps(cfg, db, db, clock, now);
      OpenEditGrows(db, db);
    } else {
      TaskEditKeeps(cfg, db, next, t, next.tasks[t], false, clock, now);
      TaskEditGrows(db, next, t, next.tasks[t], false);
    }
  }

  /** Steps that leave every completed chunk, every task and every share alone. */
  predicate IsOpenStep(step: Step)
  {
    !(step.CompleteChunk? || step.CreditRace? || step.BeginFinalize? || step.SendCommit? || step.FinishFinalize?
      || step.FailFinalize? || step.CreateTask? || step.SettleRow? || step.CheckRow?)
  }

  lemma OpenStep(cfg: Config, s: System, now: int, step: Step)
    requires Enabled(cfg, s, now, step) && IsOpenStep(step)
    ensures IsOpenEdit(s.db, Apply(cfg, s, now, step).db)
  {
  }

  lemma CommitStep(cfg: Config, s: System, f: Finalizer, verdict: Verdict, now: int)
    requires DbOk(cfg, s.db, s.clock) && s.clock < now && f.task < |s.db.tasks| && s.db.tasks[f.task].status == Submitting
    ensures var db := ApplyCommit(s, f, verdict, now).db; DbOk(cfg, db, now) && Grows(s.db, db)
  {
    var db := ApplyCommit(s, f, verdict, now).db;
    if db == s.db {
      OpenEditKeeps(cfg, s.db, s.db, s.clock, now);
      OpenEditGrows(s.db, s.db);
    } else {
      FailStep(cfg, s.db, f.task, Assembled(s.db, f).Success? && verdict.lost, s.clock, now);
    }
  }

  lemma FinalizeDb(cfg: Config, s: System, now: int, step: Step)
    requires DbOk(cfg, s.db, s.clock) && QueueOk(s.db, s.queued) && FinalizersOk(s)
    requires Enabled(cfg, s, now, step)
    requires step.BeginFinalize? || step.SendCommit? || step.FinishFinalize? || step.FailFinalize?
    ensures DbOk(cfg, Apply(cfg, s, now, step).db, now)
    ensures Grows(s.db, Apply(cfg, s, now, step).db)
  {
    match step
    case BeginFinalize(t) => BeginStep(cfg, s.db, t, s.clock, now);
    case SendCommit(f, verdict) => CommitStep(cfg, s, f, verdict, now);
    case FinishFinalize(f, reply) => FinishStep(cfg, s.db, f.task, reply, s.clock, now);
    case FailFinalize(f, lost) => FailStep(cfg, s.db, f.task, lost, s.clock, now);
  }

  lemma TickDb(cfg: Config, s: System, now: int, step: Step)
    requires DbOk(cfg, s.db, s.clock) && 0 <= s.clock && TickOk(s.db, s.clock, s.tick)
    requires Enabled(cfg, s, now, step) && (step.CreateTask? || step.SettleRow? || step.CheckRow?)
    ensures DbOk(cfg, Apply(cfg, s, now, step).db, now)
    ensures Grows(s.db, Apply(cfg, s, now, step).db)
  {
    match step
    case CreateTask(o, stamp, cutoff) =>
      CreateStep(cfg, s.db, s.tick.readAt, o, stamp, cutoff, s.clock, now);
      CreateGrows(cfg, s.db, o, stamp, cutoff);
    case SettleRow(t, blocks) =>
      SettleStep(cfg, s.db, t, DecideSettlement(s.tick.pending[t].mainnetId, s.tick.pending[t].roundHeight, blocks), s.clock, now);
    case CheckRow(t, reply) => ApplyStatusStep(cfg, s.db, t, reply, s.clock, now);
  }

  lemma SubmitDb(cfg: Config, s: System, now: int, step: Step)
    requires DbOk(cfg, s.db, s.clock) && SubmitsOk(s.db, s.clock, s.submits)
    requires Enabled(cfg, s, now, step) && (step.CompleteChunk? || step.CreditRace?)
    ensures DbOk(cfg, Apply(cfg, s, now, step).db, now)
    ensures Grows(s.db, Apply(cfg, s, now, step).db)
  {
    match step
    case CompleteChunk(sub) =>
      CompleteStep(cfg, s.db, sub, s.clock, now);
      CompleteGrows(s.db, sub.worker, sub.chunk, sub.segment, sub.ms, now);
    case CreditRace(sub, stamp) =>
      CreditRaceStep(cfg, s.db, sub, stamp, s.clock, now);
      CreditLateGrows(s.db, sub.worker, sub.chunk, sub.Plan(cfg).units, stamp);
  }

  lemma StepDb(cfg: Config, s: System, now: int, step: Step)
    requires Inv(cfg, s) && Enabled(cfg, s, now, step)
    ensures DbOk(cfg, Apply(cfg, s, now, step).db, now)
    ensures Grows(s.db, Apply(cfg, s, now, step).db)
  {
    if step.CompleteChunk? || step.CreditRace? {
      SubmitDb(cfg, s, now, step);
    } else if step.CreateTask? || step.SettleRow? || step.CheckRow? {
      TickDb(cfg, s, now, step);
    } else if IsOpenStep(step) {
      OpenStep(cfg, s, now, step);
      OpenEditKeeps(cfg, s.db, Apply(cfg, s, now, step).db, s.clock, now);
      OpenEditGrows(s.db, Apply(cfg, s, now, step).db);
    } else {
      FinalizeDb(cfg, s, now, step);
    }
  }

  // ----- snapshots stay valid

  lemma SubmitKept(a: Db, b: Db, clock: int, now: int, sub: Submit)
    requires SubmitOk(a, clock, sub) && Grows(a, b) && clock <= now
    ensures SubmitOk(b, now, sub)
  {
    assert ChunkGrows(a.chunks[sub.chunk], b.chunks[sub.chunk]);
    assert TaskGrows(a.tasks[sub.row.task], b.tasks[sub.row.task]);
  }

  lemma StepClock(cfg: Config, s: System, now: int, step: Step)
    requires Enabled(cfg, s, now, step)
    ensures s.clock < now && Apply(cfg, s, now, step).clock == now
  {
  }

  /** Only reading rows adds a submit. */
  lemma SubmitsAfter(cfg: Config, s: System, now: int, step: Step)
    requires Enabled(cfg, s, now, step)
    ensures var next := Apply(cfg, s, now, step);
            && next.clock == now
            && (|| next.submits <= s.submits
                || (step.ReadSubmit? && next.db == s.db
                    && next.submits == s.submits + {Submit(step.worker, step.chunk, step.segment, step.ms, s.db.chunks[step.chunk],
                                                           s.db.tasks[s.db.chunks[step.chunk].task], now)}))
  {
    hide ResolveChunks, DecideSettlement, StatusUpdate, Assemble, RevealOutcome, IsClaim, PendingRows, CheckableRows;
  }

  lemma StepSubmits(cfg: Config, s: System, now: int, step: Step)
    requires TasksOk(s.db.tasks, s.clock) && SubmitsOk(s.db, s.clock, s.submits)
    requires Enabled(cfg, s, now, step) && Grows(s.db, Apply(cfg, s, now, step).db)
    ensures var next := Apply(cfg, s, now, step); next.clock == now && SubmitsOk(next.db, now, next.submits)
  {
    hide Apply, Grows;
    var next := Apply(cfg, s, now, step);
    SubmitsAfter(cfg, s, now, step);
    forall sub | sub in next.submits ensures SubmitOk(next.db, now, sub) {
      if sub in s.submits {
        SubmitKept(s.db, next.db, s.clock, now, sub);
      } else {
        assert TaskOk(s.db.tasks[s.db.chunks[step.chunk].task], s.clock);
      }
    }
  }

  /** A finalizer is scheduled only for a task whose chunks are all completed. */
  lemma QueuedAfter(cfg: Config, s: System, now: int, step: Step, t: nat)
    requires Enabled(cfg, s, now, step) && t in Apply(cfg, s, now, step).queued
    ensures t in s.queued || ReadyToFinalize(Apply(cfg, s, now, step).db, t)
  {
    hide ResolveChunks, DecideSettlement, StatusUpdate, Assemble, RevealOutcome, IsClaim, PendingRows, CheckableRows;
  }

  lemma StepQueue(cfg: Config, s: System, now: int, step: Step)
    requires QueueOk(s.db, s.queued)
    requires Enabled(cfg, s, now, step) && Grows(s.db, Apply(cfg, s, now, step).db)
    ensures var next := Apply(cfg, s, now, step); QueueOk(next.db, next.queued)
  {
    hide Apply, Grows, AllDone;
    var next := Apply(cfg, s, now, step);
    forall t | t in next.queued ensures t < |next.db.tasks| && AllDone(next.db.chunks, t) {
      QueuedAfter(cfg, s, now, step, t);
      if t in s.queued {
        GrowsAllDone(s.db, next.db, t);
        GrowsLength(s.db, next.db);
      }
    }
  }

  lemma GrowsLength(a: Db, b: Db)
    requires Grows(a, b)
    ensures |a.tasks| <= |b.tasks|
  {
  }

  // ----- finalizers

  /** Steps that may change the row of a task that was submitting, and the task they change. */
  predicate Closes(step: Step, t: nat)
  {
    || (step.SendCommit? && step.finalizer.task == t && step.verdict.Refused?)
    || (step.FinishFinalize? && step.finalizer.task == t)
    || (step.FailFinalize? && step.finalizer.task == t)
  }

  /** The joined pieces of a true tiling are the true text of the whole range. */
  lemma {:induction false} JoinTrue(cfg: Config, algorithm: string, lo: int, hi: int, ps: seq<Piece>)
    requires PiecesTile(lo, hi, ps)
    requires forall i :: 0 <= i < |ps| ==> ps[i].segment == TrueSegment(cfg, algorithm, ps[i].start, ps[i].end)
    ensures Join(ps) == TrueSegment(cfg, algorithm, lo, hi)
    decreases |ps|
  {
    TilesAscend(lo, hi, RangesOf(ps));
    if ps != [] {
      assert RangesOf(ps)[1..] == RangesOf(ps[1..]);
      JoinTrue(cfg, algorithm, ps[0].end + 1, hi, ps[1..]);
      var first, rest := TrueSegment(cfg, algorithm, lo, ps[0].end), TrueSegment(cfg, algorithm, ps[0].end + 1, hi);
      TilesAscend(ps[0].end + 1, hi, RangesOf(ps[1..]));
      assert first + rest == TrueSegment(cfg, algorithm, lo, hi);
    }
  }

  /** When the finalizer reassembles, it cannot fail, and with verification on it gets the true text. */
  lemma AssembledIsTrue(cfg: Config, s: System, f: Finalizer)
    requires ChunksOk(cfg, s.db.tasks, s.db.chunks) && TilesOk(s.db.tasks, s.db.chunks) && DoneOk(s.db.tasks, s.db.chunks)
    requires FinalizerOk(s.db, s.commits, f)
    ensures Assembled(s.db, f).Success?
    ensures var t := s.db.tasks[f.task];
            cfg.verify ==> Assembled(s.db, f).value == TrueSegment(cfg, t.algorithm, t.rangeStart, t.rangeEnd)
  {
    var t := s.db.tasks[f.task];
    var ps := PiecesOf(f.rows);
    RowsAreRows(s.db.chunks, f.task);
    assert AllDone(s.db.chunks, f.task);
    forall i | 0 <= i < |f.rows|
      ensures f.rows[i].task == f.task && f.rows[i].status == Completed && ChunkOk(cfg, s.db.tasks, f.rows[i])
    {
      assert f.rows[i] in s.db.chunks;
      var c :| 0 <= c < |s.db.chunks| && s.db.chunks[c] == f.rows[i];
    }
    assert RangesOf(ps) == RowRanges(f.rows);
    assert PiecesTile(t.rangeStart, t.rangeEnd, ps);
    AssemblePermuted(t.rangeStart, t.rangeEnd, ps, ps);
    if cfg.verify {
      JoinTrue(cfg, t.algorithm, t.rangeStart, t.rangeEnd, ps);
    }
  }

  /** Steps that may write a task row. */
  predicate WritesTask(step: Step)
  {
    || step.BeginFinalize? || step.SendCommit? || step.FinishFinalize? || step.FailFinalize?
    || step.CreateTask? || step.SettleRow? || step.CheckRow?
  }

  lemma TasksUntouched(cfg: Config, s: System, now: int, step: Step)
    requires Enabled(cfg, s, now, step) && !WritesTask(step)
    ensures Apply(cfg, s, now, step).db.tasks == s.db.tasks
  {
  }

  /** What the table of tasks becomes when a step writes it. */
  lemma FinalizerWrites(cfg: Config, s: System, now: int, step: Step, t: nat)
    requires Enabled(cfg, s, now, step) && t < |s.db.tasks| && !Closes(step, t)
    requires step.BeginFinalize? || step.SendCommit? || step.FinishFinalize? || step.FailFinalize?
    requires step.SendCommit? ==> Assembled(s.db, step.finalizer).Success?
    requires step.BeginFinalize? ==> s.db.tasks[t].status != Gathering
    ensures var next := Apply(cfg, s, now, step); t < |next.db.tasks| && next.db.tasks[t] == s.db.tasks[t]
  {
    hide ResolveChunks, DecideSettlement, StatusUpdate, Assemble, RevealOutcome, IsClaim, PendingRows, CheckableRows;
  }

  lemma CoordinatorWrites(cfg: Config, s: System, now: int, step: Step, t: nat)
    requires Enabled(cfg, s, now, step) && t < |s.db.tasks| && !(step.SettleRow? && step.task == t)
    requires step.CreateTask? || step.SettleRow? || (step.CheckRow? && s.db.tasks[t].status == Submitting)
    ensures var next := Apply(cfg, s, now, step); t < |next.db.tasks| && next.db.tasks[t] == s.db.tasks[t]
  {
    hide DecideSettlement, StatusUpdate, ResolveChunks;
  }

  /** A step that does not close a submitting task leaves its row alone. */
  lemma SubmittingKept(cfg: Config, s: System, now: int, step: Step, t: nat)
    requires TickOk(s.db, s.clock, s.tick) && ChunksOk(cfg, s.db.tasks, s.db.chunks)
    requires TilesOk(s.db.tasks, s.db.chunks) && DoneOk(s.db.tasks, s.db.chunks) && FinalizersOk(s)
    requires Enabled(cfg, s, now, step) && !Closes(step, t)
    requires t < |s.db.tasks| && s.db.tasks[t].status == Submitting
    ensures var next := Apply(cfg, s, now, step); t < |next.db.tasks| && next.db.tasks[t] == s.db.tasks[t]
  {
    hide ChunksOk, TilesOk, DoneOk, Apply, Closes, Assembled;
    if !WritesTask(step) {
      TasksUntouched(cfg, s, now, step);
    } else if step.CreateTask? || step.SettleRow? || step.CheckRow? {
      CoordinatorWrites(cfg, s, now, step, t);
    } else {
      if step.SendCommit? { AssembledIsTrue(cfg, s, step.finalizer); }
      FinalizerWrites(cfg, s, now, step, t);
    }
  }

  lemma FinalizerKept(a: Db, b: Db, commits: seq<Commit>, f: Finalizer)
    requires FinalizerOk(a, commits, f) && DoneOk(a.tasks, a.chunks) && Grows(a, b)
    requires b.tasks[f.task].status == Submitting
    ensures FinalizerOk(b, commits, f)
  {
    assert AllDone(a.chunks, f.task);
    GrowsAllDone(a, b, f.task);
  }

  /** Only a finalizer closes its own task, and then it is gone. */
  lemma NotClosed(cfg: Config, s: System, now: int, step: Step, f: Finalizer)
    requires FinalizersOk(s) && Enabled(cfg, s, now, step)
    requires f in s.finishing && f in Apply(cfg, s, now, step).finishing
    ensures !Closes(step, f.task)
  {
  }

  lemma FinalizerStep(cfg: Config, s: System, now: int, step: Step, f: Finalizer)
    requires TickOk(s.db, s.clock, s.tick) && ChunksOk(cfg, s.db.tasks, s.db.chunks)
    requires TilesOk(s.db.tasks, s.db.chunks) && DoneOk(s.db.tasks, s.db.chunks) && FinalizersOk(s)
    requires Enabled(cfg, s, now, step) && Grows(s.db, Apply(cfg, s, now, step).db)
    requires f in s.finishing && f in Apply(cfg, s, now, step).finishing
    ensures var next := Apply(cfg, s, now, step); FinalizerOk(next.db, next.commits, f)
  {
    hide TickOk, ChunksOk, TilesOk, DoneOk, Grows, Enabled, Apply, Assembled;
    var next := Apply(cfg, s, now, step);
    NotClosed(cfg, s, now, step, f);
    SubmittingKept(cfg, s, now, step, f.task);
    FinalizerKept(s.db, next.db, s.commits, f);
    if !f.committed { CommitAddsOther(cfg, s, now, step, f); }
  }

  /** Only sending a commit adds to the history of commits, and then the sender moves on. */
  lemma CommitSender(cfg: Config, s: System, now: int, step: Step)
    requires Enabled(cfg, s, now, step)
    ensures var next := Apply(cfg, s, now, step);
            || next.commits == s.commits
            || (step.SendCommit? && step.finalizer in s.finishing && step.finalizer !in next.finishing
                && (exists c :: next.commits == s.commits + [c] && c.task == step.finalizer.task))
  {
  }

  /** A commit sent by one finalizer is not for a task another one is working on. */
  lemma CommitAddsOther(cfg: Config, s: System, now: int, step: Step, f: Finalizer)
    requires FinalizersOk(s) && Enabled(cfg, s, now, step)
    requires f in s.finishing && f in Apply(cfg, s, now, step).finishing && !f.committed
    ensures forall i :: 0 <= i < |Apply(cfg, s, now, step).commits| ==> Apply(cfg, s, now, step).commits[i].task != f.task
  {
    hide Apply, Enabled;
    CommitSender(cfg, s, now, step);
    assert FinalizerOk(s.db, s.commits, f);
  }

  /** A finalizer whose commit was just taken. */
  lemma CommittedStep(cfg: Config, s: System, now: int, step: Step)
    requires TickOk(s.db, s.clock, s.tick) && ChunksOk(cfg, s.db.tasks, s.db.chunks)
    requires TilesOk(s.db.tasks, s.db.chunks) && DoneOk(s.db.tasks, s.db.chunks) && FinalizersOk(s)
    requires Enabled(cfg, s, now, step) && step.SendCommit? && Assembled(s.db, step.finalizer).Success? && step.verdict.Taken?
    ensures var next := Apply(cfg, s, now, step); FinalizerOk(next.db, next.commits, step.finalizer.(committed := true))
  {
    assert FinalizerOk(s.db, s.commits, step.finalizer);
  }

  lemma BegunStep(cfg: Config, s: System, now: int, t: nat)
    requires QueueOk(s.db, s.queued) && CommitsOk(cfg, s)
    requires Enabled(cfg, s, now, BeginFinalize(t)) && s.db.tasks[t].status == Gathering
    ensures var next := ApplyBegin(s, t, now); FinalizerOk(next.db, next.commits, Finalizer(t, RowsOf(s.db.chunks, t), now, false))
  {
    assert forall i :: 0 <= i < |s.commits| ==> CommitOk(cfg, s.db, s.commits[i]);
  }

  /** The finalizers after a step: those before it, but for the one that ended, moved on, or began. */
  lemma FinishingAfter(cfg: Config, s: System, now: int, step: Step)
    requires Enabled(cfg, s, now, step)
    ensures var next := Apply(cfg, s, now, step);
            || next.finishing <= s.finishing
            || (step.BeginFinalize? && s.db.tasks[step.task].status == Gathering
                && next.finishing == s.finishing + {Finalizer(step.task, RowsOf(s.db.chunks, step.task), now, false)})
            || (step.SendCommit? && Assembled(s.db, step.finalizer).Success? && step.verdict.Taken?
                && next.finishing == s.finishing - {step.finalizer} + {step.finalizer.(committed := true)})
  {
  }

  /** One finalizer per task. */
  predicate OnePerTask(fs: set<Finalizer>)
  {
    forall f, g :: f in fs && g in fs && f.task == g.task ==> f == g
  }

  lemma FewerApart(fs: set<Finalizer>, less: set<Finalizer>)
    requires OnePerTask(fs) && less <= fs
    ensures OnePerTask(less)
  {
  }

  lemma OneMoreApart(fs: set<Finalizer>, f: Finalizer)
    requires OnePerTask(fs) && forall g :: g in fs ==> g.task != f.task
    ensures OnePerTask(fs + {f})
  {
  }

  lemma MovedOnApart(fs: set<Finalizer>, f: Finalizer)
    requires OnePerTask(fs) && f in fs
    ensures OnePerTask(fs - {f} + {f.(committed := true)})
  {
  }

  lemma OthersSubmit(s: System, t: nat)
    requires FinalizersOk(s) && t < |s.db.tasks| && s.db.tasks[t].status == Gathering
    ensures forall g :: g in s.finishing ==> g.task != t
  {
    forall g | g in s.finishing ensures g.task != t { assert FinalizerOk(s.db, s.commits, g); }
  }

  lemma CommitSends(cfg: Config, s: System, now: int, step: Step)
    requires Enabled(cfg, s, now, step) && step.SendCommit?
    ensures step.finalizer in s.finishing
  {
  }

  lemma BeginsAt(cfg: Config, s: System, now: int, step: Step)
    requires Enabled(cfg, s, now, step) && step.BeginFinalize?
    ensures step.task < |s.db.tasks|
  {
  }

  lemma FinalizersStayApart(cfg: Config, s: System, now: int, step: Step)
    requires Enabled(cfg, s, now, step) && FinalizersOk(s)
    ensures OnePerTask(Apply(cfg, s, now, step).finishing)
  {
    assert OnePerTask(s.finishing);
    hide *;
    FinishingAfter(cfg, s, now, step);
    var next := Apply(cfg, s, now, step);
    if next.finishing <= s.finishing {
      FewerApart(s.finishing, next.finishing);
    } else if step.BeginFinalize? {
      BeginsAt(cfg, s, now, step);
      OthersSubmit(s, step.task);
      OneMoreApart(s.finishing, Finalizer(step.task, RowsOf(s.db.chunks, step.task), now, false));
    } else {
      CommitSends(cfg, s, now, step);
      MovedOnApart(s.finishing, step.finalizer);
    }
  }

  lemma StepFinalizers(cfg: Config, s: System, now: int, step: Step)
    requires TickOk(s.db, s.clock, s.tick) && ChunksOk(cfg, s.db.tasks, s.db.chunks)
    requires TilesOk(s.db.tasks, s.db.chunks) && DoneOk(s.db.tasks, s.db.chunks)
    requires QueueOk(s.db, s.queued) && FinalizersOk(s) && CommitsOk(cfg, s)
    requires Enabled(cfg, s, now, step) && Grows(s.db, Apply(cfg, s, now, step).db)
    ensures FinalizersOk(Apply(cfg, s, now, step))
  {
    hide TickOk, ChunksOk, TilesOk, DoneOk, QueueOk, CommitsOk, Grows, Apply;
    var next := Apply(cfg, s, now, step);
    FinishingAfter(cfg, s, now, step);
    FinalizersStayApart(cfg, s, now, step);
    forall f | f in next.finishing ensures FinalizerOk(next.db, next.commits, f) {
      if f in s.finishing {
        FinalizerStep(cfg, s, now, step, f);
      } else if step.SendCommit? {
        CommittedStep(cfg, s, now, step);
      } else {
        BegunStep(cfg, s, now, step.task);
        BeginIs(cfg, s, now, step.task);
      }
    }
  }

  lemma BeginIs(cfg: Config, s: System, now: int, t: nat)
    requires Enabled(cfg, s, now, BeginFinalize(t))
    ensures Apply(cfg, s, now, BeginFinalize(t)) == ApplyBegin(s, t, now)
  {
  }

  /** Only sending a commit adds to the history of commits. */
  lemma CommitsAfter(cfg: Config, s: System, now: int, step: Step)
    requires ChunksOk(cfg, s.db.tasks, s.db.chunks)
    requires TilesOk(s.db.tasks, s.db.chunks) && DoneOk(s.db.tasks, s.db.chunks) && FinalizersOk(s)
    requires Enabled(cfg, s, now, step)
    ensures var next := Apply(cfg, s, now, step);
            || next.commits == s.commits
            || (exists c :: next.commits == s.commits + [c] && CommitOk(cfg, s.db, c)
                            && forall i :: 0 <= i < |s.commits| ==> s.commits[i].task != c.task)
  {
    if step.SendCommit? {
      AssembledIsTrue(cfg, s, step.finalizer);
      assert FinalizerOk(s.db, s.commits, step.finalizer);
      var c := Commit(step.finalizer.task, Assembled(s.db, step.finalizer).value);
      assert Apply(cfg, s, now, step).commits == s.commits + [c];
      assert CommitOk(cfg, s.db, c);
    }
  }

  lemma CommitKept(cfg: Config, a: Db, b: Db, c: Commit)
    requires CommitOk(cfg, a, c) && Grows(a, b)
    ensures CommitOk(cfg, b, c)
  {
    assert TaskGrows(a.tasks[c.task], b.tasks[c.task]);
  }

  lemma StepCommits(cfg: Config, s: System, now: int, step: Step)
    requires ChunksOk(cfg, s.db.tasks, s.db.chunks)
    requires TilesOk(s.db.tasks, s.db.chunks) && DoneOk(s.db.tasks, s.db.chunks)
    requires FinalizersOk(s) && CommitsOk(cfg, s)
    requires Enabled(cfg, s, now, step) && Grows(s.db, Apply(cfg, s, now, step).db)
    ensures CommitsOk(cfg, Apply(cfg, s, now, step))
  {
    hide ChunksOk, TilesOk, DoneOk, FinalizersOk, Grows, Apply, Enabled, CommitOk;
    var next := Apply(cfg, s, now, step);
    CommitsAfter(cfg, s, now, step);
    forall i | 0 <= i < |next.commits| ensures CommitOk(cfg, next.db, next.commits[i]) {
      CommitKept(cfg, s.db, next.db, next.commits[i]);
    }
  }

  // ----- the coordinator thread

  /** Tasks that await mainnet are changed by the coordinator thread alone. */
  lemma AwaitingKept(cfg: Config, s: System, now: int, step: Step, t: nat)
    requires FinalizersOk(s)
    requires Enabled(cfg, s, now, step) && !(step.SettleRow? && step.task == t) && !step.CheckRow?
    requires t < |s.db.tasks| && AwaitsMainnet(s.db.tasks[t].status)
    ensures var next := Apply(cfg, s, now, step); t < |next.db.tasks| && next.db.tasks[t] == s.db.tasks[t]
  {
    hide Apply, Assembled;
    if !WritesTask(step) {
      TasksUntouched(cfg, s, now, step);
    } else if step.CreateTask? || step.SettleRow? {
      CoordinatorWrites(cfg, s, now, step, t);
    } else if step.BeginFinalize? {
      FinalizerWrites(cfg, s, now, step, t);
    } else {
      assert FinalizerOk(s.db, s.commits, step.finalizer);
      OtherFinalizer(cfg, s, now, step, t);
    }
  }

  lemma OtherFinalizer(cfg: Config, s: System, now: int, step: Step, t: nat)
    requires Enabled(cfg, s, now, step) && (step.SendCommit? || step.FinishFinalize? || step.FailFinalize?)
    requires t < |s.db.tasks| && t != step.finalizer.task
    ensures var next := Apply(cfg, s, now, step); t < |next.db.tasks| && next.db.tasks[t] == s.db.tasks[t]
  {
    hide ResolveChunks, DecideSettlement, StatusUpdate, Assemble, RevealOutcome, IsClaim, PendingRows, CheckableRows;
  }

  lemma EnsuringKept(a: Db, b: Db, at: int, clock: int, now: int)
    requires TickOk(a, clock, Ensuring(at)) && Grows(a, b) && |b.tasks| == |a.tasks| && clock <= now
    ensures TickOk(b, now, Ensuring(at))
  {
    forall t | 0 <= t < |b.tasks| ensures b.tasks[t].completedAt.Some? && b.tasks[t].completedAt.value < at {
      assert TaskGrows(a.tasks[t], b.tasks[t]);
    }
  }

  /** The coordinator thread after a step. */
  lemma TickAfter(cfg: Config, s: System, now: int, step: Step)
    requires Enabled(cfg, s, now, step)
    ensures var next := Apply(cfg, s, now, step);
            || next.tick.Idle?
            || (next.tick == s.tick && |next.db.tasks| == |s.db.tasks| && !step.SettleRow? && !step.CheckRow?
                && !step.CreateTask? && !step.StartEnsure? && !step.StartSettle?)
            || (step.StartEnsure? && !AnyBusy(s.db) && next.tick == Ensuring(now) && next.db == s.db)
            || (step.StartSettle? && next.tick == Settling(PendingRows(s.db)) && next.db == s.db)
            || (step.SettleRow? && s.tick.Settling? && next.tick == Settling(s.tick.pending - {step.task}))
            || (step.StartChecking? && next.tick == Checking(CheckableRows(s.db)) && next.db == s.db)
            || (step.CheckRow? && s.tick.Checking? && next.tick == Checking(s.tick.rows - {step.task}) && |next.db.tasks| == |s.db.tasks|)
  {
    hide ResolveChunks, DecideSettlement, StatusUpdate, Assemble, RevealOutcome, IsClaim, PendingRows, CheckableRows;
    if !WritesTask(step) { TasksUntouched(cfg, s, now, step); }
  }

  lemma SettlingKept(cfg: Config, s: System, now: int, step: Step, pending: map<nat, PendingRow>)
    requires TickOk(s.db, s.clock, s.tick) && FinalizersOk(s) && s.tick.Settling?
    requires Enabled(cfg, s, now, step) && !step.CheckRow?
    requires if step.SettleRow? then pending == s.tick.pending - {step.task} else pending == s.tick.pending
    ensures TickOk(Apply(cfg, s, now, step).db, now, Settling(pending))
  {
    forall t | t in pending
      ensures var next := Apply(cfg, s, now, step); t < |next.db.tasks| && next.db.tasks[t] == s.db.tasks[t]
    {
      AwaitingKept(cfg, s, now, step, t);
    }
  }

  /** An accepted task has its block, so a settlement pass only collects tasks that await mainnet. */
  lemma PendingAwaits(db: Db, clock: int)
    requires TasksOk(db.tasks, clock)
    ensures TickOk(db, clock, Settling(PendingRows(db)))
  {
    forall t | t in PendingRows(db) ensures AwaitsMainnet(db.tasks[t].status) {
      assert TaskOk(db.tasks[t], clock);
    }
  }

  lemma NoneBusy(db: Db, clock: int, now: int)
    requires TasksOk(db.tasks, clock) && !AnyBusy(db) && 0 <= clock < now
    ensures TickOk(db, now, Ensuring(now))
  {
    forall t | 0 <= t < |db.tasks| ensures db.tasks[t].completedAt.Some? && db.tasks[t].completedAt.value < now {
      assert TaskOk(db.tasks[t], clock);
    }
  }

  lemma StepTick(cfg: Config, s: System, now: int, step: Step)
    requires 0 <= s.clock < now && TasksOk(s.db.tasks, s.clock) && TickOk(s.db, s.clock, s.tick) && FinalizersOk(s)
    requires Enabled(cfg, s, now, step) && Grows(s.db, Apply(cfg, s, now, step).db)
    ensures var next := Apply(cfg, s, now, step); TickOk(next.db, now, next.tick)
  {
    hide Apply, Enabled, Grows, FinalizersOk, TasksOk;
    var next := Apply(cfg, s, now, step);
    TickAfter(cfg, s, now, step);
    if step.StartEnsure? && next.tick.Ensuring? {
      NoneBusy(s.db, s.clock, now);
    } else if next.tick.Ensuring? {
      EnsuringKept(s.db, next.db, s.tick.readAt, s.clock, now);
    } else if step.StartSettle? && next.tick.Settling? {
      PendingAwaits(s.db, s.clock);
    } else if next.tick.Settling? {
      SettlingKept(cfg, s, now, step, next.tick.pending);
    }
  }

  // ----- late race credit

  lemma RaceFrame(cfg: Config, a: Db, b: Db, raceMs: map<nat, int>, clock: int)
    requires RaceOk(a, raceMs) && SharesOk(cfg, a.tasks, a.chunks, a.shares, clock) && Grows(a, b) && |b.shares| == |a.shares|
    ensures RaceOk(b, raceMs)
  {
    forall i | 0 <= i < |b.shares| && b.shares[i].chunk < |b.chunks|
      ensures var s, c := b.shares[i], b.chunks[b.shares[i].chunk];
              if c.worker == Some(s.worker) then i !in raceMs
              else i in raceMs && s.units == RaceCredit(c.units, c.computeMs, raceMs[i])
    {
      assert ShareOk(cfg, a.tasks, a.chunks, clock, a.shares[i]);
      assert ShareGrows(a.shares[i], b.shares[i]);
      assert ChunkGrows(a.chunks[a.shares[i].chunk], b.chunks[a.shares[i].chunk]);
    }
  }

  lemma RaceComplete(cfg: Config, s: System, sub: Submit, now: int)
    requires RaceOk(s.db, s.raceMs) && SharesOk(cfg, s.db.tasks, s.db.chunks, s.db.shares, s.clock)
    requires sub.chunk < |s.db.chunks|
    ensures RaceOk(ApplyComplete(s, sub, now).db, s.raceMs)
  {
    var next := ApplyComplete(s, sub, now).db;
    forall i | 0 <= i < |s.db.shares| ensures s.db.shares[i].chunk < |s.db.chunks| && s.db.chunks[s.db.shares[i].chunk].status == Completed {
      assert ShareOk(cfg, s.db.tasks, s.db.chunks, s.clock, s.db.shares[i]);
    }
  }

  lemma RaceLate(cfg: Config, s: System, sub: Submit, stamp: int, now: int)
    requires RaceOk(s.db, s.raceMs) && SharesOk(cfg, s.db.tasks, s.db.chunks, s.db.shares, s.clock)
    requires ChunksOk(cfg, s.db.tasks, s.db.chunks) && FirstShares(s.db.chunks, s.db.shares)
    requires SubmitOk(s.db, s.clock, sub) && sub.Plan(cfg).CreditLate?
    ensures var next := ApplyCreditRace(cfg, s, sub, stamp, now); RaceOk(next.db, next.raceMs)
  {
    if CanCreditLate(s.db, sub.worker, sub.chunk) {
      LateIsNotWinner(cfg, s.db, sub.worker, sub.chunk, s.clock);
      LateFits(cfg, s.db, sub, s.clock);
    }
  }

  /** Only two steps add shares, and only one of them records a race time. */
  lemma SharesUntouched(cfg: Config, s: System, now: int, step: Step)
    requires Enabled(cfg, s, now, step) && !step.CompleteChunk? && !step.CreditRace?
    ensures var next := Apply(cfg, s, now, step); |next.db.shares| == |s.db.shares| && next.raceMs == s.raceMs
  {
    hide DecideSettlement, StatusUpdate, ResolveChunks, Assemble, RevealOutcome, IsClaim, PendingRows, CheckableRows;
  }

  lemma StepRace(cfg: Config, s: System, now: int, step: Step)
    requires SharesOk(cfg, s.db.tasks, s.db.chunks, s.db.shares, s.clock) && ChunksOk(cfg, s.db.tasks, s.db.chunks)
    requires FirstShares(s.db.chunks, s.db.shares) && SubmitsOk(s.db, s.clock, s.submits) && RaceOk(s.db, s.raceMs)
    requires Enabled(cfg, s, now, step) && Grows(s.db, Apply(cfg, s, now, step).db)
    ensures var next := Apply(cfg, s, now, step); RaceOk(next.db, next.raceMs)
  {
    hide SharesOk, ChunksOk, FirstShares, RaceOk, Grows;
    if step.CompleteChunk? {
      RaceComplete(cfg, s, step.submit, now);
    } else if step.CreditRace? {
      RaceLate(cfg, s, step.submit, step.stamp, now);
    } else {
      hide Apply;
      SharesUntouched(cfg, s, now, step);
      RaceFrame(cfg, s.db, Apply(cfg, s, now, step).db, s.raceMs, s.clock);
    }
  }

  // ----- every run

  /** Every step keeps the whole invariant and undoes nothing. */
  lemma StepKeeps(cfg: Config, s: System, now: int, step: Step)
    requires Inv(cfg, s) && Enabled(cfg, s, now, step)
    ensures Inv(cfg, Apply(cfg, s, now, step))
    ensures Grows(s.db, Apply(cfg, s, now, step).db)
    ensures s.clock < Apply(cfg, s, now, step).clock
  {
    hide *;
    InvParts(cfg, s);
    StepDb(cfg, s, now, step);
    StepClock(cfg, s, now, step);
    StepSubmits(cfg, s, now, step);
    StepQueue(cfg, s, now, step);
    StepFinalizers(cfg, s, now, step);
    StepCommits(cfg, s, now, step);
    StepTick(cfg, s, now, step);
    StepRace(cfg, s, now, step);
    InvFromParts(cfg, Apply(cfg, s, now, step));
  }

  lemma {:induction false} RunIsSafe(cfg: Config, run: seq<System>, i: nat)
    requires IsRun(cfg, run) && i < |run|
    ensures Inv(cfg, run[i])
  {
    if i > 0 {
      RunIsSafe(cfg, run, i - 1);
      assert IsStep(cfg, run[i - 1], run[i - 1 + 1]);
      var now: int, step: Step :| Enabled(cfg, run[i - 1], now, step) && run[i] == Apply(cfg, run[i - 1], now, step);
      StepKeeps(cfg, run[i - 1], now, step);
    }
  }

  /** Along a run nothing recorded is undone: statuses move forward, final rows and completed chunks never change. */
  lemma {:induction false} RunGrows(cfg: Config, run: seq<System>, i: nat, j: nat)
    requires IsRun(cfg, run) && i <= j < |run|
    ensures Grows(run[i].db, run[j].db)
    decreases j - i
  {
    hide Inv, Enabled, Apply, Grows;
    if i < j {
      RunGrows(cfg, run, i, j - 1);
      RunIsSafe(cfg, run, j - 1);
      assert IsStep(cfg, run[j - 1], run[j - 1 + 1]);
      var now: int, step: Step :| Enabled(cfg, run[j - 1], now, step) && run[j] == Apply(cfg, run[j - 1], now, step);
      StepKeeps(cfg, run[j - 1], now, step);
      GrowsTransitive(run[i].db, run[j - 1].db, run[j].db);
    } else {
      OpenEditGrows(run[i].db, run[i].db);
    }
  }
}
