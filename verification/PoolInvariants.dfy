/** What holds of the database and of every thread's snapshot in all reachable states of the pool. */
module PoolInvariants {
  import opened Prelude
  import opened PoolRanges
  import opened PoolTables
  import opened PoolProtocol

  // ----- sums over tables

  function ShareUnits(shares: seq<Share>, t: nat): int
  {
    if shares == [] then 0
    else
      var last := shares[|shares| - 1];
      ShareUnits(shares[..|shares| - 1], t) + if last.task == t then last.units else 0
  }

  /** Units of the completed chunks of a task. */
  function DoneUnits(chunks: seq<Chunk>, t: nat): int
  {
    if chunks == [] then 0
    else
      var last := chunks[|chunks| - 1];
      DoneUnits(chunks[..|chunks| - 1], t) + if last.task == t && last.status == Completed then last.units else 0
  }

  function RowRanges(rows: seq<Chunk>): (rs: seq<Range>)
    ensures |rs| == |rows|
    ensures forall i :: 0 <= i < |rows| ==> rs[i] == Range(rows[i].rangeStart, rows[i].rangeEnd)
  {
    seq(|rows|, i requires 0 <= i < |rows| => Range(rows[i].rangeStart, rows[i].rangeEnd))
  }

  // ----- the database

  /** A task's status is what its stored reply says; without a reply the task was never revealed. */
  predicate FollowsReply(status: TaskStatus, reply: Option<RevealReply>)
  {
    match reply
    case None => IsBusy(status) || status == Lost || status == Failed
    case Some(r) =>
      && (status == Accepted <==> r.accepted && r.block.Some?)
      && (status == ValidationPending <==> r.status == "validation_pending" && !(r.accepted && r.block.Some?))
      && (status == Submitted <==> r.accepted && r.block.None? && r.status != "validation_pending")
      && !IsBusy(status) && status != Failed
  }

  predicate TaskOk(task: Task, clock: int)
  {
    && task.rangeStart <= task.rangeEnd
    && task.status != Active && task.status != Unsettled
    && 0 < task.createdAt <= clock
    && (task.completedAt.None? <==> IsBusy(task.status))
    && (task.completedAt.Some? ==> task.createdAt < task.completedAt.value <= clock)
    && FollowsReply(task.status, task.reply)
  }

  predicate TasksOk(tasks: seq<Task>, clock: int)
  {
    forall t :: 0 <= t < |tasks| ==> TaskOk(tasks[t], clock)
  }

  /** A task starts only after every earlier one was closed. */
  predicate OrderOk(tasks: seq<Task>)
  {
    forall t, u :: 0 <= t < u < |tasks| ==> tasks[t].completedAt.Some? && tasks[t].completedAt.value < tasks[u].createdAt
  }

  predicate NamesOk(tasks: seq<Task>)
  {
    forall t, u :: 0 <= t < u < |tasks| ==> tasks[t].mainnetId != tasks[u].mainnetId
  }

  predicate ChunkOk(cfg: Config, tasks: seq<Task>, c: Chunk)
  {
    && c.task < |tasks|
    && c.rangeStart <= c.rangeEnd
    && c.units == c.rangeEnd - c.rangeStart + 1
    && (c.status == Completed ==>
          && c.worker.Some? && c.segment.Some? && |c.segment.value| == c.units
          && (cfg.verify ==> c.segment.value == TrueSegment(cfg, tasks[c.task].algorithm, c.rangeStart, c.rangeEnd)))
  }

  predicate ChunksOk(cfg: Config, tasks: seq<Task>, chunks: seq<Chunk>)
  {
    forall c :: 0 <= c < |chunks| ==> ChunkOk(cfg, tasks, chunks[c])
  }

  /** The chunks of a task cover its range exactly, in table order. */
  predicate TilesOk(tasks: seq<Task>, chunks: seq<Chunk>)
  {
    forall t :: 0 <= t < |tasks| ==> Tiles(tasks[t].rangeStart, tasks[t].rangeEnd, RowRanges(RowsOf(chunks, t)))
  }

  /** Outside `gathering` a task has only completed chunks. */
  predicate DoneOk(tasks: seq<Task>, chunks: seq<Chunk>)
  {
    forall t :: 0 <= t < |tasks| && tasks[t].status != Gathering ==> AllDone(chunks, t)
  }

  predicate ShareOk(cfg: Config, tasks: seq<Task>, chunks: seq<Chunk>, clock: int, s: Share)
  {
    && s.task < |tasks| && s.chunk < |chunks|
    && (var c, task := chunks[s.chunk], tasks[s.task];
        && c.task == s.task && c.status == Completed && c.worker.Some?
        && 1 <= s.units <= c.units
        && (s.worker == c.worker.value ==> s.units == c.units)
        && (s.worker != c.worker.value ==> IsFullRace(cfg, c, task))
        && task.createdAt < s.createdAt <= clock
        && (task.completedAt.Some? ==> s.createdAt < task.completedAt.value)
        && (IsBusy(task.status) ==> !s.credited)
        && (AwaitsMainnet(task.status) || task.status == Accepted ==> s.credited)
        && (task.reply.None? ==> !s.credited)
        && (task.reply.Some? && task.status != Rejected ==> s.credited))
  }

  predicate SharesOk(cfg: Config, tasks: seq<Task>, chunks: seq<Chunk>, shares: seq<Share>, clock: int)
  {
    forall i :: 0 <= i < |shares| ==> ShareOk(cfg, tasks, chunks, clock, shares[i])
  }

  /** Credit is all or nothing for the shares of one task. */
  predicate UniformCredit(shares: seq<Share>)
  {
    forall i, j :: 0 <= i < j < |shares| && shares[i].task == shares[j].task ==> shares[i].credited == shares[j].credited
  }

  predicate OnePerWorker(shares: seq<Share>)
  {
    forall i, j :: 0 <= i < j < |shares| && shares[i].chunk == shares[j].chunk ==> shares[i].worker != shares[j].worker
  }

  /** The share of the worker whose submit completed chunk c. */
  predicate IsFirstShare(row: Chunk, c: nat, s: Share)
  {
    s.chunk == c && row.worker == Some(s.worker) && s.units == row.units
  }

  predicate HasFirstShare(row: Chunk, c: nat, shares: seq<Share>)
  {
    exists i :: 0 <= i < |shares| && IsFirstShare(row, c, shares[i])
  }

  predicate FirstShares(chunks: seq<Chunk>, shares: seq<Share>)
  {
    forall c :: 0 <= c < |chunks| && chunks[c].status == Completed ==> HasFirstShare(chunks[c], c, shares)
  }

  predicate IsRaceTask(cfg: Config, task: Task, chunks: seq<Chunk>, t: nat)
  {
    exists c :: 0 <= c < |chunks| && chunks[c].task == t && IsFullRace(cfg, chunks[c], task)
  }

  predicate SumsOk(cfg: Config, tasks: seq<Task>, chunks: seq<Chunk>, shares: seq<Share>)
  {
    forall t :: 0 <= t < |tasks| && !IsRaceTask(cfg, tasks[t], chunks, t) ==> ShareUnits(shares, t) == DoneUnits(chunks, t)
  }

  predicate DbOk(cfg: Config, db: Db, clock: int)
  {
    && TasksOk(db.tasks, clock) && OrderOk(db.tasks) && NamesOk(db.tasks)
    && ChunksOk(cfg, db.tasks, db.chunks) && TilesOk(db.tasks, db.chunks) && DoneOk(db.tasks, db.chunks)
    && SharesOk(cfg, db.tasks, db.chunks, db.shares, clock)
    && UniformCredit(db.shares) && OnePerWorker(db.shares) && FirstShares(db.chunks, db.shares)
    && SumsOk(cfg, db.tasks, db.chunks, db.shares)
  }

  // ----- snapshots

  /** The columns of a chunk row that never change. */
  predicate SameShape(a: Chunk, b: Chunk)
  {
    a.task == b.task && a.rangeStart == b.rangeStart && a.rangeEnd == b.rangeEnd && a.units == b.units
  }

  /** The columns of a task row that never change. */
  predicate SameOrigin(a: Task, b: Task)
  {
    && a.mainnetId == b.mainnetId && a.rangeStart == b.rangeStart && a.rangeEnd == b.rangeEnd
    && a.algorithm == b.algorithm && a.roundHeight == b.roundHeight && a.createdAt == b.createdAt
  }

  /** A row read by a submit still describes its chunk; a completed one is still the row. */
  predicate SubmitOk(db: Db, clock: int, sub: Submit)
  {
    && sub.chunk < |db.chunks| && sub.row.task < |db.tasks|
    && SameShape(sub.row, db.chunks[sub.chunk])
    && (sub.row.status == Completed ==> db.chunks[sub.chunk] == sub.row)
    && SameOrigin(sub.task, db.tasks[sub.row.task])
    && sub.task.createdAt < sub.readAt <= clock
  }

  predicate SubmitsOk(db: Db, clock: int, submits: set<Submit>)
  {
    forall sub :: sub in submits ==> SubmitOk(db, clock, sub)
  }

  /** A scheduled finalizer's task has only completed chunks, whatever happened since it was scheduled. */
  predicate QueueOk(db: Db, queued: multiset<nat>)
  {
    forall t :: t in queued ==> t < |db.tasks| && AllDone(db.chunks, t)
  }

  predicate FinalizerOk(db: Db, commits: seq<Commit>, f: Finalizer)
  {
    && f.task < |db.tasks| && db.tasks[f.task].status == Submitting
    && f.rows == RowsOf(db.chunks, f.task)
    && (!f.committed ==> forall i :: 0 <= i < |commits| ==> commits[i].task != f.task)
  }

  predicate FinalizersOk(s: System)
  {
    && (forall f :: f in s.finishing ==> FinalizerOk(s.db, s.commits, f))
    && (forall f, g :: f in s.finishing && g in s.finishing && f.task == g.task ==> f == g)
  }

  predicate CommitOk(cfg: Config, db: Db, c: Commit)
  {
    && c.task < |db.tasks| && !IsOpen(db.tasks[c.task].status)
    && (cfg.verify ==>
          var t := db.tasks[c.task]; c.text == TrueSegment(cfg, t.algorithm, t.rangeStart, t.rangeEnd))
  }

  predicate CommitsOk(cfg: Config, s: System)
  {
    && (forall i :: 0 <= i < |s.commits| ==> CommitOk(cfg, s.db, s.commits[i]))
    && (forall i, j :: 0 <= i < j < |s.commits| ==> s.commits[i].task != s.commits[j].task)
  }

  predicate TickOk(db: Db, clock: int, tick: Tick)
  {
    match tick
    case Idle => true
    case Ensuring(at) =>
      0 <= at <= clock && forall t :: 0 <= t < |db.tasks| ==> db.tasks[t].completedAt.Some? && db.tasks[t].completedAt.value < at
    case Settling(pending) =>
      forall t :: t in pending ==> t < |db.tasks| && AwaitsMainnet(db.tasks[t].status)
                                   && pending[t] == PendingRow(db.tasks[t].mainnetId, db.tasks[t].roundHeight)
    case Checking(rows) => forall t :: t in rows ==> t < |db.tasks|
  }

  /** Late race shares carry the formula's credit for the time they were submitted with. */
  predicate RaceOk(db: Db, raceMs: map<nat, int>)
  {
    && (forall i :: i in raceMs ==> i < |db.shares|)
    && (forall i :: 0 <= i < |db.shares| && db.shares[i].chunk < |db.chunks| ==>
          var s, c := db.shares[i], db.chunks[db.shares[i].chunk];
          if c.worker == Some(s.worker) then i !in raceMs
          else i in raceMs && s.units == RaceCredit(c.units, c.computeMs, raceMs[i]))
  }

  ghost predicate Inv(cfg: Config, s: System)
  {
    && DbOk(cfg, s.db, s.clock)
    && 0 <= s.clock
    && SubmitsOk(s.db, s.clock, s.submits)
    && QueueOk(s.db, s.queued)
    && FinalizersOk(s)
    && CommitsOk(cfg, s)
    && TickOk(s.db, s.clock, s.tick)
    && RaceOk(s.db, s.raceMs)
  }

  lemma InvParts(cfg: Config, s: System)
    requires Inv(cfg, s)
    ensures DbOk(cfg, s.db, s.clock) && 0 <= s.clock && SubmitsOk(s.db, s.clock, s.submits) && QueueOk(s.db, s.queued)
    ensures FinalizersOk(s) && CommitsOk(cfg, s) && TickOk(s.db, s.clock, s.tick) && RaceOk(s.db, s.raceMs)
    ensures TasksOk(s.db.tasks, s.clock) && OrderOk(s.db.tasks) && NamesOk(s.db.tasks)
    ensures ChunksOk(cfg, s.db.tasks, s.db.chunks) && TilesOk(s.db.tasks, s.db.chunks) && DoneOk(s.db.tasks, s.db.chunks)
    ensures SharesOk(cfg, s.db.tasks, s.db.chunks, s.db.shares, s.clock) && FirstShares(s.db.chunks, s.db.shares)
    ensures UniformCredit(s.db.shares) && OnePerWorker(s.db.shares) && SumsOk(cfg, s.db.tasks, s.db.chunks, s.db.shares)
  {
  }

  lemma InvFromParts(cfg: Config, s: System)
    requires DbOk(cfg, s.db, s.clock) && 0 <= s.clock && SubmitsOk(s.db, s.clock, s.submits) && QueueOk(s.db, s.queued)
    requires FinalizersOk(s) && CommitsOk(cfg, s) && TickOk(s.db, s.clock, s.tick) && RaceOk(s.db, s.raceMs)
    ensures Inv(cfg, s)
  {
  }
}
