/** Every locked block keeps the database invariant. */
module PoolSteps {
  import opened Prelude
  import opened PoolRanges
  import opened PoolTables
  import opened PoolInvariants
  import opened PoolTableFacts

  /** Rows keep their shape; only rows that are not completed may change at all. */
  predicate IsChunkEdit(a: seq<Chunk>, b: seq<Chunk>)
  {
    |a| == |b| && forall c :: 0 <= c < |a| ==> SameShape(a[c], b[c]) && (a[c].status == Completed ==> b[c] == a[c])
  }

  lemma RaceKept(cfg: Config, a: Task, b: Task, before: seq<Chunk>, after: seq<Chunk>, t: nat)
    requires |before| <= |after| && SameOrigin(a, b)
    requires forall c :: 0 <= c < |before| ==> SameShape(before[c], after[c])
    ensures IsRaceTask(cfg, a, before, t) ==> IsRaceTask(cfg, b, after, t)
  {
    if IsRaceTask(cfg, a, before, t) {
      var c :| 0 <= c < |before| && before[c].task == t && IsFullRace(cfg, before[c], a);
      assert after[c].task == t && IsFullRace(cfg, after[c], b);
    }
  }

  lemma TasksLater(tasks: seq<Task>, clock: int, now: int)
    requires TasksOk(tasks, clock) && clock <= now
    ensures TasksOk(tasks, now)
  {
    forall t | 0 <= t < |tasks| ensures TaskOk(tasks[t], now) { assert TaskOk(tasks[t], clock); }
  }

  lemma EditTiles(tasks: seq<Task>, a: seq<Chunk>, b: seq<Chunk>)
    requires TilesOk(tasks, a) && IsChunkEdit(a, b)
    ensures TilesOk(tasks, b)
  {
    forall t | 0 <= t < |tasks| ensures Tiles(tasks[t].rangeStart, tasks[t].rangeEnd, RowRanges(RowsOf(b, t))) {
      RangesFrame(a, b, t);
    }
  }

  lemma EditShares(cfg: Config, tasks: seq<Task>, a: seq<Chunk>, b: seq<Chunk>, shares: seq<Share>, clock: int, now: int)
    requires SharesOk(cfg, tasks, a, shares, clock) && IsChunkEdit(a, b) && clock <= now
    ensures SharesOk(cfg, tasks, b, shares, now)
  {
    forall i | 0 <= i < |shares| ensures ShareOk(cfg, tasks, b, now, shares[i]) {
      assert ShareOk(cfg, tasks, a, clock, shares[i]);
    }
  }

  // ----- edits of open chunks: claim, reset, expiry

  /** A chunk edit that completes nothing. */
  predicate IsOpenEdit(a: Db, b: Db)
  {
    && a.tasks == b.tasks && a.shares == b.shares && IsChunkEdit(a.chunks, b.chunks)
    && forall c :: 0 <= c < |a.chunks| && b.chunks[c].status == Completed ==> a.chunks[c].status == Completed
  }

  lemma OpenEditKeeps(cfg: Config, a: Db, b: Db, clock: int, now: int)
    requires DbOk(cfg, a, clock) && IsOpenEdit(a, b) && clock < now
    ensures DbOk(cfg, b, now)
  {
    TasksLater(a.tasks, clock, now);
    OpenEditChunks(cfg, a, b);
    EditTiles(a.tasks, a.chunks, b.chunks);
    EditShares(cfg, a.tasks, a.chunks, b.chunks, a.shares, clock, now);
    OpenEditSums(cfg, a, b);
  }

  lemma OpenEditChunks(cfg: Config, a: Db, b: Db)
    requires ChunksOk(cfg, a.tasks, a.chunks) && DoneOk(a.tasks, a.chunks) && FirstShares(a.chunks, a.shares) && IsOpenEdit(a, b)
    ensures ChunksOk(cfg, b.tasks, b.chunks) && DoneOk(b.tasks, b.chunks) && FirstShares(b.chunks, b.shares)
  {
    forall c | 0 <= c < |b.chunks| ensures ChunkOk(cfg, b.tasks, b.chunks[c]) {
      assert ChunkOk(cfg, a.tasks, a.chunks[c]);
    }
    forall t | 0 <= t < |b.tasks| && b.tasks[t].status != Gathering ensures AllDone(b.chunks, t) {
      assert AllDone(a.chunks, t);
    }
    forall c | 0 <= c < |b.chunks| && b.chunks[c].status == Completed ensures HasFirstShare(b.chunks[c], c, b.shares) {
      assert HasFirstShare(a.chunks[c], c, a.shares);
    }
  }

  lemma OpenEditSums(cfg: Config, a: Db, b: Db)
    requires SumsOk(cfg, a.tasks, a.chunks, a.shares) && IsOpenEdit(a, b)
    ensures SumsOk(cfg, b.tasks, b.chunks, b.shares)
  {
    forall t | 0 <= t < |b.tasks| && !IsRaceTask(cfg, b.tasks[t], b.chunks, t)
      ensures ShareUnits(b.shares, t) == DoneUnits(b.chunks, t)
    {
      RaceKept(cfg, a.tasks[t], b.tasks[t], a.chunks, b.chunks, t);
      DoneUnitsFrame(a.chunks, b.chunks, t);
    }
  }

  // ----- completing a chunk

  lemma CompleteKeeps(cfg: Config, db: Db, w: string, c: nat, segment: string, ms: int, clock: int, now: int)
    requires DbOk(cfg, db, clock) && clock < now
    requires c < |db.chunks| && db.chunks[c].status != Completed && db.chunks[c].task < |db.tasks|
    requires |segment| == db.chunks[c].units
    requires cfg.verify ==> segment == TrueSegment(cfg, db.tasks[db.chunks[c].task].algorithm, db.chunks[c].rangeStart, db.chunks[c].rangeEnd)
    ensures DbOk(cfg, DoComplete(db, w, c, segment, ms, now), now)
    ensures db.tasks[db.chunks[c].task].status == Gathering
  {
    var next := DoComplete(db, w, c, segment, ms, now);
    TasksLater(db.tasks, clock, now);
    CompleteChunks(cfg, db, w, c, segment, ms, now);
    EditTiles(db.tasks, db.chunks, next.chunks);
    EditShares(cfg, db.tasks, db.chunks, next.chunks, db.shares, clock, now);
    CompleteShares(cfg, db, w, c, segment, ms, clock, now);
    CompleteFirstShares(cfg, db, w, c, segment, ms, now);
    CompleteSums(cfg, db, w, c, segment, ms, now);
  }

  lemma CompleteChunks(cfg: Config, db: Db, w: string, c: nat, segment: string, ms: int, now: int)
    requires ChunksOk(cfg, db.tasks, db.chunks) && DoneOk(db.tasks, db.chunks)
    requires c < |db.chunks| && db.chunks[c].status != Completed && db.chunks[c].task < |db.tasks|
    requires |segment| == db.chunks[c].units
    requires cfg.verify ==> segment == TrueSegment(cfg, db.tasks[db.chunks[c].task].algorithm, db.chunks[c].rangeStart, db.chunks[c].rangeEnd)
    ensures var next := DoComplete(db, w, c, segment, ms, now);
            ChunksOk(cfg, next.tasks, next.chunks) && DoneOk(next.tasks, next.chunks)
    ensures db.tasks[db.chunks[c].task].status == Gathering
  {
    var next := DoComplete(db, w, c, segment, ms, now);
    forall d | 0 <= d < |next.chunks| ensures ChunkOk(cfg, next.tasks, next.chunks[d]) {
      assert ChunkOk(cfg, db.tasks, db.chunks[d]);
    }
    forall t | 0 <= t < |next.tasks| && next.tasks[t].status != Gathering ensures AllDone(next.chunks, t) {
      assert AllDone(db.chunks, t);
    }
    assert db.tasks[db.chunks[c].task].status != Gathering ==> AllDone(db.chunks, db.chunks[c].task);
  }

  lemma CompleteShares(cfg: Config, db: Db, w: string, c: nat, segment: string, ms: int, clock: int, now: int)
    requires TasksOk(db.tasks, clock) && ChunksOk(cfg, db.tasks, db.chunks) && clock < now
    requires SharesOk(cfg, db.tasks, db.chunks, db.shares, clock) && UniformCredit(db.shares) && OnePerWorker(db.shares)
    requires c < |db.chunks| && db.chunks[c].status != Completed && db.chunks[c].task < |db.tasks|
    requires db.tasks[db.chunks[c].task].status == Gathering
    ensures var next := DoComplete(db, w, c, segment, ms, now);
            SharesOk(cfg, next.tasks, next.chunks, next.shares, now) && UniformCredit(next.shares) && OnePerWorker(next.shares)
  {
    var next := DoComplete(db, w, c, segment, ms, now);
    assert ChunkOk(cfg, db.tasks, db.chunks[c]);
    assert TaskOk(db.tasks[db.chunks[c].task], clock);
    forall i | 0 <= i < |next.shares| ensures ShareOk(cfg, next.tasks, next.chunks, now, next.shares[i]) {
      if i < |db.shares| {
        assert ShareOk(cfg, db.tasks, db.chunks, clock, db.shares[i]);
      }
    }
    forall i | 0 <= i < |db.shares|
      ensures db.shares[i].chunk != c && (db.shares[i].task == db.chunks[c].task ==> !db.shares[i].credited)
    {
      assert ShareOk(cfg, db.tasks, db.chunks, clock, db.shares[i]);
    }
  }

  lemma FirstShareKept(row: Chunk, c: nat, shares: seq<Share>, more: seq<Share>)
    requires HasFirstShare(row, c, shares) && |shares| <= |more|
    requires forall i :: 0 <= i < |shares| ==>
               more[i].chunk == shares[i].chunk && more[i].worker == shares[i].worker && more[i].units == shares[i].units
    ensures HasFirstShare(row, c, more)
  {
    var i :| 0 <= i < |shares| && IsFirstShare(row, c, shares[i]);
    assert IsFirstShare(row, c, more[i]);
  }

  lemma CompleteFirstShares(cfg: Config, db: Db, w: string, c: nat, segment: string, ms: int, now: int)
    requires FirstShares(db.chunks, db.shares) && ChunksOk(cfg, db.tasks, db.chunks)
    requires c < |db.chunks| && db.chunks[c].status != Completed
    ensures var next := DoComplete(db, w, c, segment, ms, now); FirstShares(next.chunks, next.shares)
  {
    var next := DoComplete(db, w, c, segment, ms, now);
    forall d | 0 <= d < |next.chunks| && next.chunks[d].status == Completed ensures HasFirstShare(next.chunks[d], d, next.shares) {
      if d == c {
        assert ChunkOk(cfg, db.tasks, db.chunks[c]);
        assert IsFirstShare(next.chunks[c], c, next.shares[|db.shares|]);
      } else {
        FirstShareKept(db.chunks[d], d, db.shares, next.shares);
      }
    }
  }

  lemma CompleteSums(cfg: Config, db: Db, w: string, c: nat, segment: string, ms: int, now: int)
    requires SumsOk(cfg, db.tasks, db.chunks, db.shares) && ChunksOk(cfg, db.tasks, db.chunks)
    requires c < |db.chunks| && db.chunks[c].status != Completed
    ensures var next := DoComplete(db, w, c, segment, ms, now); SumsOk(cfg, next.tasks, next.chunks, next.shares)
  {
    var next := DoComplete(db, w, c, segment, ms, now);
    assert ChunkOk(cfg, db.tasks, db.chunks[c]);
    forall t | 0 <= t < |next.tasks| && !IsRaceTask(cfg, next.tasks[t], next.chunks, t)
      ensures ShareUnits(next.shares, t) == DoneUnits(next.chunks, t)
    {
      RaceKept(cfg, db.tasks[t], next.tasks[t], db.chunks, next.chunks, t);
      DoneUnitsUpdate(db.chunks, c, next.chunks[c], t);
      if w in db.workers { ShareUnitsAppend(db.shares, next.shares[|db.shares|], t); }
    }
  }

  // ----- late race credit

  /** A worker without a share of a completed chunk is not the one who completed it. */
  lemma LateIsNotWinner(cfg: Config, db: Db, w: string, c: nat, clock: int)
    requires FirstShares(db.chunks, db.shares) && SharesOk(cfg, db.tasks, db.chunks, db.shares, clock)
    requires CanCreditLate(db, w, c)
    ensures db.chunks[c].worker != Some(w)
    ensures forall i :: 0 <= i < |db.shares| && db.shares[i].chunk == c ==> db.shares[i].worker != w
  {
    assert HasFirstShare(db.chunks[c], c, db.shares);
    forall i | 0 <= i < |db.shares| && db.shares[i].chunk == c ensures db.shares[i].worker != w {
      assert ShareOk(cfg, db.tasks, db.chunks, clock, db.shares[i]);
    }
  }

  lemma LateKeeps(cfg: Config, db: Db, w: string, c: nat, units: int, stamp: int, clock: int, now: int)
    requires DbOk(cfg, db, clock) && clock < now
    requires CanCreditLate(db, w, c) && 1 <= units <= db.chunks[c].units
    requires IsFullRace(cfg, db.chunks[c], db.tasks[db.chunks[c].task])
    requires db.tasks[db.chunks[c].task].createdAt < stamp < now
    ensures DbOk(cfg, DoCreditLate(db, w, c, units, stamp), now)
  {
    var next := DoCreditLate(db, w, c, units, stamp);
    TasksLater(db.tasks, clock, now);
    LateShares(cfg, db, w, c, units, stamp, clock, now);
    forall d | 0 <= d < |next.chunks| && next.chunks[d].status == Completed ensures HasFirstShare(next.chunks[d], d, next.shares) {
      FirstShareKept(db.chunks[d], d, db.shares, next.shares);
    }
    LateSums(cfg, db, w, c, units, stamp);
  }

  lemma LateShares(cfg: Config, db: Db, w: string, c: nat, units: int, stamp: int, clock: int, now: int)
    requires TasksOk(db.tasks, clock) && ChunksOk(cfg, db.tasks, db.chunks) && FirstShares(db.chunks, db.shares)
    requires SharesOk(cfg, db.tasks, db.chunks, db.shares, clock) && UniformCredit(db.shares) && OnePerWorker(db.shares)
    requires CanCreditLate(db, w, c) && 1 <= units <= db.chunks[c].units && clock < now
    requires IsFullRace(cfg, db.chunks[c], db.tasks[db.chunks[c].task])
    requires db.tasks[db.chunks[c].task].createdAt < stamp < now
    ensures var next := DoCreditLate(db, w, c, units, stamp);
            SharesOk(cfg, next.tasks, next.chunks, next.shares, now) && UniformCredit(next.shares) && OnePerWorker(next.shares)
  {
    var next := DoCreditLate(db, w, c, units, stamp);
    var t := db.chunks[c].task;
    LateIsNotWinner(cfg, db, w, c, clock);
    assert ChunkOk(cfg, db.tasks, db.chunks[c]);
    assert TaskOk(db.tasks[t], clock);
    forall i | 0 <= i < |next.shares| ensures ShareOk(cfg, next.tasks, next.chunks, now, next.shares[i]) {
      if i < |db.shares| {
        assert ShareOk(cfg, db.tasks, db.chunks, clock, db.shares[i]);
      }
    }
    forall i | 0 <= i < |db.shares| && db.shares[i].task == t ensures !db.shares[i].credited {
      assert ShareOk(cfg, db.tasks, db.chunks, clock, db.shares[i]);
    }
  }

  lemma LateSums(cfg: Config, db: Db, w: string, c: nat, units: int, stamp: int)
    requires SumsOk(cfg, db.tasks, db.chunks, db.shares)
    requires CanCreditLate(db, w, c) && IsFullRace(cfg, db.chunks[c], db.tasks[db.chunks[c].task])
    ensures var next := DoCreditLate(db, w, c, units, stamp); SumsOk(cfg, next.tasks, next.chunks, next.shares)
  {
    var next := DoCreditLate(db, w, c, units, stamp);
    forall u | 0 <= u < |next.tasks| && !IsRaceTask(cfg, next.tasks[u], next.chunks, u)
      ensures ShareUnits(next.shares, u) == DoneUnits(next.chunks, u)
    {
      ShareUnitsAppend(db.shares, next.shares[|db.shares|], u);
    }
  }

  // ----- edits of one task row

  /** One task row changes and, for `credit`, all its shares are credited. */
  predicate IsTaskEdit(a: Db, b: Db, t: nat, task: Task, credit: bool)
    requires t < |a.tasks|
  {
    && b.tasks == a.tasks[t := task] && b.chunks == a.chunks
    && b.shares == if credit then Credit(a.shares, t) else a.shares
  }

  /** The row changes the source makes: a status that moves on, a completion time that is set once. */
  predicate IsProgress(a: Task, b: Task, credit: bool, clock: int, now: int)
  {
    && SameOrigin(a, b)
    && TaskOk(b, now)
    && (a.completedAt.Some? ==> b.completedAt == a.completedAt)
    && (b.completedAt.Some? && a.completedAt.None? ==> clock < b.completedAt.value)
    && (if credit then b.reply.Some?
        else (b.reply.None? ==> a.reply.None?)
             && (b.reply.Some? && b.status != Rejected ==> a.reply.Some? && a.status != Rejected))
    && (IsBusy(b.status) ==> IsBusy(a.status))
  }

  lemma TaskEditKeeps(cfg: Config, a: Db, b: Db, t: nat, task: Task, credit: bool, clock: int, now: int)
    requires DbOk(cfg, a, clock) && clock < now
    requires t < |a.tasks| && IsTaskEdit(a, b, t, task, credit) && IsProgress(a.tasks[t], task, credit, clock, now)
    requires AllDone(a.chunks, t)
    ensures DbOk(cfg, b, now)
  {
    TaskEditTasks(cfg, a, b, t, task, credit, clock, now);
    TaskEditShares(cfg, a, b, t, task, credit, clock, now);
    forall c | 0 <= c < |b.chunks| && b.chunks[c].status == Completed ensures HasFirstShare(b.chunks[c], c, b.shares) {
      FirstShareKept(a.chunks[c], c, a.shares, b.shares);
    }
    TaskEditSums(cfg, a, b, t, task, credit);
  }

  lemma TaskEditTasks(cfg: Config, a: Db, b: Db, t: nat, task: Task, credit: bool, clock: int, now: int)
    requires TasksOk(a.tasks, clock) && OrderOk(a.tasks) && NamesOk(a.tasks) && clock < now
    requires ChunksOk(cfg, a.tasks, a.chunks) && TilesOk(a.tasks, a.chunks) && DoneOk(a.tasks, a.chunks)
    requires t < |a.tasks| && IsTaskEdit(a, b, t, task, credit) && IsProgress(a.tasks[t], task, credit, clock, now)
    requires AllDone(a.chunks, t)
    ensures TasksOk(b.tasks, now) && OrderOk(b.tasks) && NamesOk(b.tasks)
    ensures ChunksOk(cfg, b.tasks, b.chunks) && TilesOk(b.tasks, b.chunks) && DoneOk(b.tasks, b.chunks)
  {
    TasksLater(a.tasks, clock, now);
    forall c | 0 <= c < |b.chunks| ensures ChunkOk(cfg, b.tasks, b.chunks[c]) {
      assert ChunkOk(cfg, a.tasks, a.chunks[c]);
    }
  }

  lemma TaskEditShares(cfg: Config, a: Db, b: Db, t: nat, task: Task, credit: bool, clock: int, now: int)
    requires SharesOk(cfg, a.tasks, a.chunks, a.shares, clock) && UniformCredit(a.shares) && OnePerWorker(a.shares) && clock < now
    requires t < |a.tasks| && IsTaskEdit(a, b, t, task, credit) && IsProgress(a.tasks[t], task, credit, clock, now)
    ensures SharesOk(cfg, b.tasks, b.chunks, b.shares, now) && UniformCredit(b.shares) && OnePerWorker(b.shares)
  {
    hide IsFullRace, SharesOk;
    forall i | 0 <= i < |b.shares| ensures ShareOk(cfg, b.tasks, b.chunks, now, b.shares[i]) {
      ShareRow(cfg, a.tasks, a.chunks, a.shares, clock, i);
      if a.shares[i].task == t {
        EditedShare(cfg, a, b, t, task, credit, clock, now, i);
      }
    }
    SharesFromRows(cfg, b.tasks, b.chunks, b.shares, now);
  }

  lemma ShareRow(cfg: Config, tasks: seq<Task>, chunks: seq<Chunk>, shares: seq<Share>, clock: int, i: nat)
    requires SharesOk(cfg, tasks, chunks, shares, clock) && i < |shares|
    ensures ShareOk(cfg, tasks, chunks, clock, shares[i])
  {
  }

  lemma SharesFromRows(cfg: Config, tasks: seq<Task>, chunks: seq<Chunk>, shares: seq<Share>, clock: int)
    requires forall i :: 0 <= i < |shares| ==> ShareOk(cfg, tasks, chunks, clock, shares[i])
    ensures SharesOk(cfg, tasks, chunks, shares, clock)
  {
  }

  /** A share of the edited task. */
  lemma EditedShare(cfg: Config, a: Db, b: Db, t: nat, task: Task, credit: bool, clock: int, now: int, i: nat)
    requires t < |a.tasks| && IsTaskEdit(a, b, t, task, credit) && IsProgress(a.tasks[t], task, credit, clock, now) && clock < now
    requires i < |a.shares| && a.shares[i].task == t && ShareOk(cfg, a.tasks, a.chunks, clock, a.shares[i])
    ensures ShareOk(cfg, b.tasks, b.chunks, now, b.shares[i])
  {
    assert IsFullRace(cfg, a.chunks[a.shares[i].chunk], a.tasks[t]) == IsFullRace(cfg, a.chunks[a.shares[i].chunk], task);
  }

  lemma TaskEditSums(cfg: Config, a: Db, b: Db, t: nat, task: Task, credit: bool)
    requires SumsOk(cfg, a.tasks, a.chunks, a.shares)
    requires t < |a.tasks| && IsTaskEdit(a, b, t, task, credit) && SameOrigin(a.tasks[t], task)
    ensures SumsOk(cfg, b.tasks, b.chunks, b.shares)
  {
    forall u | 0 <= u < |b.tasks| && !IsRaceTask(cfg, b.tasks[u], b.chunks, u)
      ensures ShareUnits(b.shares, u) == DoneUnits(b.chunks, u)
    {
      RaceKept(cfg, a.tasks[u], b.tasks[u], a.chunks, b.chunks, u);
      ShareUnitsFrame(a.shares, b.shares, u);
    }
  }

  // ----- a new task

  lemma CreateKeeps(cfg: Config, db: Db, o: Offer, stamp: int, cutoff: int, clock: int, now: int)
    requires DbOk(cfg, db, clock) && clock < now
    requires 0 < stamp < now
    requires forall t :: 0 <= t < |db.tasks| ==> db.tasks[t].completedAt.Some? && db.tasks[t].completedAt.value < stamp
    ensures DbOk(cfg, DoCreate(cfg, db, o, stamp, cutoff), now)
  {
    var cut := ResolveChunks(cfg, ActiveWorkers(db.workers, cutoff), o.rangeStart, o.rangeEnd);
    if cut.None? || KnownMainnetId(db, o.mainnetId) {
      OpenEditKeeps(cfg, db, db, clock, now);
    } else {
      var task := Task(o.mainnetId, Gathering, o.rangeStart, o.rangeEnd, o.algorithm, o.roundHeight, None, stamp, None);
      InsertKeeps(cfg, db, DoCreate(cfg, db, o, stamp, cutoff), task, cut.value, clock, now);
    }
  }

  predicate IsInsert(a: Db, b: Db, task: Task, cut: seq<Range>)
  {
    && b.tasks == a.tasks + [task] && b.chunks == a.chunks + NewChunks(|a.tasks|, cut) && b.shares == a.shares
    && Tiles(task.rangeStart, task.rangeEnd, cut)
  }

  lemma InsertKeeps(cfg: Config, a: Db, b: Db, task: Task, cut: seq<Range>, clock: int, now: int)
    requires DbOk(cfg, a, clock) && clock < now && IsInsert(a, b, task, cut)
    requires TaskOk(task, now) && task.status == Gathering
    requires forall t :: 0 <= t < |a.tasks| ==> a.tasks[t].mainnetId != task.mainnetId
    requires forall t :: 0 <= t < |a.tasks| ==> a.tasks[t].completedAt.Some? && a.tasks[t].completedAt.value < task.createdAt
    ensures DbOk(cfg, b, now)
  {
    TasksLater(a.tasks, clock, now);
    InsertChunks(cfg, a, b, task, cut);
    InsertTiles(cfg, a, b, task, cut);
    forall i | 0 <= i < |b.shares| ensures ShareOk(cfg, b.tasks, b.chunks, now, b.shares[i]) {
      assert ShareOk(cfg, a.tasks, a.chunks, clock, a.shares[i]);
    }
    InsertSums(cfg, a, b, task, cut, clock);
  }

  lemma InsertChunks(cfg: Config, a: Db, b: Db, task: Task, cut: seq<Range>)
    requires ChunksOk(cfg, a.tasks, a.chunks) && DoneOk(a.tasks, a.chunks) && FirstShares(a.chunks, a.shares)
    requires IsInsert(a, b, task, cut) && task.status == Gathering
    ensures ChunksOk(cfg, b.tasks, b.chunks) && DoneOk(b.tasks, b.chunks) && FirstShares(b.chunks, b.shares)
  {
    var batch := NewChunks(|a.tasks|, cut);
    TilesAscend(task.rangeStart, task.rangeEnd, cut);
    forall c | 0 <= c < |b.chunks| ensures ChunkOk(cfg, b.tasks, b.chunks[c]) {
      if c < |a.chunks| {
        assert ChunkOk(cfg, a.tasks, a.chunks[c]);
      } else {
        assert b.chunks[c] == batch[c - |a.chunks|];
      }
    }
    forall t | 0 <= t < |b.tasks| && b.tasks[t].status != Gathering ensures AllDone(b.chunks, t) {
      assert AllDone(a.chunks, t);
    }
    forall c | |a.chunks| <= c < |b.chunks| ensures b.chunks[c].status == Pending {
      assert b.chunks[c] == batch[c - |a.chunks|];
    }
    forall c | 0 <= c < |b.chunks| && b.chunks[c].status == Completed ensures HasFirstShare(b.chunks[c], c, b.shares) {
      assert HasFirstShare(a.chunks[c], c, a.shares);
    }
  }

  /** A task row that does not exist yet has no chunks. */
  lemma NoRowsYet(cfg: Config, tasks: seq<Task>, chunks: seq<Chunk>)
    requires ChunksOk(cfg, tasks, chunks)
    ensures RowsOf(chunks, |tasks|) == []
    ensures forall c :: 0 <= c < |chunks| ==> chunks[c].task != |tasks|
  {
    forall c | 0 <= c < |chunks| ensures chunks[c].task != |tasks| {
      assert ChunkOk(cfg, tasks, chunks[c]);
    }
    RowsOfNone(chunks, |tasks|);
  }

  lemma InsertTiles(cfg: Config, a: Db, b: Db, task: Task, cut: seq<Range>)
    requires ChunksOk(cfg, a.tasks, a.chunks) && TilesOk(a.tasks, a.chunks)
    requires IsInsert(a, b, task, cut)
    ensures TilesOk(b.tasks, b.chunks)
  {
    var n := |a.tasks|;
    var batch := NewChunks(n, cut);
    NoRowsYet(cfg, a.tasks, a.chunks);
    forall t | 0 <= t < |b.tasks|
      ensures Tiles(b.tasks[t].rangeStart, b.tasks[t].rangeEnd, RowRanges(RowsOf(b.chunks, t)))
    {
      RowsAppend(a.chunks, batch, t);
      RowsOfBatch(batch, n, t);
      if t == n {
        assert RowsOf(b.chunks, n) == batch;
        assert RowRanges(batch) == cut;
      } else {
        assert RowsOf(b.chunks, t) == RowsOf(a.chunks, t);
      }
    }
  }

  lemma InsertSums(cfg: Config, a: Db, b: Db, task: Task, cut: seq<Range>, clock: int)
    requires ChunksOk(cfg, a.tasks, a.chunks) && SharesOk(cfg, a.tasks, a.chunks, a.shares, clock)
    requires SumsOk(cfg, a.tasks, a.chunks, a.shares)
    requires IsInsert(a, b, task, cut)
    ensures SumsOk(cfg, b.tasks, b.chunks, b.shares)
  {
    var n := |a.tasks|;
    NoRowsYet(cfg, a.tasks, a.chunks);
    forall t | 0 <= t < |b.tasks| && !IsRaceTask(cfg, b.tasks[t], b.chunks, t)
      ensures ShareUnits(b.shares, t) == DoneUnits(b.chunks, t)
    {
      DoneUnitsAppend(a.chunks, NewChunks(n, cut), t);
      if t == n {
        forall i | 0 <= i < |a.shares| ensures a.shares[i].task != n { assert ShareOk(cfg, a.tasks, a.chunks, clock, a.shares[i]); }
        ShareUnitsNone(a.shares, n);
        DoneUnitsNone(a.chunks, n);
      } else {
        RaceKept(cfg, a.tasks[t], b.tasks[t], a.chunks, b.chunks, t);
      }
    }
  }
}
