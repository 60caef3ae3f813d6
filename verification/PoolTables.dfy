/** The pool database and the effect of every locked block on it.
    Rows sit in insertion order and a row's id is its position, so ids are fresh and never reused. */
module PoolTables {
  import opened Prelude
  import opened PoolRanges

  // ----- rows

  datatype TaskStatus =
    | Active | Gathering | Submitting
    | Submitted | ValidationPending | Unsettled
    | Accepted | Rejected | Lost | Failed | Expired | Stale

  /** A mainnet block; `reward` is None when the reply carries no number. */
  datatype Block = Block(taskId: string, height: Option<int>, reward: Option<real>)

  /** The stored reveal reply; `block` is None when it is not an object. */
  datatype RevealReply = RevealReply(accepted: bool, status: string, block: Option<Block>)

  datatype Task = Task(
    mainnetId: string, status: TaskStatus, rangeStart: int, rangeEnd: int, algorithm: string,
    roundHeight: Option<int>, reply: Option<RevealReply>, createdAt: int, completedAt: Option<int>)

  datatype ChunkStatus = Pending | Assigned | Completed

  datatype Chunk = Chunk(
    task: nat, worker: Option<string>, status: ChunkStatus, rangeStart: int, rangeEnd: int,
    segment: Option<string>, computeMs: int, assignedAt: Option<int>, units: int)

  datatype Share = Share(worker: string, task: nat, chunk: nat, units: int, credited: bool, createdAt: int)

  datatype PoolWorker = PoolWorker(payout: Option<string>, lastSeen: int)

  datatype Db = Db(tasks: seq<Task>, chunks: seq<Chunk>, shares: seq<Share>, workers: map<string, PoolWorker>)

  // ----- configuration

  datatype ChunkMode = Fixed(size: int) | HybridRace | Auto

  /** `digit` stands for the pool's own computation of one position of the expansion. */
  datatype Config = Config(
    mode: ChunkMode, verify: bool, requirePayout: bool, speculative: bool, digit: (string, int) -> char)

  /** The text a correct worker computes for lo..hi. */
  function TrueSegment(cfg: Config, algorithm: string, lo: int, hi: int): (s: string)
    ensures |s| == Max(0, hi - lo + 1)
    ensures forall i :: 0 <= i < |s| ==> s[i] == cfg.digit(algorithm, lo + i)
  {
    seq(Max(0, hi - lo + 1), i => cfg.digit(algorithm, lo + i))
  }

  // ----- queries

  predicate IsOpen(s: TaskStatus) { s == Gathering || s == Active }

  /** Statuses that keep the coordinator from asking mainnet for another task. */
  predicate IsBusy(s: TaskStatus) { s == Gathering || s == Active || s == Submitting }

  predicate AllDone(chunks: seq<Chunk>, t: nat)
  {
    forall c :: 0 <= c < |chunks| && chunks[c].task == t ==> chunks[c].status == Completed
  }

  predicate AnyBusy(db: Db)
  {
    exists t :: 0 <= t < |db.tasks| && IsBusy(db.tasks[t].status)
  }

  predicate ReadyToFinalize(db: Db, t: nat)
  {
    t < |db.tasks| && db.tasks[t].status == Gathering && AllDone(db.chunks, t)
  }

  /** The chunk rows of one task, in table order. */
  function RowsOf(chunks: seq<Chunk>, t: nat): seq<Chunk>
  {
    if chunks == [] then []
    else
      var last := chunks[|chunks| - 1];
      RowsOf(chunks[..|chunks| - 1], t) + if last.task == t then [last] else []
  }

  /** A chunk row as the reassembly sees it; an empty segment column reads as the text None. */
  function PieceOf(c: Chunk): Piece
  {
    Piece(c.rangeStart, c.rangeEnd, if c.segment.Some? then c.segment.value else "None")
  }

  function PiecesOf(rows: seq<Chunk>): (ps: seq<Piece>)
    ensures |ps| == |rows|
    ensures forall i :: 0 <= i < |rows| ==> ps[i] == PieceOf(rows[i])
  {
    seq(|rows|, i requires 0 <= i < |rows| => PieceOf(rows[i]))
  }

  // ----- workers

  function Touch(workers: map<string, PoolWorker>, w: string, now: int): map<string, PoolWorker>
  {
    if w in workers then workers[w := workers[w].(lastSeen := now)] else workers
  }

  function ActiveWorkers(workers: map<string, PoolWorker>, cutoff: int): int
  {
    Max(1, |set w | w in workers && workers[w].lastSeen >= cutoff|)
  }

  function DoRegister(db: Db, w: string, payout: Option<string>, now: int): Db
  {
    var kept := if w in db.workers && db.workers[w].payout.Some? then db.workers[w].payout else payout;
    db.(workers := db.workers[w := PoolWorker(kept, now)])
  }

  // ----- claiming

  predicate ClaimRefused(cfg: Config, db: Db, w: string)
  {
    w == "" || (cfg.requirePayout && (w in db.workers ==> db.workers[w].payout.None?))
  }

  /** A chunk that the first query of a claim may return. */
  predicate Claimable(db: Db, c: nat, status: ChunkStatus)
  {
    && c < |db.chunks|
    && db.chunks[c].status == status
    && db.chunks[c].task < |db.tasks|
    && IsOpen(db.tasks[db.chunks[c].task].status)
  }

  /** Sort key of the speculative query: other workers' chunks first, then the oldest assignment. */
  predicate SpeculativeBefore(w: string, a: Chunk, b: Chunk)
  {
    var ownA := if a.worker == Some(w) then 1 else 0;
    var ownB := if b.worker == Some(w) then 1 else 0;
    var atA := if a.assignedAt.Some? then a.assignedAt.value else 0;
    var atB := if b.assignedAt.Some? then b.assignedAt.value else 0;
    ownA < ownB || (ownA == ownB && atA <= atB)
  }

  predicate IsPrimaryChoice(db: Db, c: nat)
  {
    && Claimable(db, c, Pending)
    && forall d :: 0 <= d < |db.chunks| && Claimable(db, d, Pending) ==> db.chunks[c].rangeStart <= db.chunks[d].rangeStart
  }

  predicate IsSpeculativeChoice(db: Db, w: string, c: nat)
  {
    && Claimable(db, c, Assigned)
    && forall d :: 0 <= d < |db.chunks| && Claimable(db, d, Assigned) ==> SpeculativeBefore(w, db.chunks[c], db.chunks[d])
  }

  /** The rows the two claim queries may return; ties are broken at random. */
  predicate IsClaim(cfg: Config, db: Db, w: string, choice: Option<nat>)
  {
    if exists c :: 0 <= c < |db.chunks| && Claimable(db, c, Pending) then
      choice.Some? && IsPrimaryChoice(db, choice.value)
    else if cfg.speculative && exists c :: 0 <= c < |db.chunks| && Claimable(db, c, Assigned) then
      choice.Some? && IsSpeculativeChoice(db, w, choice.value)
    else choice.None?
  }

  function DoClaim(db: Db, w: string, choice: Option<nat>, now: int): Db
    requires choice.Some? ==> choice.value < |db.chunks|
  {
    var seen := if w in db.workers then Touch(db.workers, w, now) else db.workers[w := PoolWorker(None, now)];
    if choice.None? then db.(workers := seen)
    else
      var c := choice.value;
      db.(workers := seen,
          chunks := db.chunks[c := db.chunks[c].(status := Assigned, worker := Some(w), assignedAt := Some(now))])
  }

  // ----- submitting

  predicate IsFullRace(cfg: Config, c: Chunk, t: Task)
  {
    && cfg.mode.HybridRace?
    && c.rangeStart == t.rangeStart && c.rangeEnd == t.rangeEnd
    && c.units == t.rangeEnd - t.rangeStart + 1
  }

  /** Time-weighted credit of a worker that finished after the winner of a full-task race. */
  function RaceCredit(units: int, winnerMs: int, workerMs: int): int
  {
    var winner, worker, size := Max(1, winnerMs), Max(1, workerMs), Max(1, units);
    Max(0, Min(size, (size * winner) / worker))
  }

  lemma ProductsOrder(x: int, y: int, a: int)
    requires a >= 1 && x * a < y * a
    ensures x < y
  {
    assert y <= x ==> y * a <= x * a;
  }

  lemma DivBounds(total: int, b: int)
    requires b >= 1 && total >= 0
    ensures var q := total / b; q >= 0 && q * b <= total < (q + 1) * b && (q == 0 <==> total < b)
  {
    var q := total / b;
    assert total == b * q + total % b;
  }

  lemma ScaleOrder(x: int, a: int, b: int)
    requires x >= 0 && a <= b
    ensures x * a <= x * b
  {
  }

  /** With times of at least 1 a late worker gets its share of the winner's speed: all units when it was as fast, otherwise
      the units times the winner's time by its own, cut to whole units. */
  lemma RaceCreditIs(units: int, winnerMs: int, workerMs: int)
    requires units >= 1
    ensures var winner, worker, credit := Max(1, winnerMs), Max(1, workerMs), RaceCredit(units, winnerMs, workerMs);
            && (if worker <= winner then credit == units else 0 <= credit && credit * worker <= units * winner < (credit + 1) * worker)
            && (credit <= 0 <==> units * winner < worker)
  {
    var winner, worker := Max(1, winnerMs), Max(1, workerMs);
    var total := units * winner;
    var q := total / worker;
    DivBounds(total, worker);
    if worker <= winner {
      ScaleOrder(units, worker, winner);
      ProductsOrder(units, q + 1, worker);
    } else {
      ScaleOrder(units, winner, worker);
      assert (units + 1) * worker == units * worker + worker;
      ProductsOrder(q, units + 1, worker);
    }
  }

  /** What a submit decides from the rows it read, before it takes the lock again. */
  datatype SubmitPlan = WrongLength | TooLate | TooSlow | CreditLate(units: int) | Invalid | Complete

  function PlanSubmit(cfg: Config, row: Chunk, task: Task, segment: string, ms: int): SubmitPlan
  {
    if |segment| != row.rangeEnd - row.rangeStart + 1 then WrongLength
    else if row.status == Completed then
      if !IsFullRace(cfg, row, task) || !(task.status == Gathering || task.status == Submitting) then TooLate
      else
        var credit := RaceCredit(row.units, row.computeMs, ms);
        if credit <= 0 then TooSlow else CreditLate(credit)
    else if !IsOpen(task.status) then TooLate
    else if cfg.verify && segment != TrueSegment(cfg, task.algorithm, row.rangeStart, row.rangeEnd) then Invalid
    else Complete
  }

  /** Completes a chunk that is still open and records its share; otherwise changes nothing.
      The chunk's worker must be a row of the workers table: the foreign key refuses anyone else. */
  function DoComplete(db: Db, w: string, c: nat, segment: string, ms: int, now: int): Db
    requires c < |db.chunks|
  {
    var row := db.chunks[c];
    if row.status == Completed || w !in db.workers then db
    else
      var done := row.(status := Completed, worker := Some(w), segment := Some(segment), computeMs := Max(0, ms));
      db.(chunks := db.chunks[c := done],
          shares := db.shares + [Share(w, row.task, c, row.rangeEnd - row.rangeStart + 1, false, now)],
          workers := Touch(db.workers, w, now))
  }

  function Reopened(c: Chunk): Chunk { c.(status := Pending, worker := None, assignedAt := None) }

  /** A segment that failed verification puts its chunk back unless someone completed it meanwhile. */
  function DoReset(db: Db, c: nat): Db
    requires c < |db.chunks|
  {
    if db.chunks[c].status == Completed then db
    else db.(chunks := db.chunks[c := Reopened(db.chunks[c])])
  }

  predicate HasShare(shares: seq<Share>, t: nat, c: nat, w: string)
  {
    exists i :: 0 <= i < |shares| && shares[i].task == t && shares[i].chunk == c && shares[i].worker == w
  }

  predicate CanCreditLate(db: Db, w: string, c: nat)
  {
    && c < |db.chunks| && db.chunks[c].task < |db.tasks|
    && db.chunks[c].status == Completed
    && (db.tasks[db.chunks[c].task].status == Gathering || db.tasks[db.chunks[c].task].status == Submitting)
    && !HasShare(db.shares, db.chunks[c].task, c, w)
  }

  function DoCreditLate(db: Db, w: string, c: nat, units: int, stamp: int): Db
    requires c < |db.chunks|
  {
    if CanCreditLate(db, w, c) then
      db.(shares := db.shares + [Share(w, db.chunks[c].task, c, units, false, stamp)],
          workers := Touch(db.workers, w, stamp))
    else db
  }

  // ----- expiry

  predicate Overdue(c: Chunk, cutoff: int)
  {
    c.status == Assigned && (if c.assignedAt.Some? then c.assignedAt.value else 0) < cutoff
  }

  function DoExpire(db: Db, cutoff: int): (r: Db)
    ensures |r.chunks| == |db.chunks|
    ensures forall i :: 0 <= i < |db.chunks| ==>
              r.chunks[i] == if Overdue(db.chunks[i], cutoff) then Reopened(db.chunks[i]) else db.chunks[i]
  {
    db.(chunks := seq(|db.chunks|, i requires 0 <= i < |db.chunks| =>
          if Overdue(db.chunks[i], cutoff) then Reopened(db.chunks[i]) else db.chunks[i]))
  }

  // ----- new tasks

  /** A task offered by mainnet. */
  datatype Offer = Offer(mainnetId: string, rangeStart: int, rangeEnd: int, algorithm: string, roundHeight: Option<int>)

  /** How a task range is cut; None stands for the error that aborts the tick. */
  function ResolveChunks(cfg: Config, active: int, lo: int, hi: int): (r: Option<seq<Range>>)
    ensures r.Some? ==> lo <= hi && Tiles(lo, hi, r.value) && r.value != []
  {
    if hi < lo then None
    else if cfg.mode.Fixed? then
      FixedChunksTile(lo, hi, Max(1, cfg.mode.size));
      if lo < 1 then None else Some(FixedChunks(lo, hi, Max(1, cfg.mode.size)))
    else if cfg.mode.HybridRace? && hi - lo + 1 > active then
      assert [Range(lo, hi)][1..] == [];
      Some([Range(lo, hi)])
    else
      BalancedChunksTile(lo, hi, hi - lo + 1);
      if lo < 1 then None else Some(BalancedChunks(lo, hi, hi - lo + 1))
  }

  /** When a range is cut, and into what: one chunk for a full-task race, chunks of the configured size, or single units. */
  lemma ResolvedChunks(cfg: Config, active: int, lo: int, hi: int)
    ensures var r, race := ResolveChunks(cfg, active, lo, hi), cfg.mode.HybridRace? && hi - lo + 1 > active;
            && (r.Some? <==> lo <= hi && (lo >= 1 || race))
            && (r.Some? && race ==> r.value == [Range(lo, hi)])
            && (r.Some? && cfg.mode.Fixed? ==> forall i :: 0 <= i < |r.value| - 1 ==> r.value[i].Units() == Max(1, cfg.mode.size))
            && (r.Some? && !race && !cfg.mode.Fixed? ==> forall i :: 0 <= i < |r.value| ==> r.value[i].Units() == 1)
  {
    if lo <= hi {
      if cfg.mode.Fixed? {
        var rs := FixedChunks(lo, hi, Max(1, cfg.mode.size));
        forall i | 0 <= i < |rs| - 1 ensures rs[i].Units() == Max(1, cfg.mode.size) {
          FixedChunkSizes(lo, hi, Max(1, cfg.mode.size), i);
        }
      } else {
        var rs := BalancedChunks(lo, hi, hi - lo + 1);
        BalancedChunksTile(lo, hi, hi - lo + 1);
        TilesUnits(lo, hi, rs);
        AtLeastOneEach(lo, hi, rs);
      }
    }
  }

  function NewChunk(t: nat, r: Range): Chunk
  {
    Chunk(t, None, Pending, r.start, r.end, None, 0, None, r.Units())
  }

  function NewChunks(t: nat, rs: seq<Range>): (cs: seq<Chunk>)
    ensures |cs| == |rs|
    ensures forall i :: 0 <= i < |rs| ==> cs[i] == NewChunk(t, rs[i])
  {
    seq(|rs|, i requires 0 <= i < |rs| => NewChunk(t, rs[i]))
  }

  predicate KnownMainnetId(db: Db, id: string)
  {
    exists t :: 0 <= t < |db.tasks| && db.tasks[t].mainnetId == id
  }

  /** Adds the task and its chunks; a task id already in the table changes nothing. */
  function DoCreate(cfg: Config, db: Db, o: Offer, stamp: int, cutoff: int): Db
  {
    var cut := ResolveChunks(cfg, ActiveWorkers(db.workers, cutoff), o.rangeStart, o.rangeEnd);
    if cut.None? || KnownMainnetId(db, o.mainnetId) then db
    else
      var task := Task(o.mainnetId, Gathering, o.rangeStart, o.rangeEnd, o.algorithm, o.roundHeight, None, stamp, None);
      db.(tasks := db.tasks + [task], chunks := db.chunks + NewChunks(|db.tasks|, cut.value))
  }

  // ----- finalizing

  /** Compare-and-set from gathering to submitting. */
  function DoBeginSubmit(db: Db, t: nat): Db
    requires t < |db.tasks|
  {
    if db.tasks[t].status == Gathering then db.(tasks := db.tasks[t := db.tasks[t].(status := Submitting)]) else db
  }

  predicate IsCredited(r: RevealReply) { r.accepted || r.status == "validation_pending" }

  function RevealOutcome(r: RevealReply): TaskStatus
  {
    if r.status == "validation_pending" && r.block.None? then ValidationPending
    else if r.accepted && r.block.Some? then Accepted
    else if r.status == "validation_pending" then ValidationPending
    else if IsCredited(r) then Submitted
    else Rejected
  }

  function Credit(shares: seq<Share>, t: nat): (r: seq<Share>)
    ensures |r| == |shares|
    ensures forall i :: 0 <= i < |shares| ==>
              r[i] == if shares[i].task == t then shares[i].(credited := true) else shares[i]
  {
    seq(|shares|, i requires 0 <= i < |shares| =>
      if shares[i].task == t then shares[i].(credited := true) else shares[i])
  }

  /** Stores the reveal reply. The update names only the task: it does not look at the status. */
  function DoFinishSubmit(db: Db, t: nat, r: RevealReply, now: int): Db
    requires t < |db.tasks|
  {
    var task := db.tasks[t].(status := RevealOutcome(r), reply := Some(r), completedAt := Some(now));
    db.(tasks := db.tasks[t := task], shares := if IsCredited(r) then Credit(db.shares, t) else db.shares)
  }

  /** Any error between the compare-and-set and the stored reply; also unguarded. */
  function DoFailSubmit(db: Db, t: nat, lost: bool, now: int): Db
    requires t < |db.tasks|
  {
    db.(tasks := db.tasks[t := db.tasks[t].(status := if lost then Lost else Failed, completedAt := Some(now))])
  }

  // ----- settlement

  predicate AwaitsMainnet(s: TaskStatus) { s == Submitted || s == ValidationPending }

  /** Rows the block reconciliation looks at. */
  predicate IsPendingSettlement(t: Task)
  {
    && t.reply.Some?
    && (t.status == Accepted || AwaitsMainnet(t.status))
    && t.reply.value.block.None?
    && (t.reply.value.status == "validation_pending" || AwaitsMainnet(t.status))
  }

  datatype Settlement = Won(block: Block) | Beaten | Undecided

  /** The last block of the reply that a lookup table keeps for a task id or a height. */
  function LastBlock(blocks: seq<Block>, p: Block -> bool): Option<Block>
  {
    if blocks == [] then None
    else if p(blocks[|blocks| - 1]) then Some(blocks[|blocks| - 1])
    else LastBlock(blocks[..|blocks| - 1], p)
  }

  function OfTask(id: string): Block -> bool { (b: Block) => b.taskId != "" && b.taskId == id }

  function AtHeight(height: Option<int>): Block -> bool { (b: Block) => b.height == height }

  function DecideSettlement(mainnetId: string, roundHeight: Option<int>, blocks: seq<Block>): Settlement
  {
    var own := LastBlock(blocks, OfTask(mainnetId));
    if own.Some? then Won(own.value)
    else if roundHeight.None? then Undecided
    else
      var winner := LastBlock(blocks, AtHeight(roundHeight));
      if winner.None? || winner.value.taskId == "" || winner.value.taskId == mainnetId then Undecided else Beaten
  }

  function Coalesce(at: Option<int>, now: int): Option<int> { if at.Some? then at else Some(now) }

  function DoSettle(db: Db, t: nat, s: Settlement, now: int): Db
    requires t < |db.tasks|
  {
    var task := db.tasks[t];
    match s
    case Won(block) =>
      if task.status == Accepted || AwaitsMainnet(task.status) then
        db.(tasks := db.tasks[t := task.(status := Accepted, completedAt := Coalesce(task.completedAt, now),
                                         reply := Some(RevealReply(true, "accepted", Some(block))))])
      else db
    case Beaten =>
      if AwaitsMainnet(task.status) then
        db.(tasks := db.tasks[t := task.(status := Lost, completedAt := Coalesce(task.completedAt, now),
                                         reply := Some(RevealReply(false, "lost", None)))])
      else db
    case Undecided => db
  }

  /** A reply of the task status endpoint. */
  datatype StatusReply = StatusReply(status: string, block: Option<Block>)

  function StatusUpdate(reply: StatusReply): Option<(TaskStatus, RevealReply)>
  {
    if reply.status == "accepted" && reply.block.Some? then Some((Accepted, RevealReply(true, "accepted", reply.block)))
    else if reply.status == "validation_pending" then Some((ValidationPending, RevealReply(true, "validation_pending", None)))
    else if reply.status == "expired" then Some((Expired, RevealReply(false, "expired", None)))
    else if reply.status == "stale" then Some((Stale, RevealReply(false, "stale", None)))
    else if reply.status == "rejected" then Some((Rejected, RevealReply(false, "rejected", None)))
    else None
  }

  function DoApplyStatus(db: Db, t: nat, reply: StatusReply, now: int): Db
    requires t < |db.tasks|
  {
    var task := db.tasks[t];
    var u := StatusUpdate(reply);
    if u.Some? && (AwaitsMainnet(task.status) || task.status == Unsettled) then
      db.(tasks := db.tasks[t := task.(status := u.value.0, reply := Some(u.value.1),
                                       completedAt := Coalesce(task.completedAt, now))])
    else db
  }
}
