/** The pool as a concurrent state machine: the database, every thread's local snapshot, and one step per locked block. */
module PoolProtocol {
  import opened Prelude
  import opened PoolRanges
  import opened PoolTables

  /** A submit between its read and its second locked block: the request and the rows it read at `readAt`. */
  datatype Submit = Submit(worker: string, chunk: nat, segment: string, ms: int, row: Chunk, task: Task, readAt: int)
  {
    function Plan(cfg: Config): SubmitPlan { PlanSubmit(cfg, row, task, segment, ms) }
  }

  /** A finalizer that won the compare-and-set: the chunk rows it read, and whether mainnet took its commit. */
  datatype Finalizer = Finalizer(task: nat, rows: seq<Chunk>, startedAt: int, committed: bool)

  /** Mainnet's answer to a commit; a refusal may say that another miner won the round. */
  datatype Verdict = Taken | Refused(lost: bool)

  /** A commit sent to mainnet. */
  datatype Commit = Commit(task: nat, text: string)

  /** What a settlement pass remembers of a task row. */
  datatype PendingRow = PendingRow(mainnetId: string, roundHeight: Option<int>)

  /** The coordinator thread. It is the only thread that creates or settles tasks. */
  datatype Tick = Idle | Ensuring(readAt: int) | Settling(pending: map<nat, PendingRow>) | Checking(rows: set<nat>)

  /** `commits` and `raceMs` are history: the commits sent so far, and the time each late race share was credited for. */
  datatype System = System(
    db: Db, clock: int,
    submits: set<Submit>, queued: multiset<nat>, finishing: set<Finalizer>, tick: Tick,
    commits: seq<Commit>, raceMs: map<nat, int>)

  function Initial(): System
  {
    System(Db([], [], [], map[]), 0, {}, multiset{}, {}, Idle, [], map[])
  }

  /** One atomic step. Every step happens at a time `now` later than all steps before it. */
  datatype Step =
    | RegisterWorker(worker: string, payout: Option<string>)
    | ClaimWork(worker: string, choice: Option<nat>)
    | ReadSubmit(worker: string, chunk: nat, segment: string, ms: int)
    | DropSubmit(submit: Submit)
    | CompleteChunk(submit: Submit)
    | ResetChunk(submit: Submit)
    | CreditRace(submit: Submit, stamp: int)
    | ExpireStale(cutoff: int)
    | QueueReady(task: nat)
    | BeginFinalize(task: nat)
    | SendCommit(finalizer: Finalizer, verdict: Verdict)
    | FinishFinalize(finalizer: Finalizer, reply: RevealReply)
    | FailFinalize(finalizer: Finalizer, lost: bool)
    | StartEnsure
    | CreateTask(offer: Offer, stamp: int, cutoff: int)
    | StartSettle
    | SettleRow(task: nat, blocks: seq<Block>)
    | StartChecking
    | CheckRow(task: nat, status: StatusReply)
    | EndTick

  function PendingRows(db: Db): map<nat, PendingRow>
  {
    map t: nat | t < |db.tasks| && IsPendingSettlement(db.tasks[t]) :: PendingRow(db.tasks[t].mainnetId, db.tasks[t].roundHeight)
  }

  function CheckableRows(db: Db): set<nat>
  {
    set t: nat | t < |db.tasks| && db.tasks[t].reply.Some?
                 && (AwaitsMainnet(db.tasks[t].status) || db.tasks[t].status == Unsettled)
  }

  function Assembled(db: Db, f: Finalizer): Result<string, AssembleError>
    requires f.task < |db.tasks|
  {
    Assemble(db.tasks[f.task].rangeStart, db.tasks[f.task].rangeEnd, PiecesOf(f.rows))
  }

  predicate Enabled(cfg: Config, s: System, now: int, step: Step)
  {
    && s.clock < now
    && match step
       case RegisterWorker(w, payout) => w != "" && (cfg.requirePayout ==> payout.Some?)
       case ClaimWork(w, choice) => !ClaimRefused(cfg, s.db, w) && IsClaim(cfg, s.db, w, choice)
       case ReadSubmit(_, c, _, _) => c < |s.db.chunks| && s.db.chunks[c].task < |s.db.tasks|
       case DropSubmit(sub) => sub in s.submits
                               && (var p := sub.Plan(cfg); p.WrongLength? || p.TooLate? || p.TooSlow?)
       case CompleteChunk(sub) => sub in s.submits && sub.Plan(cfg).Complete? && sub.chunk < |s.db.chunks|
       case ResetChunk(sub) => sub in s.submits && sub.Plan(cfg).Invalid? && sub.chunk < |s.db.chunks|
       case CreditRace(sub, stamp) => sub in s.submits && sub.Plan(cfg).CreditLate? && sub.chunk < |s.db.chunks|
                                      && sub.readAt < stamp < now
       case ExpireStale(_) => true
       case QueueReady(t) => ReadyToFinalize(s.db, t)
       case BeginFinalize(t) => t in s.queued && t < |s.db.tasks|
       case SendCommit(f, _) => f in s.finishing && !f.committed && f.task < |s.db.tasks|
       case FinishFinalize(f, _) => f in s.finishing && f.committed && f.task < |s.db.tasks|
       case FailFinalize(f, _) => f in s.finishing && f.task < |s.db.tasks|
       case StartEnsure => s.tick.Idle? && !AnyBusy(s.db)
       case CreateTask(_, stamp, _) => s.tick.Ensuring? && s.tick.readAt < stamp < now
       case StartSettle => s.tick.Idle?
       case SettleRow(t, _) => s.tick.Settling? && t in s.tick.pending && t < |s.db.tasks|
       case StartChecking => s.tick.Idle?
       case CheckRow(t, _) => s.tick.Checking? && t in s.tick.rows && t < |s.db.tasks|
       case EndTick => true
  }

  /** The second locked block of a submit, and the finalizer it schedules when its task became ready. */
  function ApplyComplete(s: System, sub: Submit, now: int): System
    requires sub.chunk < |s.db.chunks|
  {
    var db := DoComplete(s.db, sub.worker, sub.chunk, sub.segment, sub.ms, now);
    var won := s.db.chunks[sub.chunk].status != Completed && sub.worker in s.db.workers;
    s.(db := db, clock := now, submits := s.submits - {sub},
       queued := if won && ReadyToFinalize(db, sub.row.task) then s.queued + multiset{sub.row.task} else s.queued)
  }

  function ApplyCreditRace(cfg: Config, s: System, sub: Submit, stamp: int, now: int): System
    requires sub.chunk < |s.db.chunks| && sub.Plan(cfg).CreditLate?
  {
    s.(db := DoCreditLate(s.db, sub.worker, sub.chunk, sub.Plan(cfg).units, stamp), clock := now,
       submits := s.submits - {sub},
       raceMs := if CanCreditLate(s.db, sub.worker, sub.chunk) then s.raceMs[|s.db.shares| := sub.ms] else s.raceMs)
  }

  function ApplyBegin(s: System, t: nat, now: int): System
    requires t < |s.db.tasks|
  {
    var rest := s.(clock := now, queued := s.queued[t := if s.queued[t] > 0 then s.queued[t] - 1 else 0]);
    if s.db.tasks[t].status == Gathering then
      rest.(db := DoBeginSubmit(s.db, t), finishing := s.finishing + {Finalizer(t, RowsOf(s.db.chunks, t), now, false)})
    else rest
  }

  /** Reassembles and sends the commit; a failed reassembly or a refused commit ends in the error branch. */
  function ApplyCommit(s: System, f: Finalizer, verdict: Verdict, now: int): System
    requires f.task < |s.db.tasks|
  {
    match Assembled(s.db, f)
    case Failure(_) => s.(db := DoFailSubmit(s.db, f.task, false, now), clock := now, finishing := s.finishing - {f})
    case Success(text) =>
      var sent := s.(clock := now, commits := s.commits + [Commit(f.task, text)]);
      match verdict
      case Taken => sent.(finishing := s.finishing - {f} + {f.(committed := true)})
      case Refused(lost) => sent.(db := DoFailSubmit(s.db, f.task, lost, now), finishing := s.finishing - {f})
  }

  function Apply(cfg: Config, s: System, now: int, step: Step): System
    requires Enabled(cfg, s, now, step)
  {
    match step
    case RegisterWorker(w, payout) => s.(db := DoRegister(s.db, w, payout, now), clock := now)
    case ClaimWork(w, choice) => s.(db := DoClaim(s.db, w, choice, now), clock := now)
    case ReadSubmit(w, c, segment, ms) =>
      var row := s.db.chunks[c];
      s.(clock := now, submits := s.submits + {Submit(w, c, segment, ms, row, s.db.tasks[row.task], now)})
    case DropSubmit(sub) => s.(clock := now, submits := s.submits - {sub})
    case CompleteChunk(sub) => ApplyComplete(s, sub, now)
    case ResetChunk(sub) => s.(db := DoReset(s.db, sub.chunk), clock := now, submits := s.submits - {sub})
    case CreditRace(sub, stamp) => ApplyCreditRace(cfg, s, sub, stamp, now)
    case ExpireStale(cutoff) => s.(db := DoExpire(s.db, cutoff), clock := now)
    case QueueReady(t) => s.(clock := now, queued := s.queued + multiset{t})
    case BeginFinalize(t) => ApplyBegin(s, t, now)
    case SendCommit(f, verdict) => ApplyCommit(s, f, verdict, now)
    case FinishFinalize(f, reply) => s.(db := DoFinishSubmit(s.db, f.task, reply, now), clock := now, finishing := s.finishing - {f})
    case FailFinalize(f, lost) => s.(db := DoFailSubmit(s.db, f.task, lost, now), clock := now, finishing := s.finishing - {f})
    case StartEnsure => s.(clock := now, tick := Ensuring(now))
    case CreateTask(offer, stamp, cutoff) => s.(db := DoCreate(cfg, s.db, offer, stamp, cutoff), clock := now, tick := Idle)
    case StartSettle => s.(clock := now, tick := Settling(PendingRows(s.db)))
    case SettleRow(t, blocks) =>
      var row := s.tick.pending[t];
      s.(db := DoSettle(s.db, t, DecideSettlement(row.mainnetId, row.roundHeight, blocks), now), clock := now,
         tick := Settling(s.tick.pending - {t}))
    case StartChecking => s.(clock := now, tick := Checking(CheckableRows(s.db)))
    case CheckRow(t, reply) => s.(db := DoApplyStatus(s.db, t, reply, now), clock := now, tick := Checking(s.tick.rows - {t}))
    case EndTick => s.(clock := now, tick := Idle)
  }

  /** A run: the state after performing timed steps one after another from the empty database. */
  ghost predicate IsRun(cfg: Config, run: seq<System>)
  {
    && run != []
    && run[0] == Initial()
    && forall i :: 0 <= i < |run| - 1 ==> IsStep(cfg, run[i], run[i + 1])
  }

  ghost predicate IsStep(cfg: Config, s: System, next: System)
  {
    exists now: int, step: Step :: Enabled(cfg, s, now, step) && next == Apply(cfg, s, now, step)
  }
}
