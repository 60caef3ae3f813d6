/** The coordinator's locked blocks as they update the tables in place; each is tied to its effect on the database. */
module PoolCoordinator {
  import opened Prelude
  import opened PoolRanges
  import opened PoolTables
  import opened PoolProtocol
  import opened PoolInvariants
  import opened PoolSteps
  import opened PoolSafety

  datatype ClaimReply = Refused | NoWork | Work(chunk: nat)

  datatype SubmitReply = Taken | UnknownWorker | Accepted(units: int, ready: bool)

  class Coordinator {
    const config: Config
    var tasks: seq<Task>
    var chunks: seq<Chunk>
    var shares: seq<Share>
    var workers: map<string, PoolWorker>

    ghost function Tables(): Db
      reads this
    {
      Db(tasks, chunks, shares, workers)
    }

    constructor (config: Config)
      ensures this.config == config && Tables() == Initial().db
    {
      this.config := config;
      tasks, chunks, shares, workers := [], [], [], map[];
    }

    // ----- workers

    method RegisterWorker(w: string, payout: Option<string>, now: int) returns (ok: bool)
      modifies this
      ensures ok <==> w != "" && (config.requirePayout ==> payout.Some?)
      ensures Tables() == if ok then DoRegister(old(Tables()), w, payout, now) else old(Tables())
      ensures ok ==> workers.Keys == old(workers).Keys + {w} && workers[w].lastSeen == now
      ensures ok && w in old(workers) && old(workers)[w].payout.Some? ==> workers[w].payout == old(workers)[w].payout
      ensures ok && !(w in old(workers) && old(workers)[w].payout.Some?) ==> workers[w].payout == payout
      ensures forall v :: v in old(workers) && v != w ==> workers[v] == old(workers)[v]
    {
      if w == "" { return false; }
      if config.requirePayout && payout.None? { return false; }
      if w in workers {
        var kept := workers[w].payout;
        if kept.None? { kept := payout; }
        workers := workers[w := PoolWorker(kept, now)];
      } else {
        workers := workers[w := PoolWorker(payout, now)];
      }
      return true;
    }

    method TouchWorker(w: string, now: int)
      modifies this`workers
      ensures workers == Touch(old(workers), w, now)
    {
      if w in workers {
        workers := workers[w := workers[w].(lastSeen := now)];
      }
    }

    // ----- claiming

    predicate Offered(c: nat, status: ChunkStatus)
      reads this
    {
      c < |chunks| && chunks[c].status == status && chunks[c].task < |tasks| && IsOpen(tasks[chunks[c].task].status)
    }

    /** The first query of a claim: the pending chunk with the lowest start; the order among equals is open. */
    method FirstPending() returns (choice: Option<nat>)
      ensures choice.Some? ==> IsPrimaryChoice(Tables(), choice.value)
      ensures choice.None? ==> forall c :: 0 <= c < |chunks| ==> !Claimable(Tables(), c, Pending)
    {
      choice := None;
      for i := 0 to |chunks|
        invariant choice.Some? ==> choice.value < i && Claimable(Tables(), choice.value, Pending)
        invariant choice.Some? ==> forall d :: 0 <= d < i && Claimable(Tables(), d, Pending)
                                               ==> chunks[choice.value].rangeStart <= chunks[d].rangeStart
        invariant choice.None? ==> forall d :: 0 <= d < i ==> !Claimable(Tables(), d, Pending)
      {
        if Offered(i, Pending) {
          assert Claimable(Tables(), i, Pending);
          if choice.None? || chunks[i].rangeStart < chunks[choice.value].rangeStart {
            choice := Some(i);
          } else if chunks[i].rangeStart == chunks[choice.value].rangeStart {
            if * { choice := Some(i); }
          }
        }
      }
    }

    /** The second query: other workers' chunks first, the oldest assignment first, then a random one. */
    method AnyAssigned(w: string) returns (choice: Option<nat>)
      ensures choice.Some? ==> IsSpeculativeChoice(Tables(), w, choice.value)
      ensures choice.None? ==> forall c :: 0 <= c < |chunks| ==> !Claimable(Tables(), c, Assigned)
    {
      choice := None;
      for i := 0 to |chunks|
        invariant choice.Some? ==> choice.value < i && Claimable(Tables(), choice.value, Assigned)
        invariant choice.Some? ==> forall d :: 0 <= d < i && Claimable(Tables(), d, Assigned)
                                               ==> SpeculativeBefore(w, chunks[choice.value], chunks[d])
        invariant choice.None? ==> forall d :: 0 <= d < i ==> !Claimable(Tables(), d, Assigned)
      {
        if Offered(i, Assigned) {
          assert Claimable(Tables(), i, Assigned);
          if choice.None? || !SpeculativeBefore(w, chunks[choice.value], chunks[i]) {
            choice := Some(i);
          } else if SpeculativeBefore(w, chunks[i], chunks[choice.value]) {
            if * { choice := Some(i); }
          }
        }
      }
    }

    /** Both queries of a claim. */
    method ChooseChunk(w: string) returns (choice: Option<nat>)
      ensures IsClaim(config, Tables(), w, choice)
    {
      choice := FirstPending();
      if choice.None? && config.speculative {
        choice := AnyAssigned(w);
      }
    }

    /** Another worker's chunk goes before one's own, and among chunks of either kind the one assigned longer. */
    predicate OthersFirst(a: Chunk, b: Chunk, w: string)
    {
      && (a.worker == Some(w) ==> b.worker == Some(w))
      && ((a.worker == Some(w) <==> b.worker == Some(w)) ==>
            (if a.assignedAt.Some? then a.assignedAt.value else 0) <= (if b.assignedAt.Some? then b.assignedAt.value else 0))
    }

    method ClaimWork(w: string, now: int) returns (reply: ClaimReply)
      modifies this
      ensures reply.Refused? <==> ClaimRefused(config, old(Tables()), w)
      ensures reply.Refused? ==> Tables() == old(Tables())
      ensures !reply.Refused? ==>
                var choice := if reply.Work? then Some(reply.chunk) else None;
                IsClaim(config, old(Tables()), w, choice) && Tables() == DoClaim(old(Tables()), w, choice, now)
      ensures reply.Refused? <==> w == "" || (config.requirePayout && !(w in old(workers) && old(workers)[w].payout.Some?))
      ensures !reply.Refused? ==> w in workers && workers[w].lastSeen == now && tasks == old(tasks) && shares == old(shares)
      ensures reply.Work? ==>
                && reply.chunk < |old(chunks)|
                && chunks == old(chunks)[reply.chunk := old(chunks)[reply.chunk].(status := Assigned, worker := Some(w), assignedAt := Some(now))]
                && (if old(chunks)[reply.chunk].status == Pending then
                      forall d :: 0 <= d < |old(chunks)| && Claimable(old(Tables()), d, Pending)
                                  ==> old(chunks)[reply.chunk].rangeStart <= old(chunks)[d].rangeStart
                    else
                      && config.speculative && old(chunks)[reply.chunk].status == Assigned
                      && (forall d :: 0 <= d < |old(chunks)| ==> !Claimable(old(Tables()), d, Pending))
                      && (forall d :: 0 <= d < |old(chunks)| && Claimable(old(Tables()), d, Assigned)
                                      ==> OthersFirst(old(chunks)[reply.chunk], old(chunks)[d], w)))
      ensures !reply.Work? ==> chunks == old(chunks)
      ensures reply.NoWork? ==> forall d :: 0 <= d < |chunks| ==>
                !Claimable(old(Tables()), d, Pending) && (config.speculative ==> !Claimable(old(Tables()), d, Assigned))
    {
      hide IsClaim, IsPrimaryChoice, IsSpeculativeChoice, Claimable, OthersFirst;
      ghost var start := Tables();
      if w == "" { return ClaimReply.Refused; }
      if w !in workers {
        if config.requirePayout { return ClaimReply.Refused; }
        workers := workers[w := PoolWorker(None, now)];
      } else {
        if config.requirePayout && workers[w].payout.None? { return ClaimReply.Refused; }
      }
      TouchWorker(w, now);
      var choice := ChooseChunk(w);
      ClaimIgnoresWorkers(config, Tables(), start, w, choice);
      ClaimIs(this, start, w, choice);
      if choice.None? { return NoWork; }
      ChoiceIsOpen(config, Tables(), w, choice);
      var c := choice.value;
      var row := chunks[c];
      if row.status == Pending {
        row := row.(status := Assigned, worker := Some(w), assignedAt := Some(now));
      } else {
        row := row.(worker := Some(w), assignedAt := Some(now));
      }
      chunks := chunks[c := row];
      TouchWorker(w, now);
      return Work(c);
    }

    // ----- submitting

    /** The first locked block of a submit: reads the chunk with its task and changes nothing. */
    method ReadSubmit(w: string, c: nat, segment: string, ms: int, now: int) returns (sub: Option<Submit>)
      ensures sub.Some? <==> c < |chunks| && chunks[c].task < |tasks|
      ensures sub.Some? ==> sub.value == Submit(w, c, segment, ms, chunks[c], tasks[chunks[c].task], now)
    {
      if c >= |chunks| || chunks[c].task >= |tasks| { return None; }
      return Some(Submit(w, c, segment, ms, chunks[c], tasks[chunks[c].task], now));
    }

    /** Counts the chunks of a task that are not completed. */
    method CountOpen(t: nat) returns (remaining: nat)
      ensures remaining == |OpenChunks(chunks, t)|
      ensures remaining == 0 <==> AllDone(chunks, t)
    {
      remaining := 0;
      for i := 0 to |chunks|
        invariant remaining == |OpenChunks(chunks[..i], t)|
      {
        assert chunks[..i + 1] == chunks[..i] + [chunks[i]];
        NextOpen(chunks[..i], chunks[i], t);
        if chunks[i].task == t && chunks[i].status != Completed { remaining := remaining + 1; }
      }
      assert chunks[..|chunks|] == chunks;
      NoneOpen(chunks, t);
    }

    /** The second locked block of a submit: a guarded update, a share, and whether the task is ready to finalize. */
    method CompleteChunk(w: string, c: nat, task: nat, segment: string, ms: int, now: int) returns (reply: SubmitReply)
      requires c < |chunks| && chunks[c].task == task
      modifies this
      ensures Tables() == DoComplete(old(Tables()), w, c, segment, ms, now)
      ensures reply.Taken? <==> old(chunks[c].status) == Completed
      ensures reply.UnknownWorker? <==> old(chunks[c].status) != Completed && w !in old(workers)
      ensures !reply.Accepted? ==> Tables() == old(Tables())
      ensures reply.Accepted? ==>
                && reply.units == old(chunks)[c].rangeEnd - old(chunks)[c].rangeStart + 1
                && chunks == old(chunks)[c := old(chunks)[c].(status := Completed, worker := Some(w), segment := Some(segment), computeMs := Max(0, ms))]
                && shares == old(shares) + [Share(w, task, c, reply.units, false, now)]
                && workers == old(workers)[w := old(workers)[w].(lastSeen := now)] && tasks == old(tasks)
      ensures reply.Accepted? ==> reply.ready == ReadyToFinalize(Tables(), task)
    {
      if chunks[c].status != Assigned && chunks[c].status != Pending { return SubmitReply.Taken; }
      if w !in workers { return UnknownWorker; }
      var units := chunks[c].rangeEnd - chunks[c].rangeStart + 1;
      chunks := chunks[c := chunks[c].(status := Completed, worker := Some(w), segment := Some(segment), computeMs := Max(0, ms))];
      shares := shares + [Share(w, task, c, units, false, now)];
      TouchWorker(w, now);
      var remaining := CountOpen(task);
      var ready := remaining == 0 && task < |tasks| && tasks[task].status == Gathering;
      return SubmitReply.Accepted(units, ready);
    }

    /** Puts a chunk whose segment failed verification back into the pool, unless someone completed it meanwhile:
        recorded work stays, the chunk keeps its range, and an open task offers it again. */
    method ResetChunk(c: nat)
      requires c < |chunks|
      modifies this`chunks
      ensures Tables() == DoReset(old(Tables()), c)
      ensures |chunks| == |old(chunks)| && forall d :: 0 <= d < |chunks| && d != c ==> chunks[d] == old(chunks)[d]
      ensures SameShape(old(chunks)[c], chunks[c])
      ensures old(chunks)[c].status == Completed ==> chunks[c] == old(chunks)[c]
      ensures old(chunks)[c].status != Completed ==>
                (chunks[c].task < |tasks| && IsOpen(tasks[chunks[c].task].status) ==> Claimable(Tables(), c, Pending))
      ensures IsOpenEdit(old(Tables()), Tables()) && Grows(old(Tables()), Tables())
      ensures forall clock, now :: DbOk(config, old(Tables()), clock) && clock < now ==> DbOk(config, Tables(), now)
    {
      hide DbOk;
      ghost var before := Tables();
      if chunks[c].status != Completed {
        chunks := chunks[c := chunks[c].(status := Pending, worker := None, assignedAt := None)];
      }
      OpenEditGrows(before, Tables());
      forall clock, now | DbOk(config, before, clock) && clock < now ensures DbOk(config, Tables(), now) {
        OpenEditKeeps(config, before, Tables(), clock, now);
      }
    }

    method FindShare(t: nat, c: nat, w: string) returns (found: bool)
      ensures found <==> HasShare(shares, t, c, w)
    {
      found := false;
      for i := 0 to |shares|
        invariant found <==> exists k :: 0 <= k < i && shares[k].task == t && shares[k].chunk == c && shares[k].worker == w
      {
        if shares[i].task == t && shares[i].chunk == c && shares[i].worker == w { found := true; }
      }
    }

    /** The recheck under the lock and the late share of a full-task race. */
    method CreditLate(w: string, c: nat, units: int, stamp: int) returns (credited: bool)
      requires c < |chunks|
      modifies this
      ensures credited == CanCreditLate(old(Tables()), w, c)
      ensures credited <==>
                && c < |chunks| && chunks[c].task < |tasks| && chunks[c].status == Completed
                && (tasks[chunks[c].task].status == Gathering || tasks[chunks[c].task].status == Submitting)
                && forall i :: 0 <= i < |old(shares)| && old(shares)[i].task == chunks[c].task && old(shares)[i].chunk == c
                               ==> old(shares)[i].worker != w
      ensures tasks == old(tasks) && chunks == old(chunks)
      ensures shares == old(shares) + if credited then [Share(w, old(chunks)[c].task, c, units, false, stamp)] else []
      ensures Tables() == DoCreditLate(old(Tables()), w, c, units, stamp)
    {
      var row := chunks[c];
      if row.task >= |tasks| || row.status != Completed { return false; }
      var status := tasks[row.task].status;
      if status != Gathering && status != Submitting { return false; }
      var existing := FindShare(row.task, c, w);
      if existing { return false; }
      shares := shares + [Share(w, row.task, c, units, false, stamp)];
      TouchWorker(w, stamp);
      return true;
    }

    /** The segment is the text of its chunk, or segments are not verified. */
    predicate IsTrue(algorithm: string, row: Chunk, segment: string)
    {
      config.verify ==> segment == TrueSegment(config, algorithm, row.rangeStart, row.rangeEnd)
    }

    /** A whole submit that no other thread disturbs between its locked blocks; None refuses an unknown chunk id. */
    method SubmitWork(w: string, c: nat, segment: string, ms: int, now: int) returns (reply: Option<int>)
      modifies this
      ensures reply.Some? <==> c < |old(chunks)| && old(chunks)[c].task < |old(tasks)|
      ensures reply.None? ==> Tables() == old(Tables())
      ensures reply.Some? ==>
              var row, units := old(chunks)[c], reply.value;
              var task := old(tasks)[row.task];
              var plan := PlanSubmit(config, row, task, segment, ms);
              && Tables() == (match plan
                              case WrongLength => old(Tables())
                              case TooLate => old(Tables())
                              case TooSlow => old(Tables())
                              case CreditLate(credit) => DoCreditLate(old(Tables()), w, c, credit, now)
                              case Invalid => DoReset(old(Tables()), c)
                              case Complete => DoComplete(old(Tables()), w, c, segment, ms, now))
              && units == (match plan
                           case CreditLate(credit) => if CanCreditLate(old(Tables()), w, c) then credit else 0
                           case Complete => if w in old(workers) then row.rangeEnd - row.rangeStart + 1 else 0
                           case _ => 0)
      ensures reply.Some? && |segment| != old(chunks)[c].rangeEnd - old(chunks)[c].rangeStart + 1 ==>
                reply.value == 0 && Tables() == old(Tables())
      ensures reply.Some? && |segment| == old(chunks)[c].rangeEnd - old(chunks)[c].rangeStart + 1 && old(chunks)[c].status != Completed ==>
                var row := old(chunks)[c];
                var task := old(tasks)[row.task];
                if !IsOpen(task.status) || (w !in old(workers) && IsTrue(task.algorithm, row, segment)) then
                  reply.value == 0 && Tables() == old(Tables())
                else if IsTrue(task.algorithm, row, segment) then
                  && reply.value == |segment| && tasks == old(tasks)
                  && chunks == old(chunks)[c := row.(status := Completed, worker := Some(w), segment := Some(segment), computeMs := Max(0, ms))]
                  && shares == old(shares) + [Share(w, row.task, c, |segment|, false, now)]
                else
                  && reply.value == 0 && tasks == old(tasks) && shares == old(shares)
                  && chunks == old(chunks)[c := row.(status := Pending, worker := None, assignedAt := None)]
      ensures reply.Some? && |segment| == old(chunks)[c].rangeEnd - old(chunks)[c].rangeStart + 1 && old(chunks)[c].status == Completed ==>
                var row := old(chunks)[c];
                var task := old(tasks)[row.task];
                var winner, worker, size := Max(1, row.computeMs), Max(1, ms), Max(1, row.units);
                if !IsFullRace(config, row, task) || !(task.status == Gathering || task.status == Submitting)
                   || size * winner < worker
                   || exists i :: 0 <= i < |old(shares)| && old(shares)[i].task == row.task && old(shares)[i].chunk == c && old(shares)[i].worker == w
                then reply.value == 0 && Tables() == old(Tables())
                else
                  && (if worker <= winner then reply.value == size
                      else reply.value >= 1 && reply.value * worker <= size * winner < (reply.value + 1) * worker)
                  && tasks == old(tasks) && chunks == old(chunks)
                  && shares == old(shares) + [Share(w, row.task, c, reply.value, false, now)]
    {
      hide IsFullRace, TrueSegment;
      if c >= |chunks| || chunks[c].task >= |tasks| { return None; }
      var row, task := chunks[c], tasks[chunks[c].task];
      reply := Some(0);
      var expected := row.rangeEnd - row.rangeStart + 1;
      if |segment| != expected { return; }
      if row.status == Completed {
        if !IsFullRace(config, row, task) { return; }
        if task.status != Gathering && task.status != Submitting { return; }
        var winner, worker, size := Max(1, row.computeMs), Max(1, ms), Max(1, row.units);
        var credit := Max(0, Min(size, (size * winner) / worker));
        RaceCreditIs(size, row.computeMs, ms);
        if credit <= 0 { return; }
        var credited := CreditLate(w, c, credit, now);
        return Some(if credited then credit else 0);
      }
      if task.status != Gathering && task.status != Active { return; }
      if config.verify {
        var own := TrueSegment(config, task.algorithm, row.rangeStart, row.rangeEnd);
        if segment != own {
          ResetChunk(c);
          return;
        }
      }
      var taken := CompleteChunk(w, c, row.task, segment, ms, now);
      if taken.Accepted? { reply := Some(taken.units); }
    }

    // ----- expiry

    method ExpireStaleAssignments(cutoff: int) returns (expired: seq<nat>)
      modifies this`chunks
      ensures Tables() == DoExpire(old(Tables()), cutoff)
      ensures forall c :: 0 <= c < |chunks| ==>
                (c in expired <==>
                   && old(chunks)[c].status == Assigned
                   && (if old(chunks)[c].assignedAt.Some? then old(chunks)[c].assignedAt.value else 0) < cutoff)
      ensures |chunks| == |old(chunks)| && forall c :: 0 <= c < |chunks| ==>
                chunks[c] == if c in expired then old(chunks)[c].(status := Pending, worker := None, assignedAt := None) else old(chunks)[c]
    {
      expired := [];
      for i := 0 to |chunks|
        invariant forall c :: c in expired <==> 0 <= c < i && Overdue(chunks[c], cutoff)
        invariant chunks == old(chunks)
      {
        if chunks[i].status == Assigned {
          var at := if chunks[i].assignedAt.Some? then chunks[i].assignedAt.value else 0;
          if at < cutoff { expired := expired + [i]; }
        }
      }
      for k := 0 to |expired|
        invariant |chunks| == |old(chunks)|
        invariant forall c :: 0 <= c < |chunks| ==>
                    chunks[c] == if c in expired[..k] then Reopened(old(chunks)[c]) else old(chunks)[c]
      {
        var c := expired[k];
        assert c in expired;
        chunks := chunks[c := chunks[c].(status := Pending, worker := None, assignedAt := None)];
        assert expired[..k + 1] == expired[..k] + [c];
      }
      assert expired[..|expired|] == expired;
    }

    // ----- finalizing

    /** The tasks that are gathering with no open chunk left. */
    method ReadyTasks() returns (ready: seq<nat>)
      ensures forall t: nat :: t in ready <==> ReadyToFinalize(Tables(), t)
    {
      ready := [];
      for t := 0 to |tasks|
        invariant forall u: nat :: u in ready <==> u < t && ReadyToFinalize(Tables(), u)
      {
        if tasks[t].status == Gathering {
          var remaining := CountOpen(t);
          if remaining == 0 { ready := ready + [t]; }
        }
      }
    }

    /** The compare-and-set that makes one of several finalizers the owner of a task. */
    method BeginSubmit(t: nat) returns (rows: Option<seq<Chunk>>)
      requires t < |tasks|
      modifies this`tasks
      ensures Tables() == DoBeginSubmit(old(Tables()), t)
      ensures rows.Some? <==> old(tasks[t].status) == Gathering
      ensures rows.Some? ==> rows.value == RowsOf(chunks, t)
      ensures tasks == if rows.Some? then old(tasks)[t := old(tasks)[t].(status := Submitting)] else old(tasks)
    {
      if tasks[t].status != Gathering { return None; }
      tasks := tasks[t := tasks[t].(status := Submitting)];
      var found: seq<Chunk> := [];
      for i := 0 to |chunks|
        invariant found == RowsOf(chunks[..i], t)
      {
        assert chunks[..i + 1][..i] == chunks[..i];
        if chunks[i].task == t { found := found + [chunks[i]]; }
      }
      assert chunks[..|chunks|] == chunks;
      return Some(found);
    }

    /** Stores mainnet's answer to a reveal: accepted with a block, waiting for validation, accepted without a block, or
        rejected; all shares of the task are credited unless it is rejected. */
    method FinishSubmit(t: nat, reply: RevealReply, now: int)
      requires t < |tasks|
      modifies this
      ensures Tables() == DoFinishSubmit(old(Tables()), t, reply, now)
      ensures |tasks| == |old(tasks)| && forall u :: 0 <= u < |tasks| && u != t ==> tasks[u] == old(tasks)[u]
      ensures SameOrigin(old(tasks)[t], tasks[t]) && tasks[t].reply == Some(reply) && tasks[t].completedAt == Some(now)
      ensures tasks[t].status == TaskStatus.Accepted <==> reply.accepted && reply.block.Some?
      ensures tasks[t].status == ValidationPending <==> reply.status == "validation_pending" && !(reply.accepted && reply.block.Some?)
      ensures tasks[t].status == Submitted <==> reply.accepted && reply.block.None? && reply.status != "validation_pending"
      ensures tasks[t].status == Rejected <==> !reply.accepted && reply.status != "validation_pending"
      ensures |shares| == |old(shares)| && forall k :: 0 <= k < |shares| ==>
                shares[k] == if shares[k].task == t && tasks[t].status != Rejected then old(shares)[k].(credited := true) else old(shares)[k]
      ensures forall clock :: DbOk(config, old(Tables()), clock) && old(tasks)[t].status == Submitting && tasks[t].status == Rejected
                ==> forall k :: 0 <= k < |shares| && shares[k].task == t ==> !shares[k].credited
      ensures chunks == old(chunks) && workers == old(workers)
    {
      hide DbOk;
      ghost var start := Tables();
      forall clock | DbOk(config, start, clock) && start.tasks[t].status == Submitting
        ensures forall k :: 0 <= k < |start.shares| && start.shares[k].task == t ==> !start.shares[k].credited
      {
        SubmittingUncredited(config, start, t, clock);
      }
      var credited := reply.accepted || reply.status == "validation_pending";
      var status := if credited then Submitted else Rejected;
      if reply.status == "validation_pending" && reply.block.None? {
        status := ValidationPending;
      } else if reply.accepted && reply.block.Some? {
        status := TaskStatus.Accepted;
      } else if reply.status == "validation_pending" {
        status := ValidationPending;
      }
      tasks := tasks[t := tasks[t].(status := status, reply := Some(reply), completedAt := Some(now))];
      if credited {
        ghost var before, closed := shares, tasks;
        for i := 0 to |shares|
          invariant |shares| == |before| && tasks == closed && chunks == old(chunks) && workers == old(workers)
          invariant forall k :: 0 <= k < |shares| ==>
                      shares[k] == if k < i && before[k].task == t then before[k].(credited := true) else before[k]
        {
          if shares[i].task == t { shares := shares[i := shares[i].(credited := true)]; }
        }
        assert shares == Credit(before, t);
      }
    }

    /** Ends a submission that went wrong: the task reaches its last stage and no longer keeps the coordinator busy, no share
        of it is credited, and no other task is touched. The database stays sound when the task was submitting. */
    method FailSubmit(t: nat, lost: bool, now: int)
      requires t < |tasks|
      modifies this`tasks
      ensures Tables() == DoFailSubmit(old(Tables()), t, lost, now)
      ensures |tasks| == |old(tasks)| && forall u :: 0 <= u < |tasks| && u != t ==> tasks[u] == old(tasks)[u]
      ensures SameOrigin(old(tasks)[t], tasks[t]) && tasks[t].completedAt == Some(now)
      ensures Stage(tasks[t].status) == 3 && !IsBusy(tasks[t].status) && (tasks[t].status == Lost <==> lost)
      ensures forall clock :: DbOk(config, old(Tables()), clock) && clock < now && old(tasks)[t].status == Submitting
                ==> DbOk(config, Tables(), now) && Grows(old(Tables()), Tables())
                    && forall i :: 0 <= i < |shares| && shares[i].task == t ==> !shares[i].credited
    {
      hide DbOk, Grows;
      ghost var before := Tables();
      var status := if lost then Lost else Failed;
      tasks := tasks[t := tasks[t].(status := status, completedAt := Some(now))];
      forall clock | DbOk(config, before, clock) && clock < now && before.tasks[t].status == Submitting
        ensures DbOk(config, Tables(), now) && Grows(before, Tables())
        ensures forall i :: 0 <= i < |shares| && shares[i].task == t ==> !shares[i].credited
      {
        FailStep(config, before, t, lost, clock, now);
        SubmittingUncredited(config, before, t, clock);
      }
    }

    // ----- new tasks

    /** Whether an offer becomes one chunk that all workers race for. */
    predicate IsRaceOffer(o: Offer, active: int) { config.mode.HybridRace? && o.rangeEnd - o.rangeStart + 1 > active }

    /** Workers seen since the cutoff, at least one. */
    method CountActive(cutoff: int) returns (count: int)
      ensures count == ActiveWorkers(workers, cutoff)
      ensures count == Max(1, |set w | w in workers && workers[w].lastSeen >= cutoff|)
    {
      var left := workers.Keys;
      var seen: set<string> := {};
      while left != {}
        invariant left <= workers.Keys
        invariant seen == set w | w in workers && w !in left && workers[w].lastSeen >= cutoff
        decreases |left|
      {
        var w :| w in left;
        left := left - {w};
        if workers[w].lastSeen >= cutoff { seen := seen + {w}; }
      }
      assert seen == set w | w in workers && workers[w].lastSeen >= cutoff;
      count := Max(1, |seen|);
    }

    method FindMainnetId(id: string) returns (found: bool)
      ensures found <==> KnownMainnetId(Tables(), id)
    {
      found := false;
      for t := 0 to |tasks|
        invariant found <==> exists u :: 0 <= u < t && tasks[u].mainnetId == id
      {
        if tasks[t].mainnetId == id { found := true; }
      }
    }

    /** Cuts the offered range and inserts the task with its chunks; a known mainnet id is refused by the table. */
    method CreateTask(o: Offer, stamp: int, cutoff: int) returns (created: bool)
      modifies this
      ensures Tables() == DoCreate(config, old(Tables()), o, stamp, cutoff)
      ensures created == (Tables() != old(Tables()))
      ensures !created ==> Tables() == old(Tables())
      ensures created <==>
                && o.rangeStart <= o.rangeEnd && !KnownMainnetId(old(Tables()), o.mainnetId)
                && (o.rangeStart >= 1 || IsRaceOffer(o, ActiveWorkers(old(workers), cutoff)))
      ensures created ==>
                && tasks == old(tasks) + [Task(o.mainnetId, Gathering, o.rangeStart, o.rangeEnd, o.algorithm, o.roundHeight, None, stamp, None)]
                && shares == old(shares) && workers == old(workers) && old(chunks) <= chunks
      ensures created ==>
                var rows := chunks[|old(chunks)|..];
                && Tiles(o.rangeStart, o.rangeEnd, RowRanges(rows))
                && (forall c :: 0 <= c < |rows| ==>
                      rows[c] == Chunk(|old(tasks)|, None, Pending, rows[c].rangeStart, rows[c].rangeEnd, None, 0, None,
                                       rows[c].rangeEnd - rows[c].rangeStart + 1))
                && (IsRaceOffer(o, ActiveWorkers(old(workers), cutoff)) ==> |rows| == 1)
                && (config.mode.Fixed? ==> forall c :: 0 <= c < |rows| - 1 ==> rows[c].units == Max(1, config.mode.size))
                && (!config.mode.Fixed? && !IsRaceOffer(o, ActiveWorkers(old(workers), cutoff)) ==>
                      forall c :: 0 <= c < |rows| ==> rows[c].units == 1)
    {
      hide Tiles, FixedChunks, BalancedChunks, RowRanges;
      CreatedIs(config, Tables(), o, stamp, cutoff);
      var active := CountActive(cutoff);
      var units := o.rangeEnd - o.rangeStart + 1;
      if units <= 0 { return false; }
      var ranges: seq<Range> := [];
      if config.mode.Fixed? {
        var cut := SplitRange(o.rangeStart, o.rangeEnd, Max(1, config.mode.size));
        if cut.Failure? { return false; }
        ranges := cut.value;
      } else if config.mode.HybridRace? && units > active {
        ranges := [Range(o.rangeStart, o.rangeEnd)];
      } else {
        var cut := SplitRangeBalanced(o.rangeStart, o.rangeEnd, units);
        if cut.Failure? { return false; }
        ranges := cut.value;
      }
      var known := FindMainnetId(o.mainnetId);
      if known { return false; }
      var t := |tasks|;
      tasks := tasks + [Task(o.mainnetId, Gathering, o.rangeStart, o.rangeEnd, o.algorithm, o.roundHeight, None, stamp, None)];
      var rows: seq<Chunk> := [];
      for i := 0 to |ranges|
        invariant |rows| == i && forall k :: 0 <= k < i ==> rows[k] == NewChunk(t, ranges[k])
      {
        rows := rows + [Chunk(t, None, Pending, ranges[i].start, ranges[i].end, None, 0, None, ranges[i].Units())];
      }
      assert rows == NewChunks(t, ranges);
      chunks := chunks + rows;
      return true;
    }

    // ----- settlement

    method PendingSettlementTasks() returns (pending: map<nat, PendingRow>)
      ensures pending == PendingRows(Tables())
      ensures forall t: nat :: t in pending <==>
                && t < |tasks| && tasks[t].reply.Some? && tasks[t].reply.value.block.None?
                && (tasks[t].status == Submitted || tasks[t].status == ValidationPending
                    || (tasks[t].status == TaskStatus.Accepted && tasks[t].reply.value.status == "validation_pending"))
      ensures forall t :: t in pending ==>
                t < |tasks| && pending[t].mainnetId == tasks[t].mainnetId && pending[t].roundHeight == tasks[t].roundHeight
    {
      pending := map[];
      for t := 0 to |tasks|
        invariant pending == map u: nat | u < t && IsPendingSettlement(tasks[u]) :: PendingRow(tasks[u].mainnetId, tasks[u].roundHeight)
      {
        if IsPendingSettlement(tasks[t]) {
          pending := pending[t := PendingRow(tasks[t].mainnetId, tasks[t].roundHeight)];
        }
      }
    }

    /** One row of a settlement pass, with the two lookup tables of the block list. */
    method SettleRow(t: nat, row: PendingRow, byTask: map<string, Block>, byHeight: map<int, Block>, now: int)
      requires t < |tasks|
      modifies this`tasks
      ensures Tables() == DoSettle(old(Tables()), t, Decided(row, byTask, byHeight), now)
      ensures |tasks| == |old(tasks)| && forall u :: 0 <= u < |tasks| && u != t ==> tasks[u] == old(tasks)[u]
      ensures var before := old(tasks)[t];
              var done := if before.completedAt.Some? then before.completedAt else Some(now);
              var other := row.roundHeight.Some? && row.roundHeight.value in byHeight
                           && byHeight[row.roundHeight.value].taskId != "" && byHeight[row.roundHeight.value].taskId != row.mainnetId;
              tasks[t] ==
              if row.mainnetId in byTask then
                if before.status == TaskStatus.Accepted || before.status == Submitted || before.status == ValidationPending then
                  before.(status := TaskStatus.Accepted, completedAt := done, reply := Some(RevealReply(true, "accepted", Some(byTask[row.mainnetId]))))
                else before
              else if other && (before.status == Submitted || before.status == ValidationPending) then
                before.(status := Lost, completedAt := done, reply := Some(RevealReply(false, "lost", None)))
              else before
    {
      var status := tasks[t].status;
      if row.mainnetId in byTask {
        if status == TaskStatus.Accepted || status == Submitted || status == ValidationPending {
          tasks := tasks[t := tasks[t].(status := TaskStatus.Accepted, completedAt := Coalesce(tasks[t].completedAt, now),
                                        reply := Some(RevealReply(true, "accepted", Some(byTask[row.mainnetId]))))];
        }
        return;
      }
      if row.roundHeight.None? || row.roundHeight.value !in byHeight { return; }
      var winner := byHeight[row.roundHeight.value];
      if winner.taskId == "" || winner.taskId == row.mainnetId { return; }
      if status == Submitted || status == ValidationPending {
        tasks := tasks[t := tasks[t].(status := Lost, completedAt := Coalesce(tasks[t].completedAt, now),
                                      reply := Some(RevealReply(false, "lost", None)))];
      }
    }

    method ApplyMainnetStatus(t: nat, reply: StatusReply, now: int) returns (updated: bool)
      requires t < |tasks|
      modifies this`tasks
      ensures Tables() == DoApplyStatus(old(Tables()), t, reply, now)
      ensures updated <==>
                && (old(tasks[t].status) == Submitted || old(tasks[t].status) == ValidationPending || old(tasks[t].status) == Unsettled)
                && ((reply.status == "accepted" && reply.block.Some?)
                    || reply.status in ["validation_pending", "expired", "stale", "rejected"])
      ensures |tasks| == |old(tasks)| && forall u :: 0 <= u < |tasks| && u != t ==> tasks[u] == old(tasks)[u]
      ensures !updated ==> tasks[t] == old(tasks)[t]
      ensures updated ==>
                && SameOrigin(old(tasks)[t], tasks[t])
                && tasks[t].completedAt == (if old(tasks)[t].completedAt.Some? then old(tasks)[t].completedAt else Some(now))
                && (reply.status == "accepted" ==>
                      tasks[t].status == TaskStatus.Accepted && tasks[t].reply == Some(RevealReply(true, "accepted", reply.block)))
                && (reply.status == "validation_pending" ==>
                      tasks[t].status == ValidationPending && tasks[t].reply == Some(RevealReply(true, "validation_pending", None)))
                && (reply.status == "expired" ==> tasks[t].status == Expired)
                && (reply.status == "stale" ==> tasks[t].status == Stale)
                && (reply.status == "rejected" ==> tasks[t].status == Rejected)
                && (reply.status in ["expired", "stale", "rejected"] ==> tasks[t].reply == Some(RevealReply(false, reply.status, None)))
    {
      var status, stored := Submitted, RevealReply(false, reply.status, None);
      if reply.status == "accepted" && reply.block.Some? {
        status, stored := TaskStatus.Accepted, RevealReply(true, "accepted", reply.block);
      } else if reply.status == "validation_pending" {
        status, stored := ValidationPending, RevealReply(true, "validation_pending", None);
      } else if reply.status == "expired" {
        status := Expired;
      } else if reply.status == "stale" {
        status := Stale;
      } else if reply.status == "rejected" {
        status := Rejected;
      } else {
        return false;
      }
      var current := tasks[t].status;
      if current != Submitted && current != ValidationPending && current != Unsettled { return false; }
      tasks := tasks[t := tasks[t].(status := status, reply := Some(stored), completedAt := Coalesce(tasks[t].completedAt, now))];
      return true;
    }
  }

  // ----- new tasks

  /** What inserting an offered task does to the tables. */
  lemma CreatedIs(cfg: Config, db: Db, o: Offer, stamp: int, cutoff: int)
    ensures var next, cut := DoCreate(cfg, db, o, stamp, cutoff), ResolveChunks(cfg, ActiveWorkers(db.workers, cutoff), o.rangeStart, o.rangeEnd);
            var race := cfg.mode.HybridRace? && o.rangeEnd - o.rangeStart + 1 > ActiveWorkers(db.workers, cutoff);
            && (next == db <==> !(o.rangeStart <= o.rangeEnd && !KnownMainnetId(db, o.mainnetId) && (o.rangeStart >= 1 || race)))
            && (next != db ==>
                  && next.tasks == db.tasks + [Task(o.mainnetId, Gathering, o.rangeStart, o.rangeEnd, o.algorithm, o.roundHeight, None, stamp, None)]
                  && next.shares == db.shares && next.workers == db.workers && db.chunks <= next.chunks
                  && var rows := next.chunks[|db.chunks|..];
                     && Tiles(o.rangeStart, o.rangeEnd, RowRanges(rows))
                     && (forall c :: 0 <= c < |rows| ==>
                           rows[c] == Chunk(|db.tasks|, None, Pending, rows[c].rangeStart, rows[c].rangeEnd, None, 0, None,
                                            rows[c].rangeEnd - rows[c].rangeStart + 1))
                     && (race ==> |rows| == 1)
                     && (cfg.mode.Fixed? ==> forall c :: 0 <= c < |rows| - 1 ==> rows[c].units == Max(1, cfg.mode.size))
                     && (!cfg.mode.Fixed? && !race ==> forall c :: 0 <= c < |rows| ==> rows[c].units == 1))
  {
    hide Tiles, FixedChunks, BalancedChunks, ResolveChunks, KnownMainnetId, ActiveWorkers;
    var active := ActiveWorkers(db.workers, cutoff);
    ResolvedChunks(cfg, active, o.rangeStart, o.rangeEnd);
    var cut, next := ResolveChunks(cfg, active, o.rangeStart, o.rangeEnd), DoCreate(cfg, db, o, stamp, cutoff);
    if cut.Some? && !KnownMainnetId(db, o.mainnetId) {
      assert |next.tasks| == |db.tasks| + 1;
      var rows := NewChunks(|db.tasks|, cut.value);
      assert next.chunks[|db.chunks|..] == rows;
      assert RowRanges(rows) == cut.value;
    }
  }

  // ----- open chunks

  /** The positions of a task's chunks that are not completed. */
  function OpenChunks(chunks: seq<Chunk>, t: nat): set<nat>
  {
    set c: nat | c < |chunks| && chunks[c].task == t && chunks[c].status != Completed
  }

  lemma NextOpen(front: seq<Chunk>, last: Chunk, t: nat)
    ensures |OpenChunks(front + [last], t)| == |OpenChunks(front, t)| + if last.task == t && last.status != Completed then 1 else 0
  {
    var all := OpenChunks(front + [last], t);
    if last.task == t && last.status != Completed {
      assert all == OpenChunks(front, t) + {|front|};
    } else {
      assert all == OpenChunks(front, t);
    }
  }

  lemma NoneOpen(chunks: seq<Chunk>, t: nat)
    ensures |OpenChunks(chunks, t)| == 0 <==> AllDone(chunks, t)
  {
    if AllDone(chunks, t) {
      assert OpenChunks(chunks, t) == {};
    } else {
      var c :| 0 <= c < |chunks| && chunks[c].task == t && chunks[c].status != Completed;
      assert c in OpenChunks(chunks, t);
    }
  }

  /** Shares of a task that is still submitting are not credited. */
  lemma SubmittingUncredited(cfg: Config, db: Db, t: nat, clock: int)
    requires DbOk(cfg, db, clock) && t < |db.tasks| && db.tasks[t].status == Submitting
    ensures forall i :: 0 <= i < |db.shares| && db.shares[i].task == t ==> !db.shares[i].credited
  {
    forall i | 0 <= i < |db.shares| && db.shares[i].task == t ensures !db.shares[i].credited {
      assert ShareOk(cfg, db.tasks, db.chunks, clock, db.shares[i]);
    }
  }

  /** What a claim may return depends on tasks and chunks alone. */
  lemma ClaimIgnoresWorkers(cfg: Config, a: Db, b: Db, w: string, choice: Option<nat>)
    requires IsClaim(cfg, a, w, choice) && a.tasks == b.tasks && a.chunks == b.chunks
    ensures IsClaim(cfg, b, w, choice)
  {
    assert forall c: nat, status :: Claimable(a, c, status) == Claimable(b, c, status);
  }

  /** What a choice says about the chunks on offer. */
  lemma ClaimIs(c: Coordinator, db: Db, w: string, choice: Option<nat>)
    requires IsClaim(c.config, db, w, choice)
    ensures choice.Some? ==>
              && choice.value < |db.chunks|
              && (if db.chunks[choice.value].status == Pending then
                    forall d :: 0 <= d < |db.chunks| && Claimable(db, d, Pending)
                                ==> db.chunks[choice.value].rangeStart <= db.chunks[d].rangeStart
                  else
                    && c.config.speculative && db.chunks[choice.value].status == Assigned
                    && (forall d :: 0 <= d < |db.chunks| ==> !Claimable(db, d, Pending))
                    && (forall d :: 0 <= d < |db.chunks| && Claimable(db, d, Assigned)
                                    ==> c.OthersFirst(db.chunks[choice.value], db.chunks[d], w)))
              && Claimable(db, choice.value, db.chunks[choice.value].status)
    ensures choice.None? ==> forall d :: 0 <= d < |db.chunks| ==>
              !Claimable(db, d, Pending) && (c.config.speculative ==> !Claimable(db, d, Assigned))
  {
  }

  lemma ChoiceIsOpen(cfg: Config, db: Db, w: string, choice: Option<nat>)
    requires IsClaim(cfg, db, w, choice) && choice.Some?
    ensures choice.value < |db.chunks| && (db.chunks[choice.value].status == Pending || db.chunks[choice.value].status == Assigned)
  {
  }

  // ----- the block list

  /** What a settlement pass decides from its lookup tables. */
  function Decided(row: PendingRow, byTask: map<string, Block>, byHeight: map<int, Block>): Settlement
  {
    if row.mainnetId in byTask then Won(byTask[row.mainnetId])
    else if row.roundHeight.None? || row.roundHeight.value !in byHeight then Undecided
    else
      var winner := byHeight[row.roundHeight.value];
      if winner.taskId == "" || winner.taskId == row.mainnetId then Undecided else Beaten
  }

  /** The lookup tables keep the last block of each task id and of each height. */
  ghost predicate Indexes(blocks: seq<Block>, byTask: map<string, Block>, byHeight: map<int, Block>)
  {
    && (forall id :: (if id in byTask then Some(byTask[id]) else None) == LastBlock(blocks, OfTask(id)))
    && (forall h :: (if h in byHeight then Some(byHeight[h]) else None) == LastBlock(blocks, AtHeight(Some(h))))
  }

  method IndexBlocks(blocks: seq<Block>) returns (byTask: map<string, Block>, byHeight: map<int, Block>)
    ensures Indexes(blocks, byTask, byHeight)
  {
    byTask, byHeight := map[], map[];
    for i := 0 to |blocks|
      invariant Indexes(blocks[..i], byTask, byHeight)
    {
      var block := blocks[i];
      assert blocks[..i + 1][..i] == blocks[..i];
      if block.taskId != "" { byTask := byTask[block.taskId := block]; }
      if block.height.Some? { byHeight := byHeight[block.height.value := block]; }
    }
    assert blocks[..|blocks|] == blocks;
  }

  /** The tables decide as the protocol's settlement does from the block list itself. */
  lemma DecidedIsSettlement(row: PendingRow, blocks: seq<Block>, byTask: map<string, Block>, byHeight: map<int, Block>)
    requires Indexes(blocks, byTask, byHeight)
    ensures Decided(row, byTask, byHeight) == DecideSettlement(row.mainnetId, row.roundHeight, blocks)
  {
    assert (if row.mainnetId in byTask then Some(byTask[row.mainnetId]) else None) == LastBlock(blocks, OfTask(row.mainnetId));
    if row.roundHeight.Some? {
      var h := row.roundHeight.value;
      assert (if h in byHeight then Some(byHeight[h]) else None) == LastBlock(blocks, AtHeight(Some(h)));
    }
  }
}
