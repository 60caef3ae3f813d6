/** The automatic payout run: what it inserts, and why it never overpays a worker or overdraws the wallet. */
module PayoutRun {
  import opened Prelude
  import opened StableSort
  import opened Sums
  import opened RoundWindows
  import opened PayoutSummary

  datatype PayoutStatus = Submitting | Sent | Confirmed | Released

  /** Amounts are counted in millionths; a released payout is one marked as an error. */
  datatype Payout = Payout(workerId: string, address: string, units: nat, fee: nat, nonce: int, status: PayoutStatus)

  predicate IsReserved(p: Payout) { p.status.Submitting? || p.status.Sent? }

  predicate IsLive(p: Payout) { !p.status.Released? }

  /** A payout is open, confirmed or released; open and confirmed ones are live. */
  lemma OpenOrFinal(p: Payout)
    ensures IsReserved(p) <==> !p.status.Confirmed? && !p.status.Released?
    ensures IsLive(p) <==> IsReserved(p) || p.status.Confirmed?
  {
  }

  function LiveFor(w: string): Payout -> int { (p: Payout) => if IsLive(p) && p.workerId == w then p.units else 0 }

  /** What a worker was paid or may still be paid by payouts that are not released. */
  function LiveUnits(payouts: seq<Payout>, w: string): int { SumInt(payouts, LiveFor(w)) }

  function ReservedColumn(): Payout -> int { (p: Payout) => if IsReserved(p) then p.units + p.fee else 0 }

  function ReservedUnits(payouts: seq<Payout>): int { SumInt(payouts, ReservedColumn()) }

  function SpendColumn(): Payout -> int { (p: Payout) => p.units + p.fee }

  function Coins(units: int): real { units as real / 1000000.0 }

  function AsRow(p: Payout): PayoutRow { PayoutRow(p.workerId, Some(p.address), Coins(p.units), Coins(p.fee)) }

  /** The payout rows the statistics read. */
  function PaidRows(payouts: seq<Payout>): seq<PayoutRow>
  {
    if payouts == [] then []
    else (if IsLive(payouts[0]) then [AsRow(payouts[0])] else []) + PaidRows(payouts[1..])
  }

  // ----- rounding

  function FloorUnits(amount: real): int
  {
    if amount >= 0.0 then (amount * 1000000.0).Floor else -(-amount * 1000000.0).Floor
  }

  /** Cutting to eight decimals first does not change the cut to six. */
  lemma FloorTwice(x: real)
    requires x >= 0.0
    ensures FloorUnits(Cut8(x)) == FloorUnits(x)
  {
    var n := (x * 1000000.0).Floor;
    var a := (x * 100000000.0).Floor;
    assert 100.0 * n as real <= x * 100000000.0 < 100.0 * n as real + 100.0;
    assert 100 * n <= a < 100 * n + 100;
    assert Cut8(x) * 1000000.0 == a as real / 100.0;
  }

  /** Cutting keeps all but less than one unit. */
  lemma FloorUnitsIs(x: real)
    requires x >= 0.0
    ensures FloorUnits(x) >= 0 && Coins(FloorUnits(x)) <= x < Coins(FloorUnits(x) + 1)
  {
  }

  lemma FloorIsBelow(x: real)
    requires x >= 0.0
    ensures 0 <= FloorUnits(x) && Coins(FloorUnits(x)) <= x
  {
  }

  // ----- one run

  /** What the network answers to a submitted payout. */
  datatype Outcome = Taken | Unclear | Refused

  predicate IsEligible(p: WorkerPay) { p.payable && p.address.Some? && p.address.value != "" }

  /** The payouts a run inserts: one eligible worker after another, until a submission fails. */
  function RunFrom(workers: seq<WorkerPay>, outcomes: seq<Outcome>, remaining: nat, nonce: int, minUnits: nat, fee: nat): seq<Payout>
    requires |outcomes| == |workers| && forall p :: p in workers ==> p.address.Some?
    decreases |workers|
  {
    if workers == [] then []
    else
      var p := workers[0];
      var units := FloorUnits(p.pending);
      var total := units + fee;
      if units < minUnits || total > remaining then RunFrom(workers[1..], outcomes[1..], remaining, nonce, minUnits, fee)
      else
        match outcomes[0]
        case Taken =>
          [Payout(p.workerId, p.address.value, units, fee, nonce, Sent)]
          + RunFrom(workers[1..], outcomes[1..], remaining - total, nonce + 1, minUnits, fee)
        case Unclear => [Payout(p.workerId, p.address.value, units, fee, nonce, Sent)]
        case Refused => [Payout(p.workerId, p.address.value, units, fee, nonce, Released)]
  }

  /** A run never spends more than it may, fees included. */
  lemma {:induction false} RunSpends(workers: seq<WorkerPay>, outcomes: seq<Outcome>, remaining: nat, nonce: int, minUnits: nat, fee: nat)
    requires |outcomes| == |workers| && forall p :: p in workers ==> p.address.Some?
    ensures SumInt(RunFrom(workers, outcomes, remaining, nonce, minUnits, fee), SpendColumn()) <= remaining
    decreases |workers|
  {
    if workers != [] {
      var units := FloorUnits(workers[0].pending);
      if units < minUnits || units + fee > remaining {
        RunSpends(workers[1..], outcomes[1..], remaining, nonce, minUnits, fee);
      } else {
        RunSpends(workers[1..], outcomes[1..], remaining - (units + fee), nonce + 1, minUnits, fee);
        var run := RunFrom(workers, outcomes, remaining, nonce, minUnits, fee);
        if outcomes[0].Taken? {
          assert run[1..] == RunFrom(workers[1..], outcomes[1..], remaining - (units + fee), nonce + 1, minUnits, fee);
        }
      }
    }
  }

  /** Nonces follow one another without a gap, and only the last payout can have failed. */
  predicate InSequence(run: seq<Payout>, nonce: int)
  {
    && (forall k :: 0 <= k < |run| ==> run[k].nonce == nonce + k && (run[k].status.Sent? || run[k].status.Released?))
    && (forall k :: 0 <= k < |run| - 1 ==> run[k].status.Sent?)
  }

  lemma NothingSent(nonce: int, outcome: string -> Outcome)
    ensures InSequence([], nonce) && FollowsAnswers([], outcome)
  {
  }

  lemma SequenceCons(p: Payout, rest: seq<Payout>, nonce: int)
    requires p.nonce == nonce && p.status.Sent? && InSequence(rest, nonce + 1)
    ensures InSequence([p] + rest, nonce)
  {
  }

  lemma {:induction false} RunNonces(workers: seq<WorkerPay>, outcomes: seq<Outcome>, remaining: nat, nonce: int, minUnits: nat, fee: nat)
    requires |outcomes| == |workers| && forall p :: p in workers ==> p.address.Some?
    ensures InSequence(RunFrom(workers, outcomes, remaining, nonce, minUnits, fee), nonce)
    decreases |workers|
  {
    if workers != [] {
      var units := FloorUnits(workers[0].pending);
      if units < minUnits || units + fee > remaining {
        RunNonces(workers[1..], outcomes[1..], remaining, nonce, minUnits, fee);
      } else if outcomes[0].Taken? {
        RunNonces(workers[1..], outcomes[1..], remaining - (units + fee), nonce + 1, minUnits, fee);
        SequenceCons(Payout(workers[0].workerId, workers[0].address.value, units, fee, nonce, Sent),
                     RunFrom(workers[1..], outcomes[1..], remaining - (units + fee), nonce + 1, minUnits, fee), nonce);
      }
    }
  }

  // ----- what the network answered

  predicate AnswersAre(workers: seq<WorkerPay>, outcomes: seq<Outcome>, outcome: string -> Outcome)
  {
    |outcomes| == |workers| && forall i :: 0 <= i < |workers| ==> outcomes[i] == outcome(workers[i].workerId)
  }

  /** A payout is released exactly when the network refused it; any other answer, also an unclear one, keeps it reserved; and
      after anything but a clear success nothing more is sent. */
  predicate FollowsAnswers(run: seq<Payout>, outcome: string -> Outcome)
  {
    && (forall k :: 0 <= k < |run| ==>
          && (run[k].status.Released? <==> outcome(run[k].workerId).Refused?)
          && (IsReserved(run[k]) <==> !outcome(run[k].workerId).Refused?))
    && (forall k :: 0 <= k < |run| - 1 ==> outcome(run[k].workerId).Taken?)
  }

  lemma {:induction false} RunFollowsAnswers(
    workers: seq<WorkerPay>, outcomes: seq<Outcome>, remaining: nat, nonce: int, minUnits: nat, fee: nat, outcome: string -> Outcome)
    requires AnswersAre(workers, outcomes, outcome) && forall p :: p in workers ==> p.address.Some?
    ensures FollowsAnswers(RunFrom(workers, outcomes, remaining, nonce, minUnits, fee), outcome)
    decreases |workers|
  {
    if workers != [] {
      var units := FloorUnits(workers[0].pending);
      if units < minUnits || units + fee > remaining {
        RunFollowsAnswers(workers[1..], outcomes[1..], remaining, nonce, minUnits, fee, outcome);
      } else if outcomes[0].Taken? {
        var rest := RunFrom(workers[1..], outcomes[1..], remaining - (units + fee), nonce + 1, minUnits, fee);
        RunFollowsAnswers(workers[1..], outcomes[1..], remaining - (units + fee), nonce + 1, minUnits, fee, outcome);
        FollowsCons(Payout(workers[0].workerId, workers[0].address.value, units, fee, nonce, Sent), rest, outcome);
      }
    }
  }

  lemma FollowsCons(p: Payout, rest: seq<Payout>, outcome: string -> Outcome)
    requires FollowsAnswers(rest, outcome) && p.status.Sent? && outcome(p.workerId).Taken?
    ensures FollowsAnswers([p] + rest, outcome)
  {
    var run := [p] + rest;
    assert forall k :: 1 <= k < |run| ==> run[k] == rest[k - 1];
  }

  /** One of the first j workers. */
  predicate IsAmong(workers: seq<WorkerPay>, j: nat, w: string)
    requires j <= |workers|
  {
    exists i :: 0 <= i < j && workers[i].workerId == w
  }

  lemma AmongNext(workers: seq<WorkerPay>, j: nat, w: string)
    requires 0 < j <= |workers|
    ensures IsAmong(workers, j, w) <==> workers[0].workerId == w || IsAmong(workers[1..], j - 1, w)
  {
    assert forall i :: 1 <= i < |workers| ==> workers[i] == workers[1..][i - 1];
    if i :| 0 <= i < j - 1 && workers[1..][i].workerId == w { assert workers[i + 1].workerId == w; }
  }

  /** The first n payouts of a run are those made before the turn of worker j. */
  predicate IsTurn(workers: seq<WorkerPay>, run: seq<Payout>, j: nat, n: nat)
  {
    && n <= |run| && j < |workers|
    && forall k :: 0 <= k < |run| ==> (IsAmong(workers, j, run[k].workerId) <==> k < n)
  }

  /** Worker j is paid exactly when every submission before its turn succeeded, its amount reaches the minimum, and amount and
      fee fit into what is left. */
  predicate IsServed(
    workers: seq<WorkerPay>, run: seq<Payout>, j: nat, n: nat, spendable: int, minUnits: nat, fee: nat, outcome: string -> Outcome)
    requires j < |workers| && n <= |run|
  {
    n < |run| && run[n].workerId == workers[j].workerId
    <==>
    && (forall k :: 0 <= k < n ==> outcome(run[k].workerId).Taken?)
    && FloorUnits(workers[j].pending) >= minUnits
    && FloorUnits(workers[j].pending) + fee <= spendable - SumInt(run[..n], SpendColumn())
  }

  /** Every worker has its turn, and nobody is left out without one of these reasons. */
  predicate ServesInTurn(
    workers: seq<WorkerPay>, run: seq<Payout>, j: nat, spendable: int, minUnits: nat, fee: nat, outcome: string -> Outcome)
  {
    exists n :: 0 <= n <= |run| && IsTurn(workers, run, j, n) && IsServed(workers, run, j, n, spendable, minUnits, fee, outcome)
  }

  lemma {:induction false} EveryWorkerServed(
    workers: seq<WorkerPay>, outcomes: seq<Outcome>, remaining: nat, nonce: int, minUnits: nat, fee: nat, outcome: string -> Outcome, j: nat)
    requires AnswersAre(workers, outcomes, outcome) && DistinctWorkers(workers) && forall p :: p in workers ==> p.address.Some?
    requires j < |workers|
    ensures ServesInTurn(workers, RunFrom(workers, outcomes, remaining, nonce, minUnits, fee), j, remaining, minUnits, fee, outcome)
    decreases |workers|
  {
    hide PaysSome, FloorUnits, DistinctPayees, IsServed, IsTurn, ServesInTurn;
    var units := FloorUnits(workers[0].pending);
    var run := RunFrom(workers, outcomes, remaining, nonce, minUnits, fee);
    if units < minUnits || units + fee > remaining {
      RunPaysListed(workers[1..], outcomes[1..], remaining, nonce, minUnits, fee);
      PaysSomeMore(run, workers, minUnits, fee);
      if j == 0 {
        FirstSkipped(workers, run, remaining, minUnits, fee, outcome);
      } else {
        EveryWorkerServed(workers[1..], outcomes[1..], remaining, nonce, minUnits, fee, outcome, j - 1);
        SkipTurn(workers, run, j, remaining, minUnits, fee, outcome);
      }
    } else if j == 0 {
      FirstPaid(workers, run, remaining, minUnits, fee, outcome);
    } else if outcomes[0].Taken? {
      var rest := RunFrom(workers[1..], outcomes[1..], remaining - (units + fee), nonce + 1, minUnits, fee);
      RunPaysListed(workers[1..], outcomes[1..], remaining - (units + fee), nonce + 1, minUnits, fee);
      PaysSomeMore(rest, workers, minUnits, fee);
      EveryWorkerServed(workers[1..], outcomes[1..], remaining - (units + fee), nonce + 1, minUnits, fee, outcome, j - 1);
      assert run == [run[0]] + rest;
      PaidTurn(workers, run[0], rest, j, remaining, minUnits, fee, outcome);
    } else {
      AfterFailure(workers, run, j, remaining, minUnits, fee, outcome);
    }
  }

  lemma FirstSkipped(workers: seq<WorkerPay>, run: seq<Payout>, remaining: int, minUnits: nat, fee: nat, outcome: string -> Outcome)
    requires workers != [] && forall p :: p in run ==> p.workerId != workers[0].workerId
    requires FloorUnits(workers[0].pending) < minUnits || FloorUnits(workers[0].pending) + fee > remaining
    ensures ServesInTurn(workers, run, 0, remaining, minUnits, fee, outcome)
  {
    hide FloorUnits;
    assert SumInt(run[..0], SpendColumn()) == 0;
    assert |run| > 0 ==> run[0] in run;
    assert IsTurn(workers, run, 0, 0) && IsServed(workers, run, 0, 0, remaining, minUnits, fee, outcome);
  }

  lemma FirstPaid(workers: seq<WorkerPay>, run: seq<Payout>, remaining: int, minUnits: nat, fee: nat, outcome: string -> Outcome)
    requires workers != [] && run != [] && run[0].workerId == workers[0].workerId
    requires FloorUnits(workers[0].pending) >= minUnits && FloorUnits(workers[0].pending) + fee <= remaining
    ensures ServesInTurn(workers, run, 0, remaining, minUnits, fee, outcome)
  {
    hide FloorUnits;
    assert SumInt(run[..0], SpendColumn()) == 0;
    assert IsTurn(workers, run, 0, 0) && IsServed(workers, run, 0, 0, remaining, minUnits, fee, outcome);
  }

  lemma AfterFailure(workers: seq<WorkerPay>, run: seq<Payout>, j: nat, remaining: int, minUnits: nat, fee: nat, outcome: string -> Outcome)
    requires 0 < j < |workers| && |run| == 1 && run[0].workerId == workers[0].workerId && !outcome(run[0].workerId).Taken?
    ensures ServesInTurn(workers, run, j, remaining, minUnits, fee, outcome)
  {
    hide FloorUnits;
    assert IsAmong(workers, j, run[0].workerId);
    assert IsTurn(workers, run, j, 1) && IsServed(workers, run, j, 1, remaining, minUnits, fee, outcome);
  }

  lemma SkipTurn(
    workers: seq<WorkerPay>, run: seq<Payout>, j: nat, remaining: int, minUnits: nat, fee: nat, outcome: string -> Outcome)
    requires 0 < j < |workers| && forall p :: p in run ==> p.workerId != workers[0].workerId
    requires ServesInTurn(workers[1..], run, j - 1, remaining, minUnits, fee, outcome)
    ensures ServesInTurn(workers, run, j, remaining, minUnits, fee, outcome)
  {
    hide FloorUnits, IsAmong;
    var n :| 0 <= n <= |run| && IsTurn(workers[1..], run, j - 1, n) && IsServed(workers[1..], run, j - 1, n, remaining, minUnits, fee, outcome);
    forall k | 0 <= k < |run| ensures IsAmong(workers, j, run[k].workerId) <==> k < n {
      assert run[k] in run;
      AmongNext(workers, j, run[k].workerId);
    }
    assert workers[1..][j - 1] == workers[j];
    assert IsTurn(workers, run, j, n) && IsServed(workers, run, j, n, remaining, minUnits, fee, outcome);
  }

  lemma PaidTurn(
    workers: seq<WorkerPay>, p: Payout, rest: seq<Payout>, j: nat, remaining: int, minUnits: nat, fee: nat, outcome: string -> Outcome)
    requires 0 < j < |workers| && p.workerId == workers[0].workerId && outcome(p.workerId).Taken?
    requires forall q :: q in rest ==> q.workerId != workers[0].workerId
    requires ServesInTurn(workers[1..], rest, j - 1, remaining - (p.units + p.fee), minUnits, fee, outcome)
    ensures ServesInTurn(workers, [p] + rest, j, remaining, minUnits, fee, outcome)
  {
    hide FloorUnits, IsAmong;
    var run, left := [p] + rest, remaining - (p.units + p.fee);
    var m :| 0 <= m <= |rest| && IsTurn(workers[1..], rest, j - 1, m) && IsServed(workers[1..], rest, j - 1, m, left, minUnits, fee, outcome);
    forall k | 0 <= k < |run| ensures IsAmong(workers, j, run[k].workerId) <==> k < m + 1 {
      AmongNext(workers, j, run[k].workerId);
      if k > 0 { assert run[k] == rest[k - 1] && rest[k - 1] in rest; }
    }
    assert workers[1..][j - 1] == workers[j];
    assert run[..m + 1][0] == p && run[..m + 1][1..] == rest[..m];
    assert SumInt(run[..m + 1], SpendColumn()) == p.units + p.fee + SumInt(rest[..m], SpendColumn());
    assert forall k :: 0 <= k < m ==> run[k + 1] == rest[k];
    assert forall k :: 1 <= k < m + 1 ==> run[k] == rest[k - 1];
    assert IsTurn(workers, run, j, m + 1) && IsServed(workers, run, j, m + 1, remaining, minUnits, fee, outcome);
  }

  /** Every payout is for the pending amount of one listed worker, cut to whole units and not below the minimum. */
  predicate PaysOne(p: Payout, w: WorkerPay, minUnits: nat, fee: nat)
  {
    p.workerId == w.workerId && w.address == Some(p.address) && p.units == FloorUnits(w.pending) && p.units >= minUnits && p.fee == fee
  }

  predicate PaysSome(p: Payout, workers: seq<WorkerPay>, minUnits: nat, fee: nat)
  {
    exists w :: w in workers && PaysOne(p, w, minUnits, fee)
  }

  predicate DistinctPayees(run: seq<Payout>)
  {
    forall i, j :: 0 <= i < j < |run| ==> run[i].workerId != run[j].workerId
  }

  predicate DistinctWorkers(workers: seq<WorkerPay>)
  {
    forall i, j :: 0 <= i < j < |workers| ==> workers[i].workerId != workers[j].workerId
  }

  lemma PaysSomeMore(run: seq<Payout>, workers: seq<WorkerPay>, minUnits: nat, fee: nat)
    requires workers != [] && forall p :: p in run ==> PaysSome(p, workers[1..], minUnits, fee)
    requires DistinctWorkers(workers)
    ensures forall p :: p in run ==> PaysSome(p, workers, minUnits, fee) && p.workerId != workers[0].workerId
  {
    forall p | p in run ensures PaysSome(p, workers, minUnits, fee) && p.workerId != workers[0].workerId {
      var w :| w in workers[1..] && PaysOne(p, w, minUnits, fee);
      assert w in workers;
    }
  }

  lemma {:induction false} RunPaysListed(workers: seq<WorkerPay>, outcomes: seq<Outcome>, remaining: nat, nonce: int, minUnits: nat, fee: nat)
    requires |outcomes| == |workers| && forall p :: p in workers ==> p.address.Some?
    requires DistinctWorkers(workers)
    ensures var run := RunFrom(workers, outcomes, remaining, nonce, minUnits, fee);
            (forall p :: p in run ==> PaysSome(p, workers, minUnits, fee)) && DistinctPayees(run)
    decreases |workers|
  {
    hide PaysSome;
    if workers != [] {
      var units := FloorUnits(workers[0].pending);
      var run := RunFrom(workers, outcomes, remaining, nonce, minUnits, fee);
      if units < minUnits || units + fee > remaining {
        RunPaysListed(workers[1..], outcomes[1..], remaining, nonce, minUnits, fee);
        PaysSomeMore(run, workers, minUnits, fee);
      } else {
        PaysFirst(run[0], workers, minUnits, fee);
        if outcomes[0].Taken? {
          var rest := RunFrom(workers[1..], outcomes[1..], remaining - (units + fee), nonce + 1, minUnits, fee);
          RunPaysListed(workers[1..], outcomes[1..], remaining - (units + fee), nonce + 1, minUnits, fee);
          PaysSomeMore(rest, workers, minUnits, fee);
          assert run == [run[0]] + rest;
        }
      }
    }
  }

  lemma PaysFirst(p: Payout, workers: seq<WorkerPay>, minUnits: nat, fee: nat)
    requires workers != [] && PaysOne(p, workers[0], minUnits, fee)
    ensures PaysSome(p, workers, minUnits, fee)
  {
    assert workers[0] in workers;
  }

  lemma AnswersFrom(workers: seq<WorkerPay>, outcomes: seq<Outcome>, outcome: string -> Outcome)
    requires |outcomes| == |workers| && forall i :: 0 <= i < |workers| ==> outcomes[i] == outcome(workers[i].workerId)
    ensures AnswersAre(workers, outcomes, outcome)
  {
  }

  // ----- sums over the table

  lemma {:induction false} PaidIsLive(payouts: seq<Payout>, w: string)
    requires w != ""
    ensures PaidOf(PaidRows(payouts), w) == Coins(LiveUnits(payouts, w))
  {
    if payouts != [] {
      PaidIsLive(payouts[1..], w);
      var head := if IsLive(payouts[0]) then [AsRow(payouts[0])] else [];
      SumRealAppend(head, PaidRows(payouts[1..]), PaidFor(w));
      assert IsLive(payouts[0]) ==> head[1..] == [] && SumReal(head[1..], PaidFor(w)) == 0.0;
      assert payouts[0].units == 0 ==> Coins(payouts[0].units) == 0.0;
      assert payouts[0].units > 0 ==> Coins(payouts[0].units) > 0.0;
    }
  }

  /** A run adds at most one payout per worker to what was live before. */
  lemma LiveAfterRun(payouts: seq<Payout>, run: seq<Payout>, k: nat)
    requires k < |run| && DistinctPayees(run)
    ensures LiveUnits(payouts + run, run[k].workerId) <= LiveUnits(payouts, run[k].workerId) + run[k].units
  {
    SumIntAppend(payouts, run, LiveFor(run[k].workerId));
    OnePayout(run, k);
  }

  lemma {:induction false} OnePayout(run: seq<Payout>, k: nat)
    requires k < |run| && DistinctPayees(run)
    ensures SumInt(run, LiveFor(run[k].workerId)) == LiveFor(run[k].workerId)(run[k])
    decreases k
  {
    if k == 0 {
      NoPayout(run[1..], run[0].workerId);
    } else {
      OnePayout(run[1..], k - 1);
    }
  }

  lemma {:induction false} NoPayout(run: seq<Payout>, w: string)
    requires forall i :: 0 <= i < |run| ==> run[i].workerId != w
    ensures SumInt(run, LiveFor(w)) == 0
  {
    if run != [] { NoPayout(run[1..], w); }
  }

  lemma {:induction false} FilterKeepsDistinct(listed: seq<WorkerPay>)
    requires DistinctWorkers(listed)
    ensures DistinctWorkers(Filter(listed, IsEligible))
  {
    if listed != [] {
      var r, rest := Filter(listed, IsEligible), Filter(listed[1..], IsEligible);
      FilterKeepsDistinct(listed[1..]);
      if IsEligible(listed[0]) {
        assert r == [listed[0]] + rest;
        forall j | 0 < j < |r| ensures r[j].workerId != listed[0].workerId {
          assert r[j] == rest[j - 1] && rest[j - 1] in listed[1..];
        }
      } else {
        assert r == rest;
      }
    }
  }

  lemma EligibleHaveAddress(listed: seq<WorkerPay>)
    ensures forall p :: p in Filter(listed, IsEligible) ==> p in listed && p.address.Some? && p.payable
  {
  }

  lemma CoinsAdd(a: int, b: int)
    ensures Coins(a + b) == Coins(a) + Coins(b)
    ensures a <= b ==> Coins(a) <= Coins(b)
  {
  }

  /** One new payout: the pending amount cut once, and together with everything live still within the worker's net. */
  lemma PayoutWithinNet(p: Payout, w: WorkerPay, rounds: seq<Round>, rate: real, checked: seq<Payout>, run: seq<Payout>, k: nat, minUnits: nat, fee: nat)
    requires PaysOne(p, w, minUnits, fee) && w.workerId != "" && k < |run| && run[k] == p
    requires DistinctPayees(run)
    requires var due := PendingOf(rounds, rate, PaidRows(checked), w.workerId); due > 0.0 && w.pending == Cut8(due)
    ensures Coins(p.units) <= PendingOf(rounds, rate, PaidRows(checked), p.workerId) < Coins(p.units + 1)
    ensures Coins(LiveUnits(checked + run, p.workerId)) <= NetOf(rounds, rate, p.workerId)
  {
    hide LiveUnits, PaidRows, NetOf, PaidOf, Cut8, FloorUnits, Coins;
    var due := PendingOf(rounds, rate, PaidRows(checked), w.workerId);
    FloorTwice(due);
    FloorUnitsIs(due);
    PaidIsLive(checked, w.workerId);
    LiveAfterRun(checked, run, k);
    CoinsAdd(LiveUnits(checked, p.workerId), p.units);
    CoinsAdd(LiveUnits(checked + run, p.workerId), LiveUnits(checked, p.workerId) + p.units);
  }

  /** A payable worker's listed amount is its pending amount, which is positive. */
  lemma PayableIsDue(listed: seq<WorkerPay>, names: seq<string>, rounds: seq<Round>, rate: real, payouts: seq<PayoutRow>, minPayout: real, w: WorkerPay)
    requires ListsPending(listed, names, rounds, rate, payouts, minPayout) && w in listed && w.payable
    ensures var due := PendingOf(rounds, rate, payouts, w.workerId); due > 0.0 && w.pending == Cut8(due)
  {
  }

  lemma ListedDistinct(listed: seq<WorkerPay>, names: seq<string>, rounds: seq<Round>, rate: real, payouts: seq<PayoutRow>, minPayout: real)
    requires ListsPending(listed, names, rounds, rate, payouts, minPayout)
    ensures DistinctWorkers(listed)
  {
  }

  lemma RunStaysWithinNet(
    listed: seq<WorkerPay>, names: seq<string>, rounds: seq<Round>, rate: real, checked: seq<Payout>, minPayout: real,
    outcomes: seq<Outcome>, spendable: nat, nonce: int, minUnits: nat, fee: nat)
    requires ListsPending(listed, names, rounds, rate, PaidRows(checked), minPayout)
    requires forall p :: p in listed && p.address.Some? ==> p.workerId != ""
    requires |outcomes| == |Filter(listed, IsEligible)| && forall p :: p in Filter(listed, IsEligible) ==> p.address.Some?
    ensures var run := RunFrom(Filter(listed, IsEligible), outcomes, spendable, nonce, minUnits, fee);
            forall k :: 0 <= k < |run| ==>
              && run[k].workerId != "" && run[k].units >= minUnits && run[k].fee == fee
              && Coins(run[k].units) <= PendingOf(rounds, rate, PaidRows(checked), run[k].workerId) < Coins(run[k].units + 1)
              && Coins(LiveUnits(checked + run, run[k].workerId)) <= NetOf(rounds, rate, run[k].workerId)
  {
    hide *;
    var workers := Filter(listed, IsEligible);
    var run := RunFrom(workers, outcomes, spendable, nonce, minUnits, fee);
    ListedDistinct(listed, names, rounds, rate, PaidRows(checked), minPayout);
    FilterKeepsDistinct(listed);
    EligibleHaveAddress(listed);
    RunPaysListed(workers, outcomes, spendable, nonce, minUnits, fee);
    forall k | 0 <= k < |run|
      ensures run[k].workerId != "" && run[k].units >= minUnits && run[k].fee == fee
      ensures Coins(run[k].units) <= PendingOf(rounds, rate, PaidRows(checked), run[k].workerId) < Coins(run[k].units + 1)
      ensures Coins(LiveUnits(checked + run, run[k].workerId)) <= NetOf(rounds, rate, run[k].workerId)
    {
      assert run[k] in run;
      var w := PaidWorker(run[k], workers, minUnits, fee);
      PayableIsDue(listed, names, rounds, rate, PaidRows(checked), minPayout, w);
      PayoutWithinNet(run[k], w, rounds, rate, checked, run, k, minUnits, fee);
    }
  }

  lemma PaidWorker(p: Payout, workers: seq<WorkerPay>, minUnits: nat, fee: nat) returns (w: WorkerPay)
    requires PaysSome(p, workers, minUnits, fee)
    ensures w in workers && PaysOne(p, w, minUnits, fee)
    ensures p.workerId == w.workerId && p.units >= minUnits && p.fee == fee
  {
    w :| w in workers && PaysOne(p, w, minUnits, fee);
  }

  // ----- status reconciliation

  /** What the node says about a payout transaction; `missing` covers every form of "not found". */
  datatype TxReply = LookupFailed | Answer(status: string, missing: bool, age: int)

  function Decide(reply: TxReply, grace: int, healthy: bool): Option<PayoutStatus>
  {
    if reply.LookupFailed? then None
    else if reply.status == "confirmed" then Some(Confirmed)
    else if reply.status in ["pending", "selected", "submitted", "mempool"] then Some(Sent)
    else if reply.missing && reply.age < grace then None
    else if (reply.missing || reply.status in ["expired", "failed", "rejected", "error"]) && healthy then Some(Released)
    else None
  }

  function Reconciled(p: Payout, reply: TxReply, grace: int, healthy: bool): Payout
  {
    var d := Decide(reply, grace, healthy);
    if d.Some? then p.(status := d.value) else p
  }

  function ReservedBefore(payouts: seq<Payout>, i: nat): nat
    requires i <= |payouts|
  {
    if i == 0 then 0 else ReservedBefore(payouts, i - 1) + if IsReserved(payouts[i - 1]) then 1 else 0
  }

  /** The oldest reserved payouts, at most `limit` of them. */
  predicate IsChecked(payouts: seq<Payout>, limit: nat, i: nat)
    requires i < |payouts|
  {
    IsReserved(payouts[i]) && ReservedBefore(payouts, i) < limit
  }

  /** The table after a reconciliation. */
  function AfterReconcile(payouts: seq<Payout>, replies: seq<TxReply>, limit: nat, grace: int, healthy: bool): (r: seq<Payout>)
    requires |replies| == |payouts|
    ensures |r| == |payouts|
    ensures forall i :: 0 <= i < |payouts| ==>
              r[i] == if IsChecked(payouts, limit, i) then Reconciled(payouts[i], replies[i], grace, healthy) else payouts[i]
  {
    seq(|payouts|, i requires 0 <= i < |payouts| =>
      if IsChecked(payouts, limit, i) then Reconciled(payouts[i], replies[i], grace, healthy) else payouts[i])
  }

  /** What the node's answer makes of a payout that is checked: confirmed, still under way, or released; a transaction that is
      missing only for a short time, an answer nobody expects, and an unhealthy node release nothing. */
  lemma ReconcileDecides(payouts: seq<Payout>, replies: seq<TxReply>, limit: nat, grace: int, healthy: bool, i: nat)
    requires |replies| == |payouts| && i < |payouts| && IsChecked(payouts, limit, i)
    ensures var p, r := AfterReconcile(payouts, replies, limit, grace, healthy)[i], replies[i];
            && p == payouts[i].(status := p.status)
            && (p.status.Confirmed? <==> r.Answer? && r.status == "confirmed")
            && (p.status.Released? <==>
                  && r.Answer? && healthy && r.status !in ["confirmed", "pending", "selected", "submitted", "mempool"]
                  && (if r.missing then r.age >= grace else r.status in ["expired", "failed", "rejected", "error"]))
            && (p.status.Submitting? ==> payouts[i].status.Submitting?)
            && (r.Answer? && r.status in ["pending", "selected", "submitted", "mempool"] ==> p.status.Sent?)
  {
  }

  /** Reconciling only ever confirms or releases: nobody's live amount and no reservation grows, final rows stay. */
  lemma ReconcileOnlyReleases(payouts: seq<Payout>, replies: seq<TxReply>, limit: nat, grace: int, healthy: bool, w: string)
    requires |replies| == |payouts|
    ensures var after := AfterReconcile(payouts, replies, limit, grace, healthy);
            && LiveUnits(after, w) <= LiveUnits(payouts, w)
            && ReservedUnits(after) <= ReservedUnits(payouts)
            && (forall i :: 0 <= i < |payouts| && !IsReserved(payouts[i]) ==> after[i] == payouts[i])
            && (!healthy ==> LiveUnits(after, w) == LiveUnits(payouts, w))
  {
    var after := AfterReconcile(payouts, replies, limit, grace, healthy);
    SumAtMost(payouts, after, LiveFor(w));
    SumAtMost(payouts, after, ReservedColumn());
    if !healthy { SumAtMost(after, payouts, LiveFor(w)); }
  }

  lemma {:induction false} SumAtMost(a: seq<Payout>, b: seq<Payout>, f: Payout -> int)
    requires |a| == |b| && forall i :: 0 <= i < |a| ==> f(b[i]) <= f(a[i])
    ensures SumInt(b, f) <= SumInt(a, f)
  {
    if a != [] { SumAtMost(a[1..], b[1..], f); }
  }

  // ----- the coordinator's payout table

  class PayoutTable {
    var payouts: seq<Payout>

    constructor ()
      ensures payouts == []
    {
      payouts := [];
    }

    /** The oldest payouts that wait for confirmation. */
    method CheckList(limit: nat) returns (list: seq<nat>)
      ensures forall i: nat :: i in list <==> i < |payouts| && IsChecked(payouts, limit, i)
      ensures forall j, k :: 0 <= j < k < |list| ==> list[j] < list[k]
    {
      list := [];
      for i := 0 to |payouts|
        invariant forall k: nat :: k in list <==> k < i && IsChecked(payouts, limit, k)
        invariant forall j, k :: 0 <= j < k < |list| ==> list[j] < list[k]
        invariant forall j :: 0 <= j < |list| ==> list[j] < i
        invariant |list| == Min(limit, ReservedBefore(payouts, i))
      {
        if IsReserved(payouts[i]) && |list| < limit { list := list + [i]; }
      }
    }

    method ReconcileStatuses(replies: seq<TxReply>, limit: nat, grace: int, healthy: bool)
      requires |replies| == |payouts|
      modifies this
      ensures payouts == AfterReconcile(old(payouts), replies, limit, grace, healthy)
    {
      var list := CheckList(limit);
      for k := 0 to |list|
        invariant |payouts| == |old(payouts)|
        invariant forall i :: 0 <= i < |payouts| ==>
                    payouts[i] == if i in list[..k] then Reconciled(old(payouts)[i], replies[i], grace, healthy) else old(payouts)[i]
      {
        var i := list[k];
        assert i in list && i !in list[..k];
        assert list[..k + 1] == list[..k] + [i];
        var reply := replies[i];
        if reply.LookupFailed? { continue; }
        if reply.status == "confirmed" {
          payouts := payouts[i := payouts[i].(status := Confirmed)];
          continue;
        }
        if reply.status in ["pending", "selected", "submitted", "mempool"] {
          payouts := payouts[i := payouts[i].(status := Sent)];
          continue;
        }
        if reply.missing && reply.age < grace { continue; }
        if !reply.missing && reply.status !in ["expired", "failed", "rejected", "error"] { continue; }
        if !healthy { continue; }
        payouts := payouts[i := payouts[i].(status := Released)];
      }
      assert list[..|list|] == list;
    }

    /** Inserts, submits and marks one payout after another. */
    method SendPayouts(workers: seq<WorkerPay>, outcomes: seq<Outcome>, spendable: nat, firstNonce: int, minUnits: nat, fee: nat)
      returns (submitted: nat)
      requires |outcomes| == |workers| && forall p :: p in workers ==> p.address.Some?
      modifies this
      ensures payouts == old(payouts) + RunFrom(workers, outcomes, spendable, firstNonce, minUnits, fee)
      ensures submitted <= |payouts| - |old(payouts)| <= submitted + 1
    {
      var remaining, nonce := spendable, firstNonce;
      submitted := 0;
      ghost var all := RunFrom(workers, outcomes, spendable, firstNonce, minUnits, fee);
      for i := 0 to |workers|
        invariant |payouts| == |old(payouts)| + submitted
        invariant payouts + RunFrom(workers[i..], outcomes[i..], remaining, nonce, minUnits, fee) == old(payouts) + all
      {
        var p := workers[i];
        var units := FloorUnits(p.pending);
        assert workers[i..][1..] == workers[i + 1..] && outcomes[i..][1..] == outcomes[i + 1..];
        if units < minUnits { continue; }
        var total := units + fee;
        if total > remaining { continue; }
        var at := |payouts|;
        ghost var before := payouts;
        payouts := payouts + [Payout(p.workerId, p.address.value, units, fee, nonce, Submitting)];
        match outcomes[i] {
          case Taken =>
            payouts := payouts[at := payouts[at].(status := Sent)];
            assert payouts == before + [Payout(p.workerId, p.address.value, units, fee, nonce, Sent)];
            submitted := submitted + 1;
            nonce := nonce + 1;
            remaining := Max(0, remaining - total);
          case Unclear =>
            payouts := payouts[at := payouts[at].(status := Sent)];
            assert payouts == before + [Payout(p.workerId, p.address.value, units, fee, nonce, Sent)];
            return;
          case Refused =>
            payouts := payouts[at := payouts[at].(status := Released)];
            assert payouts == before + [Payout(p.workerId, p.address.value, units, fee, nonce, Released)];
            return;
        }
      }
    }

    /** A whole run: reconcile, recompute the pending amounts, pay the eligible workers in order. */
    method RunPayouts(
      rewards: seq<RewardRow>, shareRows: seq<ShareRow>, workerRows: seq<WorkerRow>, feePercent: real, minAmount: real,
      replies: seq<TxReply>, limit: nat, grace: int, healthy: bool,
      firstNonce: int, balance: Option<int>, minUnits: nat, fee: nat, outcome: string -> Outcome)
      returns (ghost checked: seq<Payout>, ghost listed: seq<WorkerPay>, ghost names: seq<string>, ghost run: seq<Payout>)
      requires |replies| == |payouts|
      requires forall row :: row in workerRows ==> row.workerId != ""
      modifies this
      ensures checked == AfterReconcile(old(payouts), replies, limit, grace, healthy)
      ensures payouts == checked + run
      ensures balance.None? ==> run == []
      ensures balance.Some? ==> SumInt(run, SpendColumn()) <= Max(0, balance.value - ReservedUnits(checked))
      ensures InSequence(run, firstNonce) && FollowsAnswers(run, outcome)
      ensures ListsPending(listed, names, AllRounds(rewards, Filter(shareRows, IsValidShare)), FeeRate(feePercent), PaidRows(checked), Max0(minAmount))
      ensures Sorted(PaidBefore, listed)
      ensures forall k :: 0 <= k < |run| ==> PaysSome(run[k], Filter(listed, IsEligible), minUnits, fee)
      ensures balance.Some? ==>
                var workers, spendable := Filter(listed, IsEligible), Max(0, balance.value - ReservedUnits(checked));
                forall j :: 0 <= j < |workers| ==> ServesInTurn(workers, run, j, spendable, minUnits, fee, outcome)
      ensures var rounds, rate := AllRounds(rewards, Filter(shareRows, IsValidShare)), FeeRate(feePercent);
              forall k :: 0 <= k < |run| ==>
                && run[k].workerId != "" && run[k].units >= minUnits && run[k].fee == fee
                && Coins(run[k].units) <= PendingOf(rounds, rate, PaidRows(checked), run[k].workerId) < Coins(run[k].units + 1)
                && Coins(LiveUnits(payouts, run[k].workerId)) <= NetOf(rounds, rate, run[k].workerId)
    {
      hide *;
      ReconcileStatuses(replies, limit, grace, healthy);
      checked := payouts;
      run := [];
      NothingSent(firstNonce, outcome);
      var summary := SummarizeRoundWindowPayouts(rewards, shareRows, workerRows, PaidRows(payouts), feePercent, minAmount);
      listed, names := summary.workers, summary.names;
      var workers := Filter(summary.workers, IsEligible);
      if balance.None? { return; }
      var reserved := ReservedUnits(payouts);
      var spendable := Max(0, balance.value - reserved);
      var outcomes := seq(|workers|, i requires 0 <= i < |workers| => outcome(workers[i].workerId));
      EligibleHaveAddress(summary.workers);
      var submitted := SendPayouts(workers, outcomes, spendable, firstNonce, minUnits, fee);
      run := RunFrom(workers, outcomes, spendable, firstNonce, minUnits, fee);
      RunSpends(workers, outcomes, spendable, firstNonce, minUnits, fee);
      RunNonces(workers, outcomes, spendable, firstNonce, minUnits, fee);
      AnswersFrom(workers, outcomes, outcome);
      RunFollowsAnswers(workers, outcomes, spendable, firstNonce, minUnits, fee, outcome);
      ListedDistinct(listed, names, AllRounds(rewards, Filter(shareRows, IsValidShare)), FeeRate(feePercent), PaidRows(checked), Max0(minAmount));
      FilterKeepsDistinct(listed);
      RunPaysListed(workers, outcomes, spendable, firstNonce, minUnits, fee);
      assert forall k :: 0 <= k < |run| ==> run[k] in run;
      forall j | 0 <= j < |workers|
        ensures ServesInTurn(workers, run, j, spendable, minUnits, fee, outcome)
      {
        EveryWorkerServed(workers, outcomes, spendable, firstNonce, minUnits, fee, outcome, j);
      }
      ghost var rounds, rate := AllRounds(rewards, Filter(shareRows, IsValidShare)), FeeRate(feePercent);
      RunStaysWithinNet(summary.workers, summary.names, rounds, rate, checked, Max0(minAmount), outcomes, spendable, firstNonce, minUnits, fee);
    }
  }
}
