/** Checkpointed scanning of native transfers, with polls that are cut short between any two writes. */
module MarketplaceScanner {
  import opened Prelude
  import opened Sums
  import opened MarketplaceLedger
  import opened MarketplaceConfirmations

  /** What stays fixed while one scanner polls: reference data, the order of deposit ids, and the deposit requests found in
      each block. */
  datatype Setup = Setup(
    reg: Registry, chain: string, required: int, batch: int, rank: DepositKey -> int, content: int -> seq<DepositRequest>)

  ghost predicate SetupOk(u: Setup)
  {
    && u.batch >= 1 && u.required >= 1
    && forall h, q :: q in u.content(h) ==> q.chain == u.chain
  }

  datatype Scanner = Scanner(store: Store, checkpoint: Option<int>)

  /** Where a poll ended: in block `height` after `taken` of its requests, in some row while processing confirmations, just
      before writing the checkpoint, or in full. */
  datatype Stop = InScan(height: int, taken: nat) | InConfirm(at: Cut) | BeforeCheckpoint | Finished

  datatype Poll = Poll(latest: int, stop: Stop)

  // ----- one poll

  function ResolveScanFromBlock(explicit: Option<int>, checkpoint: Option<int>, latest: int, batch: int): int
  {
    if explicit.Some? then explicit.value
    else if checkpoint.Some? then checkpoint.value + 1
    else Max(0, latest - batch + 1)
  }

  function FromBlock(u: Setup, s: Scanner, latest: int): int { ResolveScanFromBlock(None, s.checkpoint, latest, u.batch) }

  function ToBlock(u: Setup, s: Scanner, latest: int): int { Min(latest, FromBlock(u, s, latest) + u.batch - 1) }

  /** The requests of blocks lo to hi. */
  function Requests(content: int -> seq<DepositRequest>, lo: int, hi: int): seq<DepositRequest>
    decreases hi - lo
  {
    if hi < lo then [] else Requests(content, lo, hi - 1) + content(hi)
  }

  /** The requests of all blocks from lo that lie below h, and the first j of block h. */
  function Upto(content: int -> seq<DepositRequest>, lo: int, h: int, j: nat): seq<DepositRequest>
  {
    Requests(content, lo, h - 1) + content(h)[..Min(j, |content(h)|)]
  }

  function AcceptInto(deposits: seq<Deposit>, reg: Registry, q: DepositRequest): seq<Deposit>
  {
    var d := Checked(reg, q);
    if d.Failure? || HasDeposit(deposits, d.value.key) then deposits else deposits + [d.value]
  }

  function AcceptAll(deposits: seq<Deposit>, reg: Registry, qs: seq<DepositRequest>): seq<Deposit>
  {
    if qs == [] then deposits else AcceptInto(AcceptAll(deposits, reg, qs[..|qs| - 1]), reg, qs[|qs| - 1])
  }

  /** The block and the number of its requests at which a poll's scan ends. */
  function EndOf(u: Setup, s: Scanner, p: Poll): (int, nat)
  {
    if p.stop.InScan? then (p.stop.height, p.stop.taken) else (ToBlock(u, s, p.latest) + 1, 0)
  }

  /** Confirmations are processed only for a positive latest block; with 0 the request is refused and the poll ends. */
  predicate Processes(p: Poll) { !p.stop.InScan? && p.latest > 0 }

  function Scanned(u: Setup, s: Scanner, p: Poll): Store
  {
    s.store.(deposits := AcceptAll(s.store.deposits, u.reg, Upto(u.content, FromBlock(u, s, p.latest), EndOf(u, s, p).0, EndOf(u, s, p).1)))
  }

  /** The rows a poll has to process. */
  function RowsOf(u: Setup, s: Scanner, p: Poll): seq<PendingRow> { PendingList(Scanned(u, s, p).deposits, u.chain, u.rank) }

  /** A poll can only end inside the range it scans, inside a block only after part of its requests, and in a row it has to
      process. */
  predicate PollOk(u: Setup, s: Scanner, p: Poll)
  {
    && (p.stop.InScan? ==>
          && FromBlock(u, s, p.latest) <= p.stop.height <= ToBlock(u, s, p.latest) + 1
          && (p.stop.taken > 0 ==> p.stop.height <= ToBlock(u, s, p.latest) && p.stop.taken < |u.content(p.stop.height)|))
    && (p.stop.InConfirm? ==> p.latest > 0 && p.stop.at.row < |RowsOf(u, s, p)| && !p.stop.at.stage.Done?)
  }

  function CutOf(p: Poll): Option<Cut> { if p.stop.InConfirm? then Some(p.stop.at) else None }

  function PollStep(u: Setup, s: Scanner, p: Poll): Scanner
  {
    var scanned := Scanned(u, s, p);
    if !Processes(p) then Scanner(scanned, s.checkpoint)
    else
      Scanner(Process(scanned, u.chain, u.rank, p.latest, u.required, CutOf(p)),
              if p.stop.Finished? then Some(ToBlock(u, s, p.latest)) else s.checkpoint)
  }

  // ----- runs

  /** The scanner after some polls. */
  function After(u: Setup, polls: seq<Poll>): Scanner
  {
    if polls == [] then Scanner(NOTHING, None)
    else PollStep(u, After(u, polls[..|polls| - 1]), polls[|polls| - 1])
  }

  /** Polls that can follow one another: the chain's latest block never goes back. */
  predicate IsPolling(u: Setup, polls: seq<Poll>)
  {
    polls == [] ||
    var front, p := polls[..|polls| - 1], polls[|polls| - 1];
    && IsPolling(u, front)
    && PollOk(u, After(u, front), p)
    && p.latest >= 0
    && (front != [] ==> front[|front| - 1].latest <= p.latest)
  }

  function Blocks(from: int, end: int): (r: set<int>)
    ensures forall b :: b in r <==> from <= b < end
    decreases end - from
  {
    if from >= end then {} else {from} + Blocks(from + 1, end)
  }

  /** The blocks a poll scans completely. */
  function Completed(u: Setup, s: Scanner, p: Poll): set<int> { Blocks(FromBlock(u, s, p.latest), EndOf(u, s, p).0) }

  predicate Touches(u: Setup, s: Scanner, p: Poll)
  {
    FromBlock(u, s, p.latest) < EndOf(u, s, p).0 || EndOf(u, s, p).1 > 0
  }

  /** The highest block a poll reads from. */
  function TopOf(u: Setup, s: Scanner, p: Poll): int
  {
    if EndOf(u, s, p).1 > 0 then EndOf(u, s, p).0 else EndOf(u, s, p).0 - 1
  }

  /** Lowest start, highest block read from, and completely scanned blocks of all polls that read something. */
  datatype History = Nothing | History(lowest: int, top: int, complete: set<int>)

  function HistoryNext(u: Setup, s: Scanner, h: History, p: Poll): History
  {
    if !Touches(u, s, p) then h
    else if h.Nothing? then History(FromBlock(u, s, p.latest), TopOf(u, s, p), Completed(u, s, p))
    else History(Min(h.lowest, FromBlock(u, s, p.latest)), Max(h.top, TopOf(u, s, p)), h.complete + Completed(u, s, p))
  }

  function HistoryOf(u: Setup, polls: seq<Poll>): History
  {
    if polls == [] then Nothing
    else HistoryNext(u, After(u, polls[..|polls| - 1]), HistoryOf(u, polls[..|polls| - 1]), polls[|polls| - 1])
  }

  /** Every block from the first start up to the highest one read was scanned completely, but for the highest itself. */
  predicate GapFree(h: History)
  {
    h.Nothing? || forall b :: h.lowest <= b < h.top ==> b in h.complete
  }

  /** The first block that is not scanned completely, and how much of it is. */
  datatype Front = NoFront | Front(lo: int, h: int, j: nat)

  function Further(f: Front, end: (int, nat)): Front
    requires f.Front?
  {
    if end.0 > f.h || (end.0 == f.h && end.1 > f.j) then Front(f.lo, end.0, end.1) else f
  }

  function FrontNext(u: Setup, s: Scanner, f: Front, p: Poll): Front
  {
    if !Touches(u, s, p) then f
    else if f.NoFront? then Front(FromBlock(u, s, p.latest), EndOf(u, s, p).0, EndOf(u, s, p).1)
    else Further(f, EndOf(u, s, p))
  }

  function FrontOf(u: Setup, polls: seq<Poll>): Front
  {
    if polls == [] then NoFront
    else FrontNext(u, After(u, polls[..|polls| - 1]), FrontOf(u, polls[..|polls| - 1]), polls[|polls| - 1])
  }

  /** A poll that reads something starts no later than the first block not yet scanned completely. */
  predicate InTimeFor(u: Setup, s: Scanner, f: Front, p: Poll)
  {
    f.Front? && Touches(u, s, p) ==> FromBlock(u, s, p.latest) <= f.h
  }

  predicate StartsInTime(u: Setup, polls: seq<Poll>)
  {
    polls == [] ||
    var front, p := polls[..|polls| - 1], polls[|polls| - 1];
    StartsInTime(u, front) && InTimeFor(u, After(u, front), FrontOf(u, front), p)
  }

  // ----- accepting a list of requests

  lemma {:induction false} AcceptAppend(deposits: seq<Deposit>, reg: Registry, a: seq<DepositRequest>, b: seq<DepositRequest>)
    ensures AcceptAll(deposits, reg, a + b) == AcceptAll(AcceptAll(deposits, reg, a), reg, b)
    decreases |b|
  {
    if b == [] {
      assert a + b == a;
    } else {
      AcceptAppend(deposits, reg, a, b[..|b| - 1]);
      assert (a + b)[..|a + b| - 1] == a + b[..|b| - 1];
    }
  }

  lemma HasDepositAppend(deposits: seq<Deposit>, d: Deposit)
    ensures forall key :: HasDeposit(deposits + [d], key) <==> HasDeposit(deposits, key) || key == d.key
  {
    var more := deposits + [d];
    assert more[|deposits|] == d;
    forall key ensures HasDeposit(more, key) <==> HasDeposit(deposits, key) || key == d.key {
      if HasDeposit(deposits, key) {
        var i :| 0 <= i < |deposits| && deposits[i].key == key;
        assert more[i].key == key;
      }
    }
  }

  /** A request whose key was refused or stored before is no news. */
  predicate IsKnown(deposits: seq<Deposit>, reg: Registry, q: DepositRequest)
  {
    Checked(reg, q).Failure? || HasDeposit(deposits, Checked(reg, q).value.key)
  }

  lemma {:induction false} AcceptedAreKnown(deposits: seq<Deposit>, reg: Registry, qs: seq<DepositRequest>)
    ensures forall q :: q in qs ==> IsKnown(AcceptAll(deposits, reg, qs), reg, q)
    ensures forall q :: IsKnown(deposits, reg, q) ==> IsKnown(AcceptAll(deposits, reg, qs), reg, q)
  {
    if qs != [] {
      var front, q := qs[..|qs| - 1], qs[|qs| - 1];
      AcceptedAreKnown(deposits, reg, front);
      var before := AcceptAll(deposits, reg, front);
      if !IsKnown(before, reg, q) { HasDepositAppend(before, Checked(reg, q).value); }
      assert qs == front + [q];
    }
  }

  lemma {:induction false} KnownChangeNothing(deposits: seq<Deposit>, reg: Registry, qs: seq<DepositRequest>)
    requires forall q :: q in qs ==> IsKnown(deposits, reg, q)
    ensures AcceptAll(deposits, reg, qs) == deposits
  {
    if qs != [] {
      KnownChangeNothing(deposits, reg, qs[..|qs| - 1]);
      assert qs[|qs| - 1] in qs && IsKnown(deposits, reg, qs[|qs| - 1]);
    }
  }

  /** Reading a piece x of a stream again: what was accepted is the longer of the two stretches, each request once. */
  lemma RescanJoins(reg: Registry, a: seq<DepositRequest>, b: seq<DepositRequest>, p: seq<DepositRequest>, x: seq<DepositRequest>)
    requires b == p + x && p <= a && (a <= b || b <= a)
    ensures AcceptAll(AcceptAll([], reg, a), reg, x) == AcceptAll([], reg, if |a| <= |b| then b else a)
  {
    AcceptedAreKnown([], reg, a);
    if |a| <= |b| {
      assert a <= b by { if b <= a { assert b == a; } }
      var y, z := a[|p|..], b[|a|..];
      assert x == y + z && b == a + z;
      AcceptAppend(AcceptAll([], reg, a), reg, y, z);
      AcceptAppend([], reg, a, z);
      assert forall q :: q in y ==> q in a;
      KnownChangeNothing(AcceptAll([], reg, a), reg, y);
    } else {
      assert forall q :: q in x ==> q in b && q in a;
      KnownChangeNothing(AcceptAll([], reg, a), reg, x);
    }
  }

  // ----- the stream of requests

  lemma {:induction false} RequestsSplit(content: int -> seq<DepositRequest>, lo: int, mid: int, hi: int)
    requires lo <= mid <= hi + 1
    ensures Requests(content, lo, hi) == Requests(content, lo, mid - 1) + Requests(content, mid, hi)
    decreases hi - mid
  {
    if mid == hi + 1 {
      assert Requests(content, lo, mid - 1) + [] == Requests(content, lo, mid - 1);
    } else {
      RequestsSplit(content, lo, mid, hi - 1);
      Reassociate(Requests(content, lo, mid - 1), Requests(content, mid, hi - 1), content(hi));
    }
  }

  lemma Reassociate<T>(a: seq<T>, b: seq<T>, c: seq<T>)
    ensures (a + b) + c == a + (b + c)
  {
  }

  lemma UptoSplit(content: int -> seq<DepositRequest>, lo: int, from: int, h: int, j: nat)
    requires lo <= from <= h
    ensures Upto(content, lo, h, j) == Requests(content, lo, from - 1) + Upto(content, from, h, j)
  {
    RequestsSplit(content, lo, from, h - 1);
    Reassociate(Requests(content, lo, from - 1), Requests(content, from, h - 1), content(h)[..Min(j, |content(h)|)]);
  }

  /** Further along the stream means a longer stretch of it. */
  lemma UptoGrows(content: int -> seq<DepositRequest>, lo: int, h: int, j: nat, h': int, j': nat)
    requires lo <= h && (h < h' || (h == h' && j <= j'))
    ensures Upto(content, lo, h, j) <= Upto(content, lo, h', j')
  {
    if h < h' {
      RequestsSplit(content, lo, h, h' - 1);
      RequestsSplit(content, h, h + 1, h' - 1);
      assert Requests(content, h, h - 1) == [];
      assert Requests(content, h, h) == content(h);
    }
  }

  lemma UptoStart(content: int -> seq<DepositRequest>, lo: int, from: int, h: int, j: nat)
    requires lo <= from <= h
    ensures Requests(content, lo, from - 1) <= Upto(content, lo, h, j)
  {
    UptoSplit(content, lo, from, h, j);
  }

  lemma Comparable<T>(a: seq<T>, b: seq<T>)
    requires a <= b || b <= a
    ensures |a| <= |b| ==> a <= b
    ensures |a| >= |b| ==> b <= a
  {
  }

  /** One more poll that starts in time extends the scanned stretch or leaves it. */
  lemma PollJoins(u: Setup, f: Front, from: int, end: (int, nat))
    requires f.Front? && f.lo <= from <= f.h && from <= end.0
    ensures var g := Further(f, end);
            AcceptAll(AcceptAll([], u.reg, Upto(u.content, f.lo, f.h, f.j)), u.reg, Upto(u.content, from, end.0, end.1))
            == AcceptAll([], u.reg, Upto(u.content, g.lo, g.h, g.j))
  {
    var a, b := Upto(u.content, f.lo, f.h, f.j), Upto(u.content, f.lo, end.0, end.1);
    var p, x := Requests(u.content, f.lo, from - 1), Upto(u.content, from, end.0, end.1);
    UptoSplit(u.content, f.lo, from, end.0, end.1);
    UptoStart(u.content, f.lo, from, f.h, f.j);
    if end.0 > f.h || (end.0 == f.h && end.1 > f.j) {
      UptoGrows(u.content, f.lo, f.h, f.j, end.0, end.1);
    } else {
      UptoGrows(u.content, f.lo, end.0, end.1, f.h, f.j);
    }
    Comparable(a, b);
    RescanJoins(u.reg, a, b, p, x);
    if |a| == |b| { assert a == b; }
  }

  // ----- deposits apart from their progress

  /** A deposit row as it was first stored. */
  function Fresh(d: Deposit): Deposit { d.(status := Detected, confirmations := 0) }

  function Deposits(s: Scanner): seq<Deposit> { Column(s.store.deposits, Fresh) }

  lemma FreshKeys(deposits: seq<Deposit>)
    ensures forall key :: HasDeposit(Column(deposits, Fresh), key) <==> HasDeposit(deposits, key)
  {
    var bare := Column(deposits, Fresh);
    forall key ensures HasDeposit(bare, key) <==> HasDeposit(deposits, key) {
      if HasDeposit(deposits, key) {
        var i :| 0 <= i < |deposits| && deposits[i].key == key;
        assert bare[i].key == key;
      }
    }
  }

  lemma {:induction false} FreshAccept(deposits: seq<Deposit>, reg: Registry, qs: seq<DepositRequest>)
    ensures Column(AcceptAll(deposits, reg, qs), Fresh) == AcceptAll(Column(deposits, Fresh), reg, qs)
  {
    if qs != [] {
      var before := AcceptAll(deposits, reg, qs[..|qs| - 1]);
      FreshAccept(deposits, reg, qs[..|qs| - 1]);
      FreshKeys(before);
      var d := Checked(reg, qs[|qs| - 1]);
      if d.Success? {
        assert Fresh(d.value) == d.value;
        assert Column(before + [d.value], Fresh) == Column(before, Fresh) + [d.value];
      }
    }
  }

  lemma FreshProcess(s: Store, chain: string, rank: DepositKey -> int, latest: int, required: int, cut: Option<Cut>)
    ensures Column(Process(s, chain, rank, latest, required, cut).deposits, Fresh) == Column(s.deposits, Fresh)
  {
    hide PendingList, ProcessTo, StageOf, RowsOk;
    var rows := PendingList(s.deposits, chain, rank);
    PendingAre(s.deposits, chain, rank);
    ProcessToIs(s, rows, latest, required, cut);
  }

  /** A poll's deposits are its scan's, whatever it confirms. */
  lemma PollDeposits(u: Setup, s: Scanner, p: Poll)
    ensures Deposits(PollStep(u, s, p))
            == AcceptAll(Deposits(s), u.reg, Upto(u.content, FromBlock(u, s, p.latest), EndOf(u, s, p).0, EndOf(u, s, p).1))
  {
    hide Process, Upto, AcceptAll;
    FreshAccept(s.store.deposits, u.reg, Upto(u.content, FromBlock(u, s, p.latest), EndOf(u, s, p).0, EndOf(u, s, p).1));
    FreshProcess(Scanned(u, s, p), u.chain, u.rank, p.latest, u.required, CutOf(p));
  }

  // ----- the range of one poll

  function LastLatest(polls: seq<Poll>): int { if polls == [] then 0 else polls[|polls| - 1].latest }

  /** The checkpoint lies inside the scanned stretch, and no later poll starts below it. */
  ghost predicate StateOk(u: Setup, polls: seq<Poll>)
  {
    var s, f := After(u, polls), FrontOf(u, polls);
    && (s.checkpoint.Some? ==> f.Front? && -1 <= s.checkpoint.value <= LastLatest(polls) && f.lo <= s.checkpoint.value + 1)
    && (f.Front? ==> f.lo <= f.h && f.lo <= Max(0, LastLatest(polls) - u.batch + 1) && 0 <= f.lo)
  }

  lemma RangeOfPoll(u: Setup, polls: seq<Poll>, p: Poll)
    requires u.batch >= 1 && StateOk(u, polls) && PollOk(u, After(u, polls), p) && LastLatest(polls) <= p.latest && p.latest >= 0
    ensures var s, f := After(u, polls), FrontOf(u, polls);
            var from, end := FromBlock(u, s, p.latest), EndOf(u, s, p);
            && 0 <= from <= end.0 && from <= ToBlock(u, s, p.latest) + 1 && ToBlock(u, s, p.latest) <= p.latest
            && (f.Front? ==> f.lo <= from)
            && (s.checkpoint.None? ==> from == Max(0, p.latest - u.batch + 1))
  {
  }

  lemma {:induction false} StateHolds(u: Setup, polls: seq<Poll>)
    requires u.batch >= 1 && IsPolling(u, polls)
    ensures StateOk(u, polls)
  {
    if polls != [] {
      var front, p := polls[..|polls| - 1], polls[|polls| - 1];
      StateHolds(u, front);
      assert LastLatest(front) <= p.latest;
      RangeOfPoll(u, front, p);
      StateNext(u, polls);
    }
  }

  lemma StateNext(u: Setup, polls: seq<Poll>)
    requires u.batch >= 1 && polls != []
    requires var front, p := polls[..|polls| - 1], polls[|polls| - 1];
             && StateOk(u, front) && LastLatest(front) <= p.latest && p.latest >= 0
             && 0 <= FromBlock(u, After(u, front), p.latest) <= EndOf(u, After(u, front), p).0
             && FromBlock(u, After(u, front), p.latest) <= ToBlock(u, After(u, front), p.latest) + 1
             && ToBlock(u, After(u, front), p.latest) <= p.latest
             && (FrontOf(u, front).Front? ==> FrontOf(u, front).lo <= FromBlock(u, After(u, front), p.latest))
             && (After(u, front).checkpoint.None? ==> FromBlock(u, After(u, front), p.latest) == Max(0, p.latest - u.batch + 1))
    ensures StateOk(u, polls)
  {
    hide Process, AcceptAll, Upto;
    var front, p := polls[..|polls| - 1], polls[|polls| - 1];
    var s := After(u, front);
    assert After(u, polls) == PollStep(u, s, p);
  }

  // ----- in time: no gap, and every block once

  /** While polls start in time, the checkpoint is behind the front, the complete blocks are an interval, and the deposits
      are those of reading each block once. */
  ghost predicate InTime(u: Setup, s: Scanner, f: Front, h: History)
  {
    && (s.checkpoint.Some? ==> f.Front? && s.checkpoint.value + 1 <= f.h)
    && (f.NoFront? <==> h.Nothing?)
    && (f.NoFront? ==> Deposits(s) == [])
    && (f.Front? ==>
          && h.lowest == f.lo && h.top == (if f.j > 0 then f.h else f.h - 1)
          && (forall b :: b in h.complete <==> f.lo <= b < f.h)
          && Deposits(s) == AcceptAll([], u.reg, Upto(u.content, f.lo, f.h, f.j)))
  }

  lemma EmptyScan(u: Setup, from: int)
    ensures Upto(u.content, from, from, 0) == []
  {
  }

  /** A poll's range, given what earlier polls left. */
  predicate RangeOk(u: Setup, s: Scanner, f: Front, p: Poll)
  {
    && 0 <= FromBlock(u, s, p.latest) <= EndOf(u, s, p).0 <= ToBlock(u, s, p.latest) + 1
    && (f.Front? ==> f.lo <= FromBlock(u, s, p.latest) && f.lo <= f.h)
    && (p.stop.Finished? ==> EndOf(u, s, p) == (ToBlock(u, s, p.latest) + 1, 0))
    && (s.checkpoint.None? && p.latest >= 0 && p.stop.Finished? ==> Touches(u, s, p))
  }

  lemma DepositsNext(u: Setup, s: Scanner, f: Front, h: History, p: Poll)
    requires InTime(u, s, f, h) && RangeOk(u, s, f, p) && InTimeFor(u, s, f, p)
    ensures var g := FrontNext(u, s, f, p);
            if g.NoFront? then Deposits(PollStep(u, s, p)) == []
            else Deposits(PollStep(u, s, p)) == AcceptAll([], u.reg, Upto(u.content, g.lo, g.h, g.j))
  {
    hide PollStep, AcceptAll, Upto, Deposits;
    PollDeposits(u, s, p);
    if !Touches(u, s, p) {
      EmptyScan(u, FromBlock(u, s, p.latest));
      NothingAccepted(Deposits(s), u.reg);
    } else if f.Front? {
      PollJoins(u, f, FromBlock(u, s, p.latest), EndOf(u, s, p));
    }
  }

  lemma BlocksNext(u: Setup, s: Scanner, f: Front, h: History, p: Poll)
    requires InTime(u, s, f, h) && RangeOk(u, s, f, p) && InTimeFor(u, s, f, p)
    ensures var g, h' := FrontNext(u, s, f, p), HistoryNext(u, s, h, p);
            && (g.NoFront? <==> h'.Nothing?)
            && (g.Front? ==> h'.lowest == g.lo && h'.top == (if g.j > 0 then g.h else g.h - 1)
                             && forall b :: b in h'.complete <==> g.lo <= b < g.h)
  {
    hide Deposits, AcceptAll, Upto;
  }

  lemma InTimeNext(u: Setup, s: Scanner, f: Front, h: History, p: Poll)
    requires InTime(u, s, f, h) && RangeOk(u, s, f, p) && InTimeFor(u, s, f, p) && p.latest >= 0
    ensures InTime(u, PollStep(u, s, p), FrontNext(u, s, f, p), HistoryNext(u, s, h, p))
  {
    hide PollStep, AcceptAll, Upto, Deposits, HistoryNext;
    DepositsNext(u, s, f, h, p);
    BlocksNext(u, s, f, h, p);
    PollCheckpoint(u, s, p);
  }

  lemma NothingAccepted(deposits: seq<Deposit>, reg: Registry)
    ensures AcceptAll(deposits, reg, []) == deposits
  {
  }

  lemma PollCheckpoint(u: Setup, s: Scanner, p: Poll)
    ensures var next := PollStep(u, s, p).checkpoint;
            next == s.checkpoint || (p.stop.Finished? && p.latest > 0 && next == Some(ToBlock(u, s, p.latest)))
  {
  }

  lemma RangeHolds(u: Setup, polls: seq<Poll>, p: Poll)
    requires u.batch >= 1 && StateOk(u, polls) && PollOk(u, After(u, polls), p) && LastLatest(polls) <= p.latest && p.latest >= 0
    ensures RangeOk(u, After(u, polls), FrontOf(u, polls), p)
  {
  }

  lemma {:induction false} InTimeHolds(u: Setup, polls: seq<Poll>)
    requires u.batch >= 1 && IsPolling(u, polls) && StartsInTime(u, polls)
    ensures InTime(u, After(u, polls), FrontOf(u, polls), HistoryOf(u, polls))
  {
    hide InTime, PollStep, FrontNext, HistoryNext, RangeOk;
    if polls == [] {
      InTimeAtStart(u);
    } else {
      var front, p := polls[..|polls| - 1], polls[|polls| - 1];
      InTimeHolds(u, front);
      StateHolds(u, front);
      assert LastLatest(front) <= p.latest;
      RangeHolds(u, front, p);
      InTimeNext(u, After(u, front), FrontOf(u, front), HistoryOf(u, front), p);
    }
  }

  lemma InTimeAtStart(u: Setup)
    ensures InTime(u, After(u, []), FrontOf(u, []), HistoryOf(u, []))
  {
    assert Deposits(After(u, [])) == [];
  }

  /** A checkpoint makes every next poll start in time. */
  lemma CheckpointIsInTime(u: Setup, s: Scanner, f: Front, h: History, p: Poll)
    requires InTime(u, s, f, h) && s.checkpoint.Some?
    ensures InTimeFor(u, s, f, p)
  {
    hide Deposits, AcceptAll, Upto;
  }

  // ----- late: a gap that never closes

  /** Block b lies between scanned blocks, was not scanned completely, and no later poll starts at or below it. */
  ghost predicate Missed(u: Setup, s: Scanner, h: History, latest: int, b: int)
  {
    && h.History? && h.lowest <= b < h.top && b !in h.complete
    && (if s.checkpoint.Some? then b < s.checkpoint.value + 1 else b < Max(0, latest - u.batch + 1))
  }

  /** A poll above a missed block leaves it missed. */
  lemma MissedStays(u: Setup, s: Scanner, f: Front, h: History, p: Poll, latest: int, b: int)
    requires Missed(u, s, h, latest, b) && RangeOk(u, s, f, p) && latest <= p.latest
    ensures Missed(u, PollStep(u, s, p), HistoryNext(u, s, h, p), p.latest, b)
  {
    hide PollStep;
    PollCheckpoint(u, s, p);
    assert b < FromBlock(u, s, p.latest);
  }

  /** The first poll that starts late misses the first incomplete block. */
  lemma LatePollMisses(u: Setup, s: Scanner, f: Front, h: History, p: Poll)
    requires InTime(u, s, f, h) && RangeOk(u, s, f, p) && !InTimeFor(u, s, f, p)
    ensures f.Front? && Missed(u, PollStep(u, s, p), HistoryNext(u, s, h, p), p.latest, f.h)
  {
    hide PollStep, Deposits, AcceptAll, Upto;
    PollCheckpoint(u, s, p);
  }

  lemma {:induction false} LateLeavesGap(u: Setup, polls: seq<Poll>) returns (b: int)
    requires u.batch >= 1 && IsPolling(u, polls) && !StartsInTime(u, polls)
    ensures polls != [] && Missed(u, After(u, polls), HistoryOf(u, polls), LastLatest(polls), b)
  {
    hide InTime, PollStep, FrontNext, HistoryNext, RangeOk, Missed, InTimeFor;
    var front, p := polls[..|polls| - 1], polls[|polls| - 1];
    StateHolds(u, front);
    assert LastLatest(front) <= p.latest;
    RangeHolds(u, front, p);
    if StartsInTime(u, front) {
      InTimeHolds(u, front);
      LatePollMisses(u, After(u, front), FrontOf(u, front), HistoryOf(u, front), p);
      b := FrontOf(u, front).h;
    } else {
      b := LateLeavesGap(u, front);
      MissedStays(u, After(u, front), FrontOf(u, front), HistoryOf(u, front), p, LastLatest(front), b);
    }
  }

  lemma InTimeIsGapFree(u: Setup, s: Scanner, f: Front, h: History)
    requires InTime(u, s, f, h)
    ensures GapFree(h)
  {
    hide Deposits, AcceptAll, Upto;
  }

  /** The scanned blocks are free of gaps exactly when every poll that reads something starts no later than the first block
      not yet scanned completely. */
  lemma GapFreeIffInTime(u: Setup, polls: seq<Poll>)
    requires u.batch >= 1 && IsPolling(u, polls)
    ensures GapFree(HistoryOf(u, polls)) <==> StartsInTime(u, polls)
  {
    hide InTime, StartsInTime, IsPolling, After, HistoryOf, FrontOf;
    if StartsInTime(u, polls) {
      InTimeHolds(u, polls);
      InTimeIsGapFree(u, After(u, polls), FrontOf(u, polls), HistoryOf(u, polls));
    } else {
      var b := LateLeavesGap(u, polls);
    }
  }

  // ----- the condition on the inputs

  /** Completed polls write a checkpoint. */
  predicate Completes(p: Poll) { p.stop.Finished? && p.latest > 0 }

  predicate AnyCompleted(polls: seq<Poll>) { exists k :: 0 <= k < |polls| && Completes(polls[k]) }

  /** Where a poll without a checkpoint starts, where it ends, and whether it reads anything: all from its inputs. */
  function InputStart(u: Setup, p: Poll): int { Max(0, p.latest - u.batch + 1) }

  function InputEnd(p: Poll): (int, nat) { if p.stop.InScan? then (p.stop.height, p.stop.taken) else (p.latest + 1, 0) }

  predicate Reads(u: Setup, p: Poll) { InputStart(u, p) < InputEnd(p).0 || InputEnd(p).1 > 0 }

  /** The furthest block at which a poll that reads something ended. */
  function FurthestEnd(u: Setup, polls: seq<Poll>): Option<int>
  {
    if polls == [] then None
    else
      var before, p := FurthestEnd(u, polls[..|polls| - 1]), polls[|polls| - 1];
      if !Reads(u, p) then before
      else if before.None? then Some(InputEnd(p).0)
      else Some(Max(before.value, InputEnd(p).0))
  }

  /** The poll starts no later than the furthest end of the earlier ones. */
  predicate Overlaps(u: Setup, earlier: seq<Poll>, p: Poll)
  {
    Reads(u, p) && FurthestEnd(u, earlier).Some? ==> InputStart(u, p) <= FurthestEnd(u, earlier).value
  }

  /** Up to the first completed poll every poll overlaps the earlier ones; after it nothing is asked. */
  predicate OverlapsUntilCompleted(u: Setup, polls: seq<Poll>)
  {
    forall k :: 0 <= k < |polls| && !AnyCompleted(polls[..k]) ==> Overlaps(u, polls[..k], polls[k])
  }

  lemma CompletedNext(polls: seq<Poll>)
    requires polls != []
    ensures AnyCompleted(polls) <==> AnyCompleted(polls[..|polls| - 1]) || Completes(polls[|polls| - 1])
  {
    var front := polls[..|polls| - 1];
    assert forall k :: 0 <= k < |front| ==> front[k] == polls[k];
  }

  lemma {:induction false} CheckpointIffCompleted(u: Setup, polls: seq<Poll>)
    ensures After(u, polls).checkpoint.Some? <==> AnyCompleted(polls)
  {
    hide AnyCompleted, Process, AcceptAll, Upto;
    if polls == [] {
      NoneCompleted();
    } else {
      CheckpointIffCompleted(u, polls[..|polls| - 1]);
      CompletedNext(polls);
    }
  }

  lemma NoneCompleted()
    ensures !AnyCompleted([])
  {
  }

  /** Before the first checkpoint, the ranges of polls are those of their inputs. */
  lemma {:induction false} FrontFromInputs(u: Setup, polls: seq<Poll>)
    requires u.batch >= 1 && IsPolling(u, polls) && !AnyCompleted(polls)
    ensures var f, end := FrontOf(u, polls), FurthestEnd(u, polls);
            (f.NoFront? <==> end.None?) && (f.Front? ==> f.h == end.value)
  {
    hide AnyCompleted, PollStep, PollOk;
    if polls != [] {
      var front := polls[..|polls| - 1];
      CompletedNext(polls);
      FrontFromInputs(u, front);
      CheckpointIffCompleted(u, front);
    }
  }

  /** One more poll starts in time exactly when a poll before it was completed or it overlaps the earlier ones. */
  lemma InTimeFromInputs(u: Setup, front: seq<Poll>, p: Poll)
    requires u.batch >= 1 && IsPolling(u, front) && StartsInTime(u, front) && p.latest >= 0
    ensures InTimeFor(u, After(u, front), FrontOf(u, front), p) <==> AnyCompleted(front) || Overlaps(u, front, p)
  {
    hide AnyCompleted, PollStep, StartsInTime, IsPolling, InTime, FurthestEnd, After;
    CheckpointIffCompleted(u, front);
    if AnyCompleted(front) {
      InTimeHolds(u, front);
      CheckpointIsInTime(u, After(u, front), FrontOf(u, front), HistoryOf(u, front), p);
    } else {
      FrontFromInputs(u, front);
    }
  }

  lemma OverlapsNext(u: Setup, polls: seq<Poll>)
    requires polls != []
    ensures var front, p := polls[..|polls| - 1], polls[|polls| - 1];
            OverlapsUntilCompleted(u, polls) <==> OverlapsUntilCompleted(u, front) && (AnyCompleted(front) || Overlaps(u, front, p))
  {
    hide AnyCompleted, Overlaps;
    var front, n := polls[..|polls| - 1], |polls| - 1;
    assert forall k :: 0 <= k < n ==> polls[..k] == front[..k] && polls[k] == front[k];
  }

  lemma {:induction false} InTimeIffOverlaps(u: Setup, polls: seq<Poll>)
    requires u.batch >= 1 && IsPolling(u, polls)
    ensures StartsInTime(u, polls) <==> OverlapsUntilCompleted(u, polls)
  {
    hide OverlapsUntilCompleted, Overlaps, InTimeFor, AnyCompleted, PollOk, After;
    if polls == [] {
      NothingToOverlap(u);
    } else {
      var front := polls[..|polls| - 1];
      InTimeIffOverlaps(u, front);
      OverlapsNext(u, polls);
      if StartsInTime(u, front) { InTimeFromInputs(u, front, polls[|polls| - 1]); }
    }
  }

  lemma NothingToOverlap(u: Setup)
    ensures OverlapsUntilCompleted(u, [])
  {
  }

  /** The scanned blocks are free of gaps exactly when, up to the first completed poll, every poll that reads something starts
      at latest - batch + 1 (or 0) no later than the furthest end of the earlier ones. */
  lemma GapFreeIff(u: Setup, polls: seq<Poll>)
    requires u.batch >= 1 && IsPolling(u, polls)
    ensures GapFree(HistoryOf(u, polls)) <==> OverlapsUntilCompleted(u, polls)
  {
    hide GapFree, OverlapsUntilCompleted, StartsInTime;
    GapFreeIffInTime(u, polls);
    InTimeIffOverlaps(u, polls);
  }

  /** When the very first poll is completed there is never a gap, however many later polls are cut short. */
  lemma FirstPollCompleted(u: Setup, polls: seq<Poll>)
    requires u.batch >= 1 && IsPolling(u, polls) && polls != [] && Completes(polls[0])
    ensures GapFree(HistoryOf(u, polls))
  {
    hide GapFree, IsPolling, Completes;
    forall k | 0 <= k < |polls| ensures k == 0 || AnyCompleted(polls[..k]) {
      if k > 0 { assert Completes(polls[..k][0]); }
    }
    assert polls[..0] == [];
    GapFreeIff(u, polls);
  }

  /** Polls without a gap store the deposits of reading each block of the interval once. */
  lemma EachBlockOnce(u: Setup, polls: seq<Poll>)
    requires u.batch >= 1 && IsPolling(u, polls) && OverlapsUntilCompleted(u, polls)
    ensures var f := FrontOf(u, polls);
            Deposits(After(u, polls)) == if f.NoFront? then [] else AcceptAll([], u.reg, Upto(u.content, f.lo, f.h, f.j))
  {
    InTimeIffOverlaps(u, polls);
    InTimeHolds(u, polls);
  }

  // ----- a deposit that is never read

  function LostRequest(): DepositRequest { DepositRequest("c", "t", "from", "box", 5, "tx", 12, 0) }

  /** One chain, token and wallet, and one transfer, in block 12. */
  function LosingSetup(): Setup
  {
    Setup(Registry(map["c" := Chain(true, "box", 1)], map[("c", "t") := Token(true, Some(1.0), 0)],
                   map[("c", "from") := Wallet("a", "w")], {"a"}),
          "c", 1, 2, (key: DepositKey) => 0, (h: int) => if h == 12 then [LostRequest()] else [])
  }

  lemma {:induction false} EmptyBlocks(content: int -> seq<DepositRequest>, lo: int, hi: int)
    requires forall h :: lo <= h <= hi ==> content(h) == []
    ensures Requests(content, lo, hi) == []
    decreases hi - lo
  {
    if lo <= hi { EmptyBlocks(content, lo, hi - 1); }
  }

  /** Polling over blocks without transfers stores nothing. */
  lemma PollEmpty(u: Setup, s: Scanner, p: Poll)
    requires s == Scanner(NOTHING, None) && !p.stop.InConfirm? && EndOf(u, s, p).1 == 0
    requires forall h :: FromBlock(u, s, p.latest) <= h < EndOf(u, s, p).0 ==> u.content(h) == []
    ensures PollStep(u, s, p) == Scanner(NOTHING, if Completes(p) then Some(ToBlock(u, s, p.latest)) else None)
  {
    EmptyBlocks(u.content, FromBlock(u, s, p.latest), EndOf(u, s, p).0 - 1);
    assert Upto(u.content, FromBlock(u, s, p.latest), EndOf(u, s, p).0, 0) == [];
    PendingAre([], u.chain, u.rank);
    assert PendingList([], u.chain, u.rank) == [];
  }

  function LosingPolls(): seq<Poll> { [Poll(10, InScan(10, 0)), Poll(20, Finished)] }

  lemma LosingRun()
    ensures var u, polls := LosingSetup(), LosingPolls();
            && After(u, polls[..0]) == Scanner(NOTHING, None)
            && After(u, polls[..1]) == Scanner(NOTHING, None)
            && After(u, polls) == Scanner(NOTHING, Some(20))
            && IsPolling(u, polls)
  {
    hide Process, AcceptAll, Upto, PollStep;
    var u, polls := LosingSetup(), LosingPolls();
    var s := Scanner(NOTHING, None);
    assert polls[..1][..0] == [] && polls[..0] == [];
    PollEmpty(u, s, polls[0]);
    PollEmpty(u, s, polls[1]);
    assert IsPolling(u, []) && IsPolling(u, polls[..1]);
  }

  /** A first poll that is cut short after block 9 and a second one at a later block: blocks 10 to 18 are never read, and the
      deposit of block 12, which would be accepted, is missing for good. */
  lemma CutFirstPollLeavesGap()
    ensures var u, polls := LosingSetup(), LosingPolls();
            && IsPolling(u, polls)
            && HistoryOf(u, polls) == History(9, 20, {9, 19, 20}) && !GapFree(HistoryOf(u, polls))
            && u.content(12) == [LostRequest()] && Checked(u.reg, LostRequest()).Success?
            && !HasDeposit(After(u, polls).store.deposits, Checked(u.reg, LostRequest()).value.key)
            && After(u, polls).checkpoint == Some(20)
  {
    hide AcceptAll, Process, Upto, After, PollStep, IsPolling;
    var u, polls := LosingSetup(), LosingPolls();
    var s := Scanner(NOTHING, None);
    LosingRun();
    assert polls[..1][..0] == polls[..0] == [];
    assert Blocks(9, 10) == {9} && Blocks(19, 21) == {19, 20};
    assert HistoryOf(u, polls[..1]) == HistoryNext(u, s, Nothing, polls[0]) == History(9, 9, {9});
    var h := HistoryNext(u, s, HistoryOf(u, polls[..1]), polls[1]);
    assert h == History(9, 20, {9} + {19, 20}) && 10 !in h.complete;
  }

  // ----- credits

  predicate OnChain(deposits: seq<Deposit>, chain: string)
  {
    forall i :: 0 <= i < |deposits| ==> deposits[i].key.chain == chain
  }

  lemma {:induction false} AcceptAllKeeps(s: Store, reg: Registry, qs: seq<DepositRequest>, chain: string)
    requires LedgerOk(s) && OnChain(s.deposits, chain) && forall q :: q in qs ==> q.chain == chain
    ensures var r := s.(deposits := AcceptAll(s.deposits, reg, qs));
            LedgerOk(r) && OnChain(r.deposits, chain) && s.deposits <= r.deposits
            && forall i :: |s.deposits| <= i < |r.deposits| ==> r.deposits[i].status == Detected
  {
    hide LedgerOk;
    if qs != [] {
      var front, q := qs[..|qs| - 1], qs[|qs| - 1];
      AcceptAllKeeps(s, reg, front, chain);
      var before := s.(deposits := AcceptAll(s.deposits, reg, front));
      var d := Checked(reg, q);
      assert q in qs;
      if d.Success? && !HasDeposit(before.deposits, d.value.key) { OpKeeps(before, Accept(d.value)); }
    }
  }

  lemma {:induction false} RequestsOnChain(u: Setup, lo: int, hi: int)
    requires SetupOk(u)
    ensures forall q :: q in Requests(u.content, lo, hi) ==> q.chain == u.chain
    decreases hi - lo
  {
    if lo <= hi { RequestsOnChain(u, lo, hi - 1); }
  }

  lemma UptoOnChain(u: Setup, lo: int, h: int, j: nat)
    requires SetupOk(u)
    ensures forall q :: q in Upto(u.content, lo, h, j) ==> q.chain == u.chain
  {
    RequestsOnChain(u, lo, h - 1);
    assert forall q :: q in u.content(h)[..Min(j, |u.content(h)|)] ==> q in u.content(h);
  }

  /** How far a poll got with the row of deposit i. */
  function Progress(u: Setup, s: Scanner, p: Poll, i: nat): Stage
  {
    if Processes(p) then StageOf(RowsOf(u, s, p), CutOf(p), i) else Untouched
  }

  lemma ScannedKeeps(u: Setup, s: Scanner, p: Poll)
    requires SetupOk(u) && LedgerOk(s.store) && OnChain(s.store.deposits, u.chain)
    ensures var a, r := s.store.deposits, Scanned(u, s, p);
            LedgerOk(r) && OnChain(r.deposits, u.chain) && a <= r.deposits
            && forall i :: |a| <= i < |r.deposits| ==>
                 r.deposits[i].status == Detected && !HasReference(r.ledger, DepositRef(r.deposits[i].key))
  {
    hide LedgerOk, AcceptAll, Upto;
    UptoOnChain(u, FromBlock(u, s, p.latest), EndOf(u, s, p).0, EndOf(u, s, p).1);
    AcceptAllKeeps(s.store, u.reg, Upto(u.content, FromBlock(u, s, p.latest), EndOf(u, s, p).0, EndOf(u, s, p).1), u.chain);
    var r := Scanned(u, s, p);
    forall i | |s.store.deposits| <= i < |r.deposits| ensures !HasReference(r.ledger, DepositRef(r.deposits[i].key)) {
      DetectedIsNew(r, i);
    }
  }

  /** The ledger refers to confirmed deposits only. */
  lemma ReferredIsConfirmed(s: Store, i: nat, n: nat)
    requires LedgerOk(s) && i < |s.deposits| && n < |s.ledger| && s.ledger[n].reference == DepositRef(s.deposits[i].key)
    ensures s.deposits[i].status == Confirmed || s.deposits[i].status == Credited
  {
    hide BalancesOk;
    assert EntryOk(s.deposits, s.ledger[n]);
    var m :| 0 <= m < |s.deposits| && IsCreditOf(s.ledger[n], s.deposits[m]);
    assert s.deposits[m].key == s.deposits[i].key;
  }

  lemma DetectedIsNew(s: Store, i: nat)
    requires LedgerOk(s) && i < |s.deposits| && s.deposits[i].status != Confirmed && s.deposits[i].status != Credited
    ensures !HasReference(s.ledger, DepositRef(s.deposits[i].key))
  {
    hide LedgerOk;
    if n :| 0 <= n < |s.ledger| && s.ledger[n].reference == DepositRef(s.deposits[i].key) {
      ReferredIsConfirmed(s, i, n);
    }
  }

  /** A poll moves every deposit as far as its row got, and enters what its rows with enough confirmations entered. */
  lemma PollMoves(u: Setup, s: Scanner, p: Poll)
    requires SetupOk(u) && LedgerOk(s.store) && OnChain(s.store.deposits, u.chain)
    ensures var a, next := Scanned(u, s, p), PollStep(u, s, p).store;
            && LedgerOk(next) && OnChain(next.deposits, u.chain) && |a.deposits| == |next.deposits|
            && forall i :: 0 <= i < |a.deposits| ==>
                 && next.deposits[i] == Moved(a.deposits[i], p.latest, u.required, Progress(u, s, p, i))
                 && (HasReference(next.ledger, DepositRef(a.deposits[i].key))
                     <==> HasReference(a.ledger, DepositRef(a.deposits[i].key))
                          || (Level(Progress(u, s, p, i)) >= 2 && Enough(a.deposits[i], p.latest, u.required)))
                 && (a.deposits[i].status == Credited ==> Progress(u, s, p, i) == Untouched)
  {
    hide LedgerOk, AcceptAll, Upto, PendingList, ProcessTo, StageOf, RowsOk, IsListed, Enough, Moved, Level;
    ScannedKeeps(u, s, p);
    var a, rows := Scanned(u, s, p), RowsOf(u, s, p);
    if Processes(p) {
      PendingAre(a.deposits, u.chain, u.rank);
      ProcessKeeps(a, u.chain, u.rank, p.latest, u.required, CutOf(p));
      ProcessToIs(a, rows, p.latest, u.required, CutOf(p));
      UniqueKeys(a);
      forall i | 0 <= i < |a.deposits| ensures
        && HasReference(ProcessTo(a, rows, p.latest, u.required, CutOf(p)).ledger, DepositRef(a.deposits[i].key))
           == (HasReference(a.ledger, DepositRef(a.deposits[i].key))
               || (Level(StageOf(rows, CutOf(p), i)) >= 2 && Enough(a.deposits[i], p.latest, u.required)))
        && (a.deposits[i].status == Credited ==> StageOf(rows, CutOf(p), i) == Untouched)
        && Moved(a.deposits[i], p.latest, u.required, StageOf(rows, CutOf(p), i)).key == a.deposits[i].key
      {
        ProcessRefers(a, rows, p.latest, u.required, CutOf(p), i);
        MovedAgain(a.deposits[i], p.latest, u.required, StageOf(rows, CutOf(p), i));
        if a.deposits[i].status == Credited { CreditedStays(a.deposits, rows, p.latest, u.required, CutOf(p), i); }
      }
    } else {
      NothingMoves(a.deposits, p.latest, u.required);
    }
  }

  lemma UniqueKeys(s: Store)
    requires LedgerOk(s)
    ensures KeysUnique(s.deposits)
  {
  }

  lemma NothingMoves(deposits: seq<Deposit>, latest: int, required: int)
    ensures Level(Untouched) < 2 && forall i :: 0 <= i < |deposits| ==> Moved(deposits[i], latest, required, Untouched) == deposits[i]
  {
  }

  lemma {:induction false} ScannerIsSound(u: Setup, polls: seq<Poll>)
    requires SetupOk(u)
    ensures LedgerOk(After(u, polls).store) && OnChain(After(u, polls).store.deposits, u.chain)
  {
    hide LedgerOk, PollStep;
    if polls == [] {
      NothingStored();
    } else {
      ScannerIsSound(u, polls[..|polls| - 1]);
      PollMoves(u, After(u, polls[..|polls| - 1]), polls[|polls| - 1]);
    }
  }

  /** Deposit i got as far as a stage: confirmed, referred to by the ledger, credited. */
  predicate Got(s: Store, i: nat, stage: Stage)
  {
    && i < |s.deposits|
    && match stage
       case Untouched => true
       case Noted => s.deposits[i].status == Confirmed || s.deposits[i].status == Credited
       case Entered => HasReference(s.ledger, DepositRef(s.deposits[i].key))
       case Done => s.deposits[i].status == Credited
  }

  /** The poll took the row of deposit i to a stage for a latest block that reaches the confirmations it needs. */
  predicate Takes(u: Setup, s: Scanner, p: Poll, i: nat, stage: Stage)
  {
    && i < |Scanned(u, s, p).deposits|
    && Level(Progress(u, s, p, i)) >= Level(stage)
    && Enough(Scanned(u, s, p).deposits[i], p.latest, u.required)
  }

  lemma GotNext(u: Setup, s: Scanner, p: Poll, i: nat, stage: Stage)
    requires SetupOk(u) && LedgerOk(s.store) && OnChain(s.store.deposits, u.chain) && !stage.Untouched?
    ensures Got(PollStep(u, s, p).store, i, stage) <==> Got(s.store, i, stage) || Takes(u, s, p, i, stage)
  {
    hide LedgerOk, PollStep, Progress, Scanned, HasReference, OnChain;
    PollMoves(u, s, p);
    ScannedKeeps(u, s, p);
    ScanOnly(u, s, p);
    if i < |Scanned(u, s, p).deposits| {
      MovedAgain(Scanned(u, s, p).deposits[i], p.latest, u.required, Progress(u, s, p, i));
    }
  }

  lemma ScanOnly(u: Setup, s: Scanner, p: Poll)
    ensures Scanned(u, s, p).ledger == s.store.ledger && Scanned(u, s, p).payments == s.store.payments
  {
  }

  /** Poll k took the row of deposit i to a stage. */
  predicate TookTo(u: Setup, polls: seq<Poll>, k: nat, i: nat, stage: Stage)
  {
    k < |polls| && Takes(u, After(u, polls[..k]), polls[k], i, stage)
  }

  /** Over every run of polls, cut between any two writes: a deposit got as far as a stage exactly when some poll took its row
      there for a latest block that reaches the confirmations it needs. */
  lemma {:induction false} GotIffTaken(u: Setup, polls: seq<Poll>, i: nat, stage: Stage)
    requires SetupOk(u) && !stage.Untouched?
    ensures Got(After(u, polls).store, i, stage) <==> exists k :: 0 <= k < |polls| && TookTo(u, polls, k, i, stage)
    decreases |polls|
  {
    hide LedgerOk, PollStep, Takes, Got;
    if polls == [] {
      NothingGot(i, stage);
    } else {
      var front, n := polls[..|polls| - 1], |polls| - 1;
      ScannerIsSound(u, front);
      GotIffTaken(u, front, i, stage);
      GotNext(u, After(u, front), polls[n], i, stage);
      forall k | 0 <= k < n ensures TookTo(u, polls, k, i, stage) == TookTo(u, front, k, i, stage) {
        assert polls[..k] == front[..k] && polls[k] == front[k];
      }
      if Takes(u, After(u, front), polls[n], i, stage) { assert TookTo(u, polls, n, i, stage); }
    }
  }

  lemma NothingGot(i: nat, stage: Stage)
    ensures !Got(NOTHING, i, stage)
  {
  }

  /** A deposit is credited exactly when some poll finished its row for a latest block that reaches its required confirmations. */
  lemma CreditedIffReached(u: Setup, polls: seq<Poll>, i: nat)
    requires SetupOk(u) && i < |After(u, polls).store.deposits|
    ensures After(u, polls).store.deposits[i].status == Credited <==> exists k :: 0 <= k < |polls| && TookTo(u, polls, k, i, Done)
  {
    hide After, TookTo;
    GotIffTaken(u, polls, i, Done);
  }

  /** Poll k was cut between the ledger entry and the status of deposit i. */
  predicate CutAfterEntry(u: Setup, polls: seq<Poll>, k: nat, i: nat)
  {
    TookTo(u, polls, k, i, Entered) && Progress(u, After(u, polls[..k]), polls[k], i) == Entered
  }

  /** The ledger refers to a deposit exactly when it is credited, or confirmed and cut between the two writes of its credit. */
  lemma LedgerFollowsCredits(u: Setup, polls: seq<Poll>, i: nat)
    requires SetupOk(u) && i < |After(u, polls).store.deposits|
    ensures var s := After(u, polls).store;
            HasReference(s.ledger, DepositRef(s.deposits[i].key))
            <==> s.deposits[i].status == Credited
                 || (s.deposits[i].status == Confirmed && exists k :: 0 <= k < |polls| && CutAfterEntry(u, polls, k, i))
  {
    hide After, Progress, Scanned, HasReference, Enough;
    GotIffTaken(u, polls, i, Noted);
    GotIffTaken(u, polls, i, Entered);
    GotIffTaken(u, polls, i, Done);
    forall k | 0 <= k < |polls| ensures TookTo(u, polls, k, i, Done) ==> TookTo(u, polls, k, i, Entered) {}
    forall k | 0 <= k < |polls| ensures TookTo(u, polls, k, i, Entered) ==> TookTo(u, polls, k, i, Noted) {}
    forall k | 0 <= k < |polls|
      ensures TookTo(u, polls, k, i, Entered) <==> TookTo(u, polls, k, i, Done) || CutAfterEntry(u, polls, k, i) {}
  }
}
