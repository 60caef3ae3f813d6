/** A poll that was cut short, between any two writes, and the uncut poll after it. */
module MarketplaceRetry {
  import opened Prelude
  import opened Sums
  import opened MarketplaceLedger
  import opened MarketplaceConfirmations
  import opened MarketplaceScanner

  // ----- polling again at the same latest block

  /** Reading a stretch again from its start stores what reading all of it at once does. */
  lemma RescanPrefix(deposits: seq<Deposit>, reg: Registry, a: seq<DepositRequest>, b: seq<DepositRequest>)
    requires a <= b
    ensures AcceptAll(AcceptAll(deposits, reg, a), reg, b) == AcceptAll(deposits, reg, b)
  {
    var rest, once := b[|a|..], AcceptAll(deposits, reg, a);
    assert b == a + rest;
    AcceptAppend(deposits, reg, a, rest);
    AcceptAppend(once, reg, a, rest);
    AcceptedAreKnown(deposits, reg, a);
    KnownChangeNothing(once, reg, a);
  }

  /** A cut poll read part of the stretch that an uncut one reads. */
  lemma CutReadsLess(u: Setup, s: Scanner, p: Poll)
    requires u.batch >= 1 && PollOk(u, s, p)
    ensures var from := FromBlock(u, s, p.latest);
            Upto(u.content, from, EndOf(u, s, p).0, EndOf(u, s, p).1) <= Upto(u.content, from, ToBlock(u, s, p.latest) + 1, 0)
  {
    hide Upto;
    var from := FromBlock(u, s, p.latest);
    if p.stop.InScan? { UptoGrows(u.content, from, p.stop.height, p.stop.taken, ToBlock(u, s, p.latest) + 1, 0); }
  }

  /** Deposits that are stored stay known, whatever their progress. */
  lemma KnownByKey(a: seq<Deposit>, b: seq<Deposit>, reg: Registry, q: DepositRequest)
    requires IsKnown(a, reg, q) && Column(a, Fresh) == Column(b, Fresh)
    ensures IsKnown(b, reg, q)
  {
    FreshKeys(a);
    FreshKeys(b);
  }

  /** Scanning again after processing has begun stores nothing. */
  lemma ScannedAgain(u: Setup, s: Scanner, p: Poll)
    requires Processes(p)
    ensures var c := PollStep(u, s, p);
            c.checkpoint == s.checkpoint ==> Scanned(u, c, Poll(p.latest, Finished)) == c.store
  {
    hide AcceptAll, Upto, Process, IsKnown;
    var c, qs := PollStep(u, s, p), Upto(u.content, FromBlock(u, s, p.latest), ToBlock(u, s, p.latest) + 1, 0);
    AcceptedAreKnown(s.store.deposits, u.reg, qs);
    FreshProcess(Scanned(u, s, p), u.chain, u.rank, p.latest, u.required, CutOf(p));
    forall q | q in qs ensures IsKnown(c.store.deposits, u.reg, q) { KnownByKey(Scanned(u, s, p).deposits, c.store.deposits, u.reg, q); }
    KnownChangeNothing(c.store.deposits, u.reg, qs);
  }

  /** A poll that is cut anywhere and polled again at the same latest block leaves no trace: the scanner ends as after one
      uncut poll. */
  lemma CutThenUncut(u: Setup, s: Scanner, p: Poll)
    requires u.batch >= 1 && PollOk(u, s, p) && !p.stop.Finished?
    ensures PollStep(u, PollStep(u, s, p), Poll(p.latest, Finished)) == PollStep(u, s, Poll(p.latest, Finished))
  {
    hide AcceptAll, Upto, Process;
    var q := Poll(p.latest, Finished);
    if Processes(p) {
      ScannedAgain(u, s, p);
      ProcessAgain(Scanned(u, s, p), u.chain, u.rank, p.latest, u.required, CutOf(p));
    } else {
      CutReadsLess(u, s, p);
      RescanPrefix(s.store.deposits, u.reg, Upto(u.content, FromBlock(u, s, p.latest), EndOf(u, s, p).0, EndOf(u, s, p).1),
                   Upto(u.content, FromBlock(u, s, p.latest), ToBlock(u, s, p.latest) + 1, 0));
    }
  }

  function AfterStops(u: Setup, s: Scanner, latest: int, stops: seq<Stop>): Scanner
    decreases |stops|
  {
    if stops == [] then s else AfterStops(u, PollStep(u, s, Poll(latest, stops[0])), latest, stops[1..])
  }

  predicate StopsOk(u: Setup, s: Scanner, latest: int, stops: seq<Stop>)
    decreases |stops|
  {
    stops == [] ||
    (PollOk(u, s, Poll(latest, stops[0])) && !stops[0].Finished? && StopsOk(u, PollStep(u, s, Poll(latest, stops[0])), latest, stops[1..]))
  }

  /** However often a poll is cut, and wherever. */
  lemma {:induction false} CutOftenThenUncut(u: Setup, s: Scanner, latest: int, stops: seq<Stop>)
    requires u.batch >= 1 && StopsOk(u, s, latest, stops)
    ensures PollStep(u, AfterStops(u, s, latest, stops), Poll(latest, Finished)) == PollStep(u, s, Poll(latest, Finished))
    decreases |stops|
  {
    hide PollStep, PollOk;
    if stops != [] {
      var p := Poll(latest, stops[0]);
      CutThenUncut(u, s, p);
      CutOftenThenUncut(u, PollStep(u, s, p), latest, stops[1..]);
    }
  }

  // ----- polling again at a later latest block

  /** Stores that differ at most in counts of confirmations and in the order of their ledgers. */
  ghost predicate SameOutcome(a: Store, b: Store)
  {
    && a.payments == b.payments && multiset(a.ledger) == multiset(b.ledger)
    && |a.deposits| == |b.deposits|
    && forall i :: 0 <= i < |a.deposits| ==> a.deposits[i].(confirmations := 0) == b.deposits[i].(confirmations := 0)
  }

  /** What an uncut run makes of a row. */
  function Final(d: Deposit, latest: int, required: int): Deposit
  {
    if d.status == Credited then d else Moved(d, latest, required, Done)
  }

  /** Moving on from any stage at a later latest block ends in the same status as moving there at once. */
  lemma MovedLater(d: Deposit, latest: int, later: int, required: int, stage: Stage)
    requires latest <= later && (d.status == Credited ==> stage.Untouched?)
    ensures var e := Moved(d, latest, required, stage);
            Final(e, later, required).(confirmations := 0) == Final(d, later, required).(confirmations := 0)
  {
  }

  lemma FinalStatus(d: Deposit, e: Deposit, latest: int, required: int)
    requires d.(confirmations := 0) == e.(confirmations := 0)
    ensures Final(d, latest, required).(confirmations := 0) == Final(e, latest, required).(confirmations := 0)
  {
  }

  /** An uncut poll finishes every row: each deposit ends as far as the latest block takes it, and is referred to when it was
      before or has enough confirmations. */
  lemma UncutPoll(u: Setup, s: Scanner, q: Poll)
    requires SetupOk(u) && LedgerOk(s.store) && OnChain(s.store.deposits, u.chain) && q.stop.Finished? && q.latest > 0
    ensures var a, next := Scanned(u, s, q), PollStep(u, s, q).store;
            && |a.deposits| == |next.deposits|
            && forall i :: 0 <= i < |a.deposits| ==>
                 && next.deposits[i] == Final(a.deposits[i], q.latest, u.required)
                 && (HasReference(next.ledger, DepositRef(a.deposits[i].key))
                     <==> HasReference(a.ledger, DepositRef(a.deposits[i].key)) || Enough(a.deposits[i], q.latest, u.required))
  {
    hide AcceptAll, Upto, PendingList, ProcessTo, IsListed, Enough, Moved, HasReference, PollStep, LedgerOk, Scanned;
    PollMoves(u, s, q);
    ScannedKeeps(u, s, q);
    var a := Scanned(u, s, q);
    PendingAre(a.deposits, u.chain, u.rank);
    NothingMoves(a.deposits, q.latest, u.required);
    forall i | 0 <= i < |a.deposits| && a.deposits[i].status == Credited
      ensures HasReference(a.ledger, DepositRef(a.deposits[i].key)) { CreditedRefers(a, i); }
  }

  lemma CreditedRefers(s: Store, i: nat)
    requires LedgerOk(s) && i < |s.deposits| && s.deposits[i].status == Credited
    ensures HasReference(s.ledger, DepositRef(s.deposits[i].key))
  {
  }

  lemma {:induction false} PutAllFrom(ledger: seq<Entry>, entries: seq<Entry>, e: Entry)
    requires e in PutAll(ledger, entries)
    ensures e in ledger || e in entries
  {
    hide HasReference;
    if entries != [] {
      var before := PutAll(ledger, entries[..|entries| - 1]);
      if e in before { PutAllFrom(ledger, entries[..|entries| - 1], e); }
    }
  }

  lemma {:induction false} PutAllGrows(ledger: seq<Entry>, entries: seq<Entry>)
    ensures ledger <= PutAll(ledger, entries)
  {
    hide HasReference;
    if entries != [] { PutAllGrows(ledger, entries[..|entries| - 1]); }
  }

  lemma {:induction false} RowCreditsAreCredits(deposits: seq<Deposit>, rows: seq<PendingRow>, latest: int, required: int)
    requires forall k :: 0 <= k < |rows| ==> rows[k].at < |deposits|
    ensures forall e :: e in RowCredits(deposits, rows, latest, required) ==> e.reference.DepositRef?
  {
    if rows != [] { RowCreditsAreCredits(deposits, rows[..|rows| - 1], latest, required); }
  }

  /** A poll leaves the debits of the ledger alone. */
  lemma PollKeepsDebits(u: Setup, s: Scanner, p: Poll)
    ensures forall e: Entry :: e.reference.PaymentRef? ==> (e in PollStep(u, s, p).store.ledger <==> e in s.store.ledger)
    ensures PollStep(u, s, p).store.payments == s.store.payments
  {
    hide AcceptAll, Upto, PendingList, ProcessTo, IsListed, Enough, MovedTo, PutAll, RowCredits, HasReference;
    var a, rows := Scanned(u, s, p), RowsOf(u, s, p);
    if Processes(p) {
      PendingAre(a.deposits, u.chain, u.rank);
      ProcessToIs(a, rows, p.latest, u.required, CutOf(p));
      var entries := CutCredits(a.deposits, rows, p.latest, u.required, CutOf(p));
      RowCreditsAreCredits(a.deposits, WholeRows(rows, CutOf(p)), p.latest, u.required);
      PutAllGrows(a.ledger, entries);
      forall e | e in PutAll(a.ledger, entries) && e.reference.PaymentRef? ensures e in a.ledger { PutAllFrom(a.ledger, entries, e); }
    }
  }

  /** Sound ledgers with the same debits that refer to the same deposits hold the same entries. */
  lemma SameEntries(a: Store, b: Store)
    requires LedgerOk(a) && LedgerOk(b) && SameCredits(a.deposits, b.deposits)
    requires forall e: Entry :: e.reference.PaymentRef? ==> (e in a.ledger <==> e in b.ledger)
    requires forall i :: 0 <= i < |a.deposits| ==>
               (HasReference(a.ledger, DepositRef(a.deposits[i].key)) <==> HasReference(b.ledger, DepositRef(b.deposits[i].key)))
    ensures multiset(a.ledger) == multiset(b.ledger)
  {
    hide BalancesOk, HasReference;
    forall e | e in a.ledger ensures e in b.ledger { EntryMoves(a, b, e); }
    forall e | e in b.ledger ensures e in a.ledger { EntryMoves(b, a, e); }
    forall e ensures multiset(a.ledger)[e] == multiset(b.ledger)[e] {
      CountOnce(a.ledger, e);
      CountOnce(b.ledger, e);
      assert e in multiset(a.ledger) <==> e in a.ledger;
      assert e in multiset(b.ledger) <==> e in b.ledger;
    }
  }

  lemma EntryMoves(a: Store, b: Store, e: Entry)
    requires LedgerOk(a) && LedgerOk(b) && SameCredits(a.deposits, b.deposits) && e in a.ledger
    requires e.reference.PaymentRef? ==> (e in a.ledger <==> e in b.ledger)
    requires forall i :: 0 <= i < |a.deposits| ==>
               (HasReference(a.ledger, DepositRef(a.deposits[i].key)) <==> HasReference(b.ledger, DepositRef(b.deposits[i].key)))
    ensures e in b.ledger
  {
    hide BalancesOk;
    if e.reference.DepositRef? {
      var n :| 0 <= n < |a.ledger| && a.ledger[n] == e;
      assert EntryOk(a.deposits, a.ledger[n]);
      var i :| 0 <= i < |a.deposits| && IsCreditOf(e, a.deposits[i]);
      assert HasReference(a.ledger, DepositRef(a.deposits[i].key));
      var m :| 0 <= m < |b.ledger| && b.ledger[m].reference == DepositRef(b.deposits[i].key);
      assert EntryOk(b.deposits, b.ledger[m]);
      var j :| 0 <= j < |b.deposits| && IsCreditOf(b.ledger[m], b.deposits[j]);
      assert b.deposits[j].key == b.deposits[i].key;
    }
  }

  lemma {:induction false} AcceptAllGrows(deposits: seq<Deposit>, reg: Registry, qs: seq<DepositRequest>)
    ensures deposits <= AcceptAll(deposits, reg, qs)
  {
    if qs != [] { AcceptAllGrows(deposits, reg, qs[..|qs| - 1]); }
  }

  /** What a cut poll stored is the beginning of what an uncut one stores. */
  lemma ScansAgree(u: Setup, s: Scanner, p: Poll, q: Poll)
    requires u.batch >= 1 && s.checkpoint.Some? && PollOk(u, s, p) && !p.stop.Finished? && q.stop.Finished? && p.latest <= q.latest
    ensures Scanned(u, s, p).deposits <= Scanned(u, s, q).deposits
    ensures var c := PollStep(u, s, p);
            Column(Scanned(u, c, q).deposits, Fresh) == Column(Scanned(u, s, q).deposits, Fresh)
            && Column(c.store.deposits, Fresh) == Column(Scanned(u, s, p).deposits, Fresh)
            && c.store.deposits <= Scanned(u, c, q).deposits
  {
    hide AcceptAll, Upto, Process;
    var from, d, reg := FromBlock(u, s, p.latest), s.store.deposits, u.reg;
    var x, y := Upto(u.content, from, EndOf(u, s, p).0, EndOf(u, s, p).1), Upto(u.content, from, ToBlock(u, s, q.latest) + 1, 0);
    CutReadsLess(u, s, p);
    LaterReadsMore(u, s, p, q);
    assert x <= y && y == x + y[|x|..];
    AcceptAppend(d, reg, x, y[|x|..]);
    AcceptAllGrows(AcceptAll(d, reg, x), reg, y[|x|..]);
    var c := PollStep(u, s, p);
    AcceptAllGrows(c.store.deposits, reg, y);
    FreshAccept(c.store.deposits, reg, y);
    FreshAccept(d, reg, x);
    FreshAccept(d, reg, y);
    RescanPrefix(Column(d, Fresh), reg, x, y);
    FreshProcess(Scanned(u, s, p), u.chain, u.rank, p.latest, u.required, CutOf(p));
  }

  lemma LaterReadsMore(u: Setup, s: Scanner, p: Poll, q: Poll)
    requires u.batch >= 1 && s.checkpoint.Some? && p.latest <= q.latest
    ensures var from := FromBlock(u, s, p.latest);
            Upto(u.content, from, ToBlock(u, s, p.latest) + 1, 0) <= Upto(u.content, from, ToBlock(u, s, q.latest) + 1, 0)
  {
    var from, last := FromBlock(u, s, p.latest), ToBlock(u, s, p.latest);
    if from <= last + 1 {
      UptoGrows(u.content, from, last + 1, 0, ToBlock(u, s, q.latest) + 1, 0);
    } else {
      assert Upto(u.content, from, last + 1, 0) == [];
    }
  }

  lemma RowsAgree(a: seq<Deposit>, b: seq<Deposit>, i: nat)
    requires Column(a, Fresh) == Column(b, Fresh) && i < |a|
    ensures |a| == |b| && Fresh(a[i]) == Fresh(b[i])
  {
    assert Column(a, Fresh)[i] == Column(b, Fresh)[i];
  }

  /** Deposit i after the cut poll and the later one, and after the later one alone. */
  lemma DepositAgrees(u: Setup, s: Scanner, p: Poll, q: Poll, i: nat)
    requires SetupOk(u) && LedgerOk(s.store) && OnChain(s.store.deposits, u.chain) && s.checkpoint.Some?
    requires PollOk(u, s, p) && !p.stop.Finished? && q.stop.Finished? && p.latest <= q.latest
    requires i < |Scanned(u, s, q).deposits|
    ensures var a, b := Scanned(u, PollStep(u, s, p), q).deposits, Scanned(u, s, q).deposits;
            && |a| == |b| && Fresh(a[i]) == Fresh(b[i])
            && Final(a[i], q.latest, u.required).(confirmations := 0) == Final(b[i], q.latest, u.required).(confirmations := 0)
  {
    hide PollStep, Scanned, LedgerOk, OnChain, Moved, Final, PollOk, Progress;
    var c := PollStep(u, s, p);
    var a, b := Scanned(u, c, q).deposits, Scanned(u, s, q).deposits;
    ScansAgree(u, s, p, q);
    RowsAgree(a, b, i);
    PollMoves(u, s, p);
    ScannedKeeps(u, s, q);
    ScannedKeeps(u, c, q);
    ScannedKeeps(u, s, p);
    if i < |c.store.deposits| {
      assert a[i] == c.store.deposits[i] && Scanned(u, s, p).deposits[i] == b[i];
      MovedLater(b[i], p.latest, q.latest, u.required, Progress(u, s, p, i));
    } else {
      assert a[i].status == Detected && b[i].status == Detected;
      FinalStatus(a[i], b[i], q.latest, u.required);
    }
  }

  /** Whether the ledger refers to deposit i in the end does not depend on the cut poll. */
  lemma ReferenceAgrees(u: Setup, s: Scanner, p: Poll, q: Poll, i: nat)
    requires SetupOk(u) && LedgerOk(s.store) && OnChain(s.store.deposits, u.chain) && s.checkpoint.Some?
    requires PollOk(u, s, p) && !p.stop.Finished? && q.stop.Finished? && p.latest <= q.latest
    requires i < |Scanned(u, s, q).deposits|
    ensures var c := PollStep(u, s, p);
            var d := Scanned(u, s, q).deposits[i];
            HasReference(Scanned(u, c, q).ledger, DepositRef(d.key)) || Enough(d, q.latest, u.required)
            <==> HasReference(Scanned(u, s, q).ledger, DepositRef(d.key)) || Enough(d, q.latest, u.required)
  {
    hide PollStep, Scanned, LedgerOk, OnChain, Moved, PollOk, Progress, HasReference;
    var c := PollStep(u, s, p);
    ScansAgree(u, s, p, q);
    PollMoves(u, s, p);
    ScanOnly(u, s, p);
    ScanOnly(u, s, q);
    ScanOnly(u, c, q);
    ScannedKeeps(u, s, q);
    ScannedKeeps(u, c, q);
    ScannedKeeps(u, s, p);
    RowsAgree(Scanned(u, c, q).deposits, Scanned(u, s, q).deposits, i);
    if i < |Scanned(u, s, p).deposits| { assert Scanned(u, s, p).deposits[i] == Scanned(u, s, q).deposits[i]; }
  }

  /** Once there is a checkpoint, a poll that is cut anywhere leaves no trace beyond counts of confirmations and the order of
      the ledger, also when the next uncut poll sees a later block: no deposit and no entry is lost, doubled or changed. */
  lemma CutThenLater(u: Setup, s: Scanner, p: Poll, q: Poll)
    requires SetupOk(u) && LedgerOk(s.store) && OnChain(s.store.deposits, u.chain) && s.checkpoint.Some?
    requires PollOk(u, s, p) && !p.stop.Finished? && q.stop.Finished? && p.latest <= q.latest
    ensures var twice, once := PollStep(u, PollStep(u, s, p), q), PollStep(u, s, q);
            twice.checkpoint == once.checkpoint && SameOutcome(twice.store, once.store)
  {
    hide Scanned, LedgerOk, OnChain, Moved, Final, PollOk, Progress, HasReference, PollStep, Enough;
    var c := PollStep(u, s, p);
    Checkpoints(u, s, p, q);
    if q.latest > 0 {
      PollMoves(u, s, p);
      PollMoves(u, c, q);
      PollMoves(u, s, q);
      UncutPoll(u, c, q);
      UncutPoll(u, s, q);
      PollKeepsDebits(u, s, p);
      PollKeepsDebits(u, c, q);
      PollKeepsDebits(u, s, q);
      ScansAgree(u, s, p, q);
      var twice, once := PollStep(u, c, q).store, PollStep(u, s, q).store;
      RowsSame(Scanned(u, c, q).deposits, Scanned(u, s, q).deposits);
      forall i | 0 <= i < |once.deposits|
        ensures twice.deposits[i].(confirmations := 0) == once.deposits[i].(confirmations := 0)
        ensures HasReference(twice.ledger, DepositRef(twice.deposits[i].key))
                <==> HasReference(once.ledger, DepositRef(once.deposits[i].key))
      {
        DepositAgrees(u, s, p, q, i);
        ReferenceAgrees(u, s, p, q, i);
        FinalKeeps(Scanned(u, c, q).deposits[i], q.latest, u.required);
        FinalKeeps(Scanned(u, s, q).deposits[i], q.latest, u.required);
        EnoughFresh(Scanned(u, c, q).deposits[i], Scanned(u, s, q).deposits[i], q.latest, u.required);
      }
      AlikeCredits(twice.deposits, once.deposits);
      SameEntries(twice, once);
    } else {
      ScanTwice(u, s, p, q);
    }
  }

  lemma RowsSame(a: seq<Deposit>, b: seq<Deposit>)
    requires Column(a, Fresh) == Column(b, Fresh)
    ensures |a| == |b|
  {
    assert |Column(a, Fresh)| == |a|;
  }

  lemma FinalKeeps(d: Deposit, latest: int, required: int)
    ensures Final(d, latest, required).key == d.key
  {
  }

  lemma EnoughFresh(d: Deposit, e: Deposit, latest: int, required: int)
    requires Fresh(d) == Fresh(e)
    ensures Enough(d, latest, required) == Enough(e, latest, required) && d.key == e.key
  {
    assert Fresh(d).block == Fresh(e).block && Fresh(d).key == Fresh(e).key;
  }

  lemma AlikeCredits(a: seq<Deposit>, b: seq<Deposit>)
    requires |a| == |b| && forall i :: 0 <= i < |a| ==> a[i].(confirmations := 0) == b[i].(confirmations := 0)
    ensures SameCredits(a, b)
  {
    forall i | 0 <= i < |a| ensures a[i].key == b[i].key && a[i].block == b[i].block && CreditOf(a[i]) == CreditOf(b[i]) {
      var x, y := a[i].(confirmations := 0), b[i].(confirmations := 0);
      assert x.key == y.key && x.block == y.block && CreditOf(x) == CreditOf(y);
    }
  }

  lemma Checkpoints(u: Setup, s: Scanner, p: Poll, q: Poll)
    requires !p.stop.Finished?
    ensures PollStep(u, PollStep(u, s, p), q).checkpoint == PollStep(u, s, q).checkpoint
  {
    hide Process, AcceptAll, Upto;
  }

  /** Polls that process nothing only scan. */
  lemma ScanTwice(u: Setup, s: Scanner, p: Poll, q: Poll)
    requires u.batch >= 1 && s.checkpoint.Some? && PollOk(u, s, p) && !p.stop.Finished? && q.stop.Finished?
    requires p.latest <= q.latest <= 0
    ensures PollStep(u, PollStep(u, s, p), q).store == PollStep(u, s, q).store
  {
    hide AcceptAll, Upto;
    var from := FromBlock(u, s, p.latest);
    CutReadsLess(u, s, p);
    LaterReadsMore(u, s, p, q);
    RescanPrefix(s.store.deposits, u.reg, Upto(u.content, from, EndOf(u, s, p).0, EndOf(u, s, p).1),
                 Upto(u.content, from, ToBlock(u, s, q.latest) + 1, 0));
  }

  /** The same outcome means the same balances. */
  lemma SameBalances(a: Store, b: Store, k: AccountKey)
    requires SameOutcome(a, b)
    ensures Balance(a.ledger, k) == Balance(b.ledger, k)
  {
    SumIntPermute(a.ledger, b.ledger, SignedFor(k));
  }

  /** In every run that has a checkpoint, a cut poll before an uncut one could be left out. */
  lemma CutLeavesNoTrace(u: Setup, polls: seq<Poll>, p: Poll, q: Poll)
    requires SetupOk(u) && After(u, polls).checkpoint.Some?
    requires PollOk(u, After(u, polls), p) && !p.stop.Finished? && q.stop.Finished? && p.latest <= q.latest
    ensures var with, without := After(u, polls + [p] + [q]), After(u, polls + [q]);
            && with.checkpoint == without.checkpoint && SameOutcome(with.store, without.store)
            && forall k :: Balance(with.store.ledger, k) == Balance(without.store.ledger, k)
  {
    hide SameOutcome, PollStep, LedgerOk, OnChain, PollOk;
    var s := After(u, polls);
    AfterNext(u, polls, p);
    AfterNext(u, polls + [p], q);
    AfterNext(u, polls, q);
    ScannerIsSound(u, polls);
    CutThenLater(u, s, p, q);
    forall k { SameBalances(PollStep(u, PollStep(u, s, p), q).store, PollStep(u, s, q).store, k); }
  }

  lemma AfterNext(u: Setup, polls: seq<Poll>, p: Poll)
    ensures After(u, polls + [p]) == PollStep(u, After(u, polls), p)
  {
    hide PollStep;
    assert (polls + [p])[..|polls + [p]| - 1] == polls;
  }
}
