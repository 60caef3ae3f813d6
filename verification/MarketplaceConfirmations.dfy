/** Counting confirmations and crediting deposits row by row, in full or cut short, and doing it again after a cut. */
module MarketplaceConfirmations {
  import opened Prelude
  import opened StableSort
  import opened Sums
  import opened MarketplaceLedger

  // ----- the pending list

  /** A row of the pending list: the deposit's block, the place of its id in the order of ids, and its place in the table. */
  datatype PendingRow = PendingRow(block: int, rank: int, at: nat)

  function ByBlock(a: PendingRow, b: PendingRow): bool
  {
    a.block < b.block || (a.block == b.block && (a.rank < b.rank || (a.rank == b.rank && a.at <= b.at)))
  }

  predicate IsPending(d: Deposit, chain: string) { d.key.chain == chain && d.status != Credited }

  function RowOf(deposits: seq<Deposit>, rank: DepositKey -> int, i: nat): PendingRow
    requires i < |deposits|
  {
    PendingRow(deposits[i].block, rank(deposits[i].key), i)
  }

  function PendingFrom(deposits: seq<Deposit>, chain: string, rank: DepositKey -> int, from: nat): (r: seq<PendingRow>)
    requires from <= |deposits|
    ensures forall p :: p in r <==> from <= p.at < |deposits| && IsPending(deposits[p.at], chain) && p == RowOf(deposits, rank, p.at)
    ensures forall i, j :: 0 <= i < j < |r| ==> r[i].at < r[j].at
    decreases |deposits| - from
  {
    if from == |deposits| then []
    else (if IsPending(deposits[from], chain) then [RowOf(deposits, rank, from)] else []) + PendingFrom(deposits, chain, rank, from + 1)
  }

  /** The chain's deposits that are not credited, by block and id. */
  function PendingList(deposits: seq<Deposit>, chain: string, rank: DepositKey -> int): seq<PendingRow>
  {
    Sort(ByBlock, PendingFrom(deposits, chain, rank, 0))
  }

  function Before(a: PendingRow, b: PendingRow): bool { ByBlock(a, b) && a.at != b.at }

  predicate InOrder(rows: seq<PendingRow>)
  {
    forall i, j :: 0 <= i < j < |rows| ==> Before(rows[i], rows[j])
  }

  predicate IsListed(rows: seq<PendingRow>, i: nat) { exists k :: 0 <= k < |rows| && rows[k].at == i }

  lemma PendingInOrder(deposits: seq<Deposit>, chain: string, rank: DepositKey -> int)
    ensures var rows := PendingList(deposits, chain, rank);
            && InOrder(rows)
            && (forall i, j :: 0 <= i < j < |rows| ==>
                  rows[i].block <= rows[j].block && (rows[i].block == rows[j].block ==> rows[i].rank <= rows[j].rank))
            && forall p :: p in rows <==> p.at < |deposits| && IsPending(deposits[p.at], chain) && p == RowOf(deposits, rank, p.at)
  {
    hide PendingFrom, Sort, ByBlock;
    var listed, rows := PendingFrom(deposits, chain, rank, 0), PendingList(deposits, chain, rank);
    ByBlockTotal();
    SortSorted(ByBlock, listed);
    SameElements(listed, rows);
    DistinctPermute(listed, rows);
    forall j, k | 0 <= j < k < |rows| ensures Before(rows[j], rows[k]) {
      assert rows[j] in rows && rows[k] in rows;
      assert rows[j] == RowOf(deposits, rank, rows[j].at) && rows[k] == RowOf(deposits, rank, rows[k].at);
    }
    BlocksAscend(rows);
  }

  lemma BlocksAscend(rows: seq<PendingRow>)
    requires InOrder(rows)
    ensures forall i, j :: 0 <= i < j < |rows| ==>
              rows[i].block <= rows[j].block && (rows[i].block == rows[j].block ==> rows[i].rank <= rows[j].rank)
  {
    forall i, j | 0 <= i < j < |rows|
      ensures rows[i].block <= rows[j].block && (rows[i].block == rows[j].block ==> rows[i].rank <= rows[j].rank)
    {
      assert Before(rows[i], rows[j]);
    }
  }

  lemma ByBlockTotal()
    ensures TotalPreorder(ByBlock)
  {
  }

  /** Rows in order are determined by which rows they are. */
  lemma SameRows(a: seq<PendingRow>, b: seq<PendingRow>)
    requires InOrder(a) && InOrder(b) && forall p :: p in a <==> p in b
    ensures a == b
  {
    forall x ensures multiset(a)[x] == multiset(b)[x] {
      CountOnce(a, x);
      CountOnce(b, x);
      assert x in multiset(a) <==> x in a;
      assert x in multiset(b) <==> x in b;
    }
    assert multiset(a) == multiset(b);
    SortedUnique(ByBlock, a, b);
  }

  lemma {:induction false} FilterInOrder(rows: seq<PendingRow>, keep: PendingRow -> bool)
    requires InOrder(rows)
    ensures InOrder(Filter(rows, keep))
  {
    if rows != [] {
      FilterInOrder(rows[1..], keep);
      var kept := Filter(rows[1..], keep);
      forall j | 0 <= j < |kept| ensures Before(rows[0], kept[j]) {
        assert kept[j] in rows[1..];
        var k :| 0 <= k < |rows[1..]| && rows[1..][k] == kept[j];
        assert Before(rows[0], rows[k + 1]);
      }
    }
  }

  function StillPending(deposits: seq<Deposit>): PendingRow -> bool
  {
    (p: PendingRow) => p.at < |deposits| && deposits[p.at].status != Credited
  }

  /** After some credits, the list is what is left of it. */
  lemma PendingLeft(before: seq<Deposit>, after: seq<Deposit>, chain: string, rank: DepositKey -> int)
    requires |after| == |before|
    requires forall i :: 0 <= i < |before| ==> after[i].key == before[i].key && after[i].block == before[i].block
    requires forall i :: 0 <= i < |before| && before[i].status == Credited ==> after[i].status == Credited
    ensures PendingList(after, chain, rank) == Filter(PendingList(before, chain, rank), StillPending(after))
  {
    hide PendingList;
    PendingInOrder(before, chain, rank);
    PendingInOrder(after, chain, rank);
    FilterInOrder(PendingList(before, chain, rank), StillPending(after));
    SameRows(PendingList(after, chain, rank), Filter(PendingList(before, chain, rank), StillPending(after)));
  }

  // ----- one row

  /** How far a row got: not at all, its count stored, its ledger entry stored too, its credit stored too. */
  datatype Stage = Untouched | Noted | Entered | Done

  function Level(stage: Stage): nat
  {
    match stage case Untouched => 0 case Noted => 1 case Entered => 2 case Done => 3
  }

  predicate Enough(d: Deposit, latest: int, required: int) { latest >= d.block && latest - d.block + 1 >= required }

  /** Counts confirmations of one pending deposit and credits it once it has enough, up to a stage. */
  function RowTo(s: Store, i: nat, latest: int, required: int, stage: Stage): (r: Store)
    ensures |r.deposits| == |s.deposits|
  {
    if i >= |s.deposits| || s.deposits[i].status == Credited || latest < s.deposits[i].block || stage.Untouched? then s
    else
      var counted := ApplyOp(s, Confirm(i, latest, required));
      if stage.Noted? || !Enough(s.deposits[i], latest, required) then counted
      else ApplyOp(counted, CreditDeposit(i, stage.Entered?))
  }

  /** What a row's processing makes of its deposit. */
  function Moved(d: Deposit, latest: int, required: int, stage: Stage): Deposit
  {
    if latest < d.block || stage.Untouched? then d
    else if stage.Done? && Enough(d, latest, required) then Counted(d, latest, required).(status := Credited)
    else Counted(d, latest, required)
  }

  lemma RowMoves(s: Store, i: nat, latest: int, required: int, stage: Stage)
    requires i < |s.deposits| && s.deposits[i].status != Credited
    ensures var r, d := RowTo(s, i, latest, required, stage), s.deposits[i];
            && r.deposits == s.deposits[i := Moved(d, latest, required, stage)]
            && r.ledger == (if Level(stage) >= 2 && Enough(d, latest, required) then PutEntry(s.ledger, CreditOf(d)) else s.ledger)
            && r.payments == s.payments
  {
    hide HasReference;
    assert CreditOf(Counted(s.deposits[i], latest, required)) == CreditOf(s.deposits[i]);
  }

  lemma RowKeeps(s: Store, i: nat, latest: int, required: int, stage: Stage)
    requires LedgerOk(s)
    ensures LedgerOk(RowTo(s, i, latest, required, stage))
  {
    hide LedgerOk;
    if !(i >= |s.deposits| || s.deposits[i].status == Credited || latest < s.deposits[i].block || stage.Untouched?) {
      OpKeeps(s, Confirm(i, latest, required));
      if !(stage.Noted? || !Enough(s.deposits[i], latest, required)) {
        OpKeeps(ApplyOp(s, Confirm(i, latest, required)), CreditDeposit(i, stage.Entered?));
      }
    }
  }

  // ----- all rows, or all up to a cut

  function ProcessRows(s: Store, rows: seq<PendingRow>, latest: int, required: int): (r: Store)
    ensures |r.deposits| == |s.deposits|
  {
    if rows == [] then s
    else RowTo(ProcessRows(s, rows[..|rows| - 1], latest, required), rows[|rows| - 1].at, latest, required, Done)
  }

  /** Where processing was cut short: in which row, and how far that row got. */
  datatype Cut = Cut(row: nat, stage: Stage)

  predicate CutsRow(rows: seq<PendingRow>, cut: Option<Cut>) { cut.Some? && cut.value.row < |rows| }

  function WholeRows(rows: seq<PendingRow>, cut: Option<Cut>): seq<PendingRow>
  {
    if CutsRow(rows, cut) then rows[..cut.value.row] else rows
  }

  function ProcessTo(s: Store, rows: seq<PendingRow>, latest: int, required: int, cut: Option<Cut>): (r: Store)
    ensures |r.deposits| == |s.deposits|
  {
    var whole := ProcessRows(s, WholeRows(rows, cut), latest, required);
    if CutsRow(rows, cut) then RowTo(whole, rows[cut.value.row].at, latest, required, cut.value.stage) else whole
  }

  function Process(s: Store, chain: string, rank: DepositKey -> int, latest: int, required: int, cut: Option<Cut>): Store
  {
    ProcessTo(s, PendingList(s.deposits, chain, rank), latest, required, cut)
  }

  /** How far the row of deposit i got. */
  function StageOf(rows: seq<PendingRow>, cut: Option<Cut>, i: nat): Stage
  {
    if IsListed(WholeRows(rows, cut), i) then Done
    else if CutsRow(rows, cut) && rows[cut.value.row].at == i then cut.value.stage
    else Untouched
  }

  /** Distinct pending rows of a table. */
  predicate RowsOk(deposits: seq<Deposit>, rows: seq<PendingRow>)
  {
    && (forall k :: 0 <= k < |rows| ==> rows[k].at < |deposits| && deposits[rows[k].at].status != Credited)
    && (forall j, k :: 0 <= j < k < |rows| ==> rows[j].at != rows[k].at)
  }

  lemma PendingAre(deposits: seq<Deposit>, chain: string, rank: DepositKey -> int)
    ensures var rows := PendingList(deposits, chain, rank);
            && InOrder(rows) && RowsOk(deposits, rows)
            && (forall k :: 0 <= k < |rows| ==> rows[k].block == deposits[rows[k].at].block)
            && (forall i :: 0 <= i < |deposits| ==> (IsListed(rows, i) <==> IsPending(deposits[i], chain)))
  {
    hide PendingList;
    var rows := PendingList(deposits, chain, rank);
    PendingInOrder(deposits, chain, rank);
    forall k | 0 <= k < |rows|
      ensures rows[k].at < |deposits| && deposits[rows[k].at].status != Credited && rows[k].block == deposits[rows[k].at].block
    {
      assert rows[k] in rows;
    }
    forall i | 0 <= i < |deposits| ensures IsListed(rows, i) <==> IsPending(deposits[i], chain) {
      if IsPending(deposits[i], chain) { assert RowOf(deposits, rank, i) in rows; }
      if k :| 0 <= k < |rows| && rows[k].at == i { assert rows[k] in rows; }
    }
  }

  lemma ListedSnoc(rows: seq<PendingRow>, i: nat)
    requires rows != []
    ensures IsListed(rows, i) <==> IsListed(rows[..|rows| - 1], i) || rows[|rows| - 1].at == i
  {
    var front := rows[..|rows| - 1];
    assert forall k :: 0 <= k < |front| ==> front[k] == rows[k];
  }

  /** The ledger after inserting some entries in turn. */
  function PutAll(ledger: seq<Entry>, entries: seq<Entry>): seq<Entry>
  {
    if entries == [] then ledger else PutEntry(PutAll(ledger, entries[..|entries| - 1]), entries[|entries| - 1])
  }

  function CreditOfRow(deposits: seq<Deposit>, i: nat, latest: int, required: int): seq<Entry>
    requires i < |deposits|
  {
    if Enough(deposits[i], latest, required) then [CreditOf(deposits[i])] else []
  }

  /** The credits of the rows that have enough confirmations, in the order of the rows. */
  function RowCredits(deposits: seq<Deposit>, rows: seq<PendingRow>, latest: int, required: int): seq<Entry>
    requires forall k :: 0 <= k < |rows| ==> rows[k].at < |deposits|
  {
    if rows == [] then []
    else RowCredits(deposits, rows[..|rows| - 1], latest, required) + CreditOfRow(deposits, rows[|rows| - 1].at, latest, required)
  }

  lemma {:induction false} PutAllAppend(ledger: seq<Entry>, a: seq<Entry>, b: seq<Entry>)
    ensures PutAll(ledger, a + b) == PutAll(PutAll(ledger, a), b)
    decreases |b|
  {
    hide HasReference;
    if b == [] {
      assert a + b == a;
    } else {
      PutAllAppend(ledger, a, b[..|b| - 1]);
      assert (a + b)[..|a + b| - 1] == a + b[..|b| - 1];
    }
  }

  lemma PutAllOne(ledger: seq<Entry>, e: Entry)
    ensures PutAll(ledger, [e]) == PutEntry(ledger, e)
  {
    assert [e][..0] == [];
    assert PutAll(ledger, [e][..0]) == ledger;
  }

  /** Processing rows moves exactly their deposits, and puts exactly the credits of those with enough confirmations. */
  lemma {:induction false} ProcessRowsIs(s: Store, rows: seq<PendingRow>, latest: int, required: int)
    requires RowsOk(s.deposits, rows)
    ensures var after := ProcessRows(s, rows, latest, required);
            && (forall i :: 0 <= i < |s.deposits| ==>
                  after.deposits[i] == if IsListed(rows, i) then Moved(s.deposits[i], latest, required, Done) else s.deposits[i])
            && after.ledger == PutAll(s.ledger, RowCredits(s.deposits, rows, latest, required))
            && after.payments == s.payments
    decreases |rows|
  {
    hide Moved, RowTo, IsListed, PutEntry, Enough;
    if rows == [] {
      NoneListed();
    } else {
      var front, at := rows[..|rows| - 1], rows[|rows| - 1].at;
      ProcessRowsIs(s, front, latest, required);
      LastNotListed(rows);
      var mid := ProcessRows(s, front, latest, required);
      RowMoves(mid, at, latest, required, Done);
      LastCredit(s.ledger, s.deposits, rows, latest, required);
      forall i | 0 <= i < |s.deposits|
        ensures IsListed(rows, i) <==> IsListed(front, i) || rows[|rows| - 1].at == i { ListedSnoc(rows, i); }
    }
  }

  lemma LastCredit(ledger: seq<Entry>, deposits: seq<Deposit>, rows: seq<PendingRow>, latest: int, required: int)
    requires rows != [] && forall k :: 0 <= k < |rows| ==> rows[k].at < |deposits|
    ensures var front, d := rows[..|rows| - 1], deposits[rows[|rows| - 1].at];
            var before := PutAll(ledger, RowCredits(deposits, front, latest, required));
            PutAll(ledger, RowCredits(deposits, rows, latest, required))
            == if Enough(d, latest, required) then PutEntry(before, CreditOf(d)) else before
  {
    hide PutEntry, Enough;
    var front, d := rows[..|rows| - 1], deposits[rows[|rows| - 1].at];
    var a := RowCredits(deposits, front, latest, required);
    PutAllAppend(ledger, a, [CreditOf(d)]);
    PutAllOne(PutAll(ledger, a), CreditOf(d));
    assert a + [] == a;
  }

  lemma NoneListed()
    ensures forall i :: !IsListed([], i)
  {
  }

  lemma LastNotListed(rows: seq<PendingRow>)
    requires rows != [] && forall j, k :: 0 <= j < k < |rows| ==> rows[j].at != rows[k].at
    ensures !IsListed(rows[..|rows| - 1], rows[|rows| - 1].at)
  {
  }

  /** The credits entered up to a cut. */
  function CutCredits(deposits: seq<Deposit>, rows: seq<PendingRow>, latest: int, required: int, cut: Option<Cut>): seq<Entry>
    requires forall k :: 0 <= k < |rows| ==> rows[k].at < |deposits|
  {
    RowCredits(deposits, WholeRows(rows, cut), latest, required)
    + if CutsRow(rows, cut) && Level(cut.value.stage) >= 2 then CreditOfRow(deposits, rows[cut.value.row].at, latest, required) else []
  }

  lemma CutNotListed(rows: seq<PendingRow>, n: nat)
    requires n < |rows| && forall j, k :: 0 <= j < k < |rows| ==> rows[j].at != rows[k].at
    ensures !IsListed(rows[..n], rows[n].at)
  {
  }

  /** The table of deposits after a run up to a cut. */
  predicate MovedTo(before: seq<Deposit>, after: seq<Deposit>, rows: seq<PendingRow>, latest: int, required: int, cut: Option<Cut>)
  {
    |after| == |before| && forall i :: 0 <= i < |before| ==> after[i] == Moved(before[i], latest, required, StageOf(rows, cut, i))
  }

  /** The same up to a cut. */
  lemma ProcessToIs(s: Store, rows: seq<PendingRow>, latest: int, required: int, cut: Option<Cut>)
    requires RowsOk(s.deposits, rows)
    ensures var after := ProcessTo(s, rows, latest, required, cut);
            && MovedTo(s.deposits, after.deposits, rows, latest, required, cut)
            && after.ledger == PutAll(s.ledger, CutCredits(s.deposits, rows, latest, required, cut))
            && after.payments == s.payments
  {
    hide RowTo, IsListed, PutEntry, Enough, PutAll, RowCredits;
    var whole := WholeRows(rows, cut);
    ProcessRowsIs(s, whole, latest, required);
    var a := RowCredits(s.deposits, whole, latest, required);
    if CutsRow(rows, cut) {
      var at := rows[cut.value.row].at;
      CutNotListed(rows, cut.value.row);
      RowMoves(ProcessRows(s, whole, latest, required), at, latest, required, cut.value.stage);
      PutAllAppend(s.ledger, a, [CreditOf(s.deposits[at])]);
      PutAllOne(PutAll(s.ledger, a), CreditOf(s.deposits[at]));
    }
    assert a + [] == a;
  }

  lemma {:induction false} ProcessRowsKeeps(s: Store, rows: seq<PendingRow>, latest: int, required: int)
    requires LedgerOk(s)
    ensures LedgerOk(ProcessRows(s, rows, latest, required))
  {
    hide LedgerOk, RowTo;
    if rows != [] {
      var front := rows[..|rows| - 1];
      ProcessRowsKeeps(s, front, latest, required);
      RowKeeps(ProcessRows(s, front, latest, required), rows[|rows| - 1].at, latest, required, Done);
    }
  }

  lemma ProcessKeeps(s: Store, chain: string, rank: DepositKey -> int, latest: int, required: int, cut: Option<Cut>)
    requires LedgerOk(s)
    ensures LedgerOk(Process(s, chain, rank, latest, required, cut))
  {
    hide LedgerOk, RowTo, PendingList, ProcessRows;
    var rows := PendingList(s.deposits, chain, rank);
    ProcessRowsKeeps(s, WholeRows(rows, cut), latest, required);
    if CutsRow(rows, cut) {
      RowKeeps(ProcessRows(s, WholeRows(rows, cut), latest, required), rows[cut.value.row].at, latest, required, cut.value.stage);
    }
  }

  /** Processing without a cut credits exactly the chain's deposits whose confirmations suffice and leaves other chains alone. */
  lemma ProcessSettlesChain(s: Store, chain: string, rank: DepositKey -> int, latest: int, required: int)
    ensures var after := Process(s, chain, rank, latest, required, None);
            && |after.deposits| == |s.deposits|
            && (forall i :: 0 <= i < |s.deposits| ==>
                  after.deposits[i]
                  == if IsPending(s.deposits[i], chain) then Moved(s.deposits[i], latest, required, Done) else s.deposits[i])
            && (forall i :: 0 <= i < |s.deposits| ==>
                  var a, b := s.deposits[i], after.deposits[i];
                  && b == a.(status := b.status, confirmations := b.confirmations)
                  && (b.status == Credited <==>
                        a.status == Credited || (a.key.chain == chain && latest >= a.block && latest - a.block + 1 >= required))
                  && (b.confirmations == if a.key.chain == chain && a.status != Credited && latest >= a.block then latest - a.block + 1
                                         else a.confirmations))
            && after.payments == s.payments
  {
    hide PendingList, ProcessRows;
    PendingAre(s.deposits, chain, rank);
    ProcessToIs(s, PendingList(s.deposits, chain, rank), latest, required, None);
  }

  // ----- references

  predicate Enters(entries: seq<Entry>, r: Reference) { exists e :: e in entries && e.reference == r }

  lemma PutEntryRefers(ledger: seq<Entry>, e: Entry, r: Reference)
    ensures HasReference(PutEntry(ledger, e), r) <==> HasReference(ledger, r) || e.reference == r
  {
    var after := PutEntry(ledger, e);
    PutReference(ledger, e);
    if i :| 0 <= i < |after| && after[i].reference == r {
      assert i < |ledger| ==> ledger[i].reference == r;
    }
  }

  lemma {:induction false} PutAllRefers(ledger: seq<Entry>, entries: seq<Entry>, r: Reference)
    ensures HasReference(PutAll(ledger, entries), r) <==> HasReference(ledger, r) || Enters(entries, r)
  {
    hide HasReference, PutEntry;
    if entries != [] {
      var front, e := entries[..|entries| - 1], entries[|entries| - 1];
      PutAllRefers(ledger, front, r);
      PutEntryRefers(PutAll(ledger, front), e, r);
      assert entries == front + [e];
    }
  }

  lemma {:induction false} RowCreditsRefer(deposits: seq<Deposit>, rows: seq<PendingRow>, latest: int, required: int, i: nat)
    requires KeysUnique(deposits) && i < |deposits| && forall k :: 0 <= k < |rows| ==> rows[k].at < |deposits|
    ensures Enters(RowCredits(deposits, rows, latest, required), DepositRef(deposits[i].key))
            <==> IsListed(rows, i) && Enough(deposits[i], latest, required)
    decreases |rows|
  {
    hide Enough, IsListed;
    if rows == [] {
      NoneListed();
    } else {
      var front, at := rows[..|rows| - 1], rows[|rows| - 1].at;
      RowCreditsRefer(deposits, front, latest, required, i);
      ListedSnoc(rows, i);
      EntersAppend(RowCredits(deposits, front, latest, required), CreditOfRow(deposits, at, latest, required), DepositRef(deposits[i].key));
      RowRefers(deposits, at, latest, required, i);
    }
  }

  lemma EntersAppend(a: seq<Entry>, b: seq<Entry>, r: Reference)
    ensures Enters(a + b, r) <==> Enters(a, r) || Enters(b, r)
  {
  }

  lemma RowRefers(deposits: seq<Deposit>, at: nat, latest: int, required: int, i: nat)
    requires KeysUnique(deposits) && i < |deposits| && at < |deposits|
    ensures Enters(CreditOfRow(deposits, at, latest, required), DepositRef(deposits[i].key))
            <==> at == i && Enough(deposits[i], latest, required)
  {
    assert at != i ==> deposits[at].key != deposits[i].key;
    if Enough(deposits[at], latest, required) { assert CreditOf(deposits[at]) in CreditOfRow(deposits, at, latest, required); }
  }

  /** The ledger refers to a deposit after processing exactly when it did before, or its row got as far as the ledger with
      enough confirmations. */
  lemma ProcessRefers(s: Store, rows: seq<PendingRow>, latest: int, required: int, cut: Option<Cut>, i: nat)
    requires KeysUnique(s.deposits) && RowsOk(s.deposits, rows) && i < |s.deposits|
    ensures var r := DepositRef(s.deposits[i].key);
            HasReference(ProcessTo(s, rows, latest, required, cut).ledger, r)
            <==> HasReference(s.ledger, r) || (Level(StageOf(rows, cut, i)) >= 2 && Enough(s.deposits[i], latest, required))
  {
    hide HasReference, Enough, PutAll, RowCredits, KeysUnique, IsListed, CreditOfRow, ProcessTo, Enters;
    var r, whole := DepositRef(s.deposits[i].key), WholeRows(rows, cut);
    ProcessToIs(s, rows, latest, required, cut);
    PutAllRefers(s.ledger, CutCredits(s.deposits, rows, latest, required, cut), r);
    RowCreditsRefer(s.deposits, whole, latest, required, i);
    var a := RowCredits(s.deposits, whole, latest, required);
    if CutsRow(rows, cut) {
      var at := rows[cut.value.row].at;
      EntersAppend(a, CreditOfRow(s.deposits, at, latest, required), r);
      RowRefers(s.deposits, at, latest, required, i);
    }
    assert a + [] == a;
  }

  // ----- doing it again after a cut

  lemma {:induction false} RowCreditsAppend(deposits: seq<Deposit>, a: seq<PendingRow>, b: seq<PendingRow>, latest: int, required: int)
    requires forall k :: 0 <= k < |a| ==> a[k].at < |deposits|
    requires forall k :: 0 <= k < |b| ==> b[k].at < |deposits|
    ensures RowCredits(deposits, a + b, latest, required)
            == RowCredits(deposits, a, latest, required) + RowCredits(deposits, b, latest, required)
    decreases |b|
  {
    hide CreditOfRow;
    if b == [] {
      assert a + b == a;
    } else {
      var front := b[..|b| - 1];
      RowCreditsAppend(deposits, a, front, latest, required);
      assert (a + b)[..|a + b| - 1] == a + front;
      AppendAssoc(RowCredits(deposits, a, latest, required), RowCredits(deposits, front, latest, required),
                  CreditOfRow(deposits, b[|b| - 1].at, latest, required));
    }
  }

  /** Deposits that differ in their progress only. */
  predicate SameCredits(a: seq<Deposit>, b: seq<Deposit>)
  {
    |a| == |b| && forall i :: 0 <= i < |a| ==> a[i].key == b[i].key && a[i].block == b[i].block && CreditOf(a[i]) == CreditOf(b[i])
  }

  lemma {:induction false} RowCreditsSame(a: seq<Deposit>, b: seq<Deposit>, rows: seq<PendingRow>, latest: int, required: int)
    requires SameCredits(a, b) && forall k :: 0 <= k < |rows| ==> rows[k].at < |a|
    ensures RowCredits(a, rows, latest, required) == RowCredits(b, rows, latest, required)
  {
    if rows != [] { RowCreditsSame(a, b, rows[..|rows| - 1], latest, required); }
  }

  /** Rows without enough confirmations give no credits. */
  lemma {:induction false} NoRowCredits(deposits: seq<Deposit>, rows: seq<PendingRow>, latest: int, required: int)
    requires forall k :: 0 <= k < |rows| ==> rows[k].at < |deposits| && !Enough(deposits[rows[k].at], latest, required)
    ensures RowCredits(deposits, rows, latest, required) == []
  {
    if rows != [] { NoRowCredits(deposits, rows[..|rows| - 1], latest, required); }
  }

  /** Moving on from any stage short of the last ends where moving at once does. */
  lemma MovedAgain(d: Deposit, latest: int, required: int, stage: Stage)
    ensures var e := Moved(d, latest, required, stage);
            && (e.status != Credited ==> Moved(e, latest, required, Done) == Moved(d, latest, required, Done))
            && (d.status != Credited && e.status == Credited ==> e == Moved(d, latest, required, Done) && Enough(d, latest, required))
            && (stage.Done? && Enough(d, latest, required) ==> e.status == Credited)
            && (d.status != Credited && !stage.Done? ==> e.status != Credited)
            && e.key == d.key && e.block == d.block && CreditOf(e) == CreditOf(d)
  {
  }

  function RestRows(rows: seq<PendingRow>, cut: Option<Cut>): seq<PendingRow>
  {
    if CutsRow(rows, cut) then rows[cut.value.row..] else []
  }

  /** The rows from the cut on are still pending. */
  lemma RestKept(before: seq<Deposit>, after: seq<Deposit>, rows: seq<PendingRow>, latest: int, required: int, cut: Option<Cut>)
    requires RowsOk(before, rows) && MovedTo(before, after, rows, latest, required, cut) && (cut.Some? ==> !cut.value.stage.Done?)
    ensures Filter(rows, StillPending(after)) == Filter(WholeRows(rows, cut), StillPending(after)) + RestRows(rows, cut)
  {
    hide StillPending, MovedTo, RowsOk;
    var whole, rest, keep := WholeRows(rows, cut), RestRows(rows, cut), StillPending(after);
    assert rows == whole + rest;
    FilterAppend(whole, rest, keep);
    forall p | p in rest ensures keep(p) {
      var k :| cut.value.row <= k < |rows| && rows[k] == p;
      LaterPending(before, after, rows, latest, required, cut, k);
    }
    FilterWhole(rest, keep);
  }

  lemma LaterPending(before: seq<Deposit>, after: seq<Deposit>, rows: seq<PendingRow>, latest: int, required: int, cut: Option<Cut>, k: nat)
    requires RowsOk(before, rows) && MovedTo(before, after, rows, latest, required, cut)
    requires CutsRow(rows, cut) && !cut.value.stage.Done? && cut.value.row <= k < |rows|
    ensures StillPending(after)(rows[k])
  {
    hide Moved;
    MovedAgain(before[rows[k].at], latest, required, StageOf(rows, cut, rows[k].at));
  }

  /** A row before the cut that is still pending has not enough confirmations. */
  lemma WholeNotEnough(before: seq<Deposit>, after: seq<Deposit>, rows: seq<PendingRow>, latest: int, required: int, cut: Option<Cut>)
    requires RowsOk(before, rows) && MovedTo(before, after, rows, latest, required, cut)
    ensures forall p :: p in Filter(WholeRows(rows, cut), StillPending(after)) ==> p.at < |after| && !Enough(after[p.at], latest, required)
  {
    hide Moved;
    var whole := WholeRows(rows, cut);
    forall p | p in Filter(whole, StillPending(after)) ensures p.at < |after| && !Enough(after[p.at], latest, required) {
      assert p in whole && StillPending(after)(p);
      var k :| 0 <= k < |whole| && whole[k] == p;
      assert IsListed(whole, p.at);
      MovedAgain(before[p.at], latest, required, Done);
    }
  }

  /** What a second run finds still pending, and the credits it enters: those of the rows from the cut on. */
  lemma RowsLeft(before: seq<Deposit>, after: seq<Deposit>, rows: seq<PendingRow>, latest: int, required: int, cut: Option<Cut>)
    requires RowsOk(before, rows) && SameCredits(before, after) && (cut.Some? ==> !cut.value.stage.Done?)
    requires MovedTo(before, after, rows, latest, required, cut)
    ensures var left := Filter(rows, StillPending(after));
            && (forall k :: 0 <= k < |left| ==> left[k].at < |after|)
            && RowCredits(after, left, latest, required) == RowCredits(before, RestRows(rows, cut), latest, required)
  {
    hide RowCredits, Enough, StillPending, MovedTo;
    var kept, rest := Filter(WholeRows(rows, cut), StillPending(after)), RestRows(rows, cut);
    RestKept(before, after, rows, latest, required, cut);
    WholeNotEnough(before, after, rows, latest, required, cut);
    assert forall k :: 0 <= k < |kept| ==> kept[k] in kept;
    NoRowCredits(after, kept, latest, required);
    RowCreditsAppend(after, kept, rest, latest, required);
    RowCreditsSame(before, after, rest, latest, required);
  }

  lemma PutTwice(ledger: seq<Entry>, e: Entry)
    ensures PutEntry(PutEntry(ledger, e), e) == PutEntry(ledger, e)
  {
    PutReference(ledger, e);
  }

  /** The entries of a cut run and those of the rows from the cut on are those of an uncut run. */
  lemma CreditsJoin(ledger: seq<Entry>, deposits: seq<Deposit>, rows: seq<PendingRow>, latest: int, required: int, cut: Option<Cut>)
    requires forall k :: 0 <= k < |rows| ==> rows[k].at < |deposits|
    ensures PutAll(PutAll(ledger, CutCredits(deposits, rows, latest, required, cut)),
                   RowCredits(deposits, RestRows(rows, cut), latest, required))
            == PutAll(ledger, RowCredits(deposits, rows, latest, required))
  {
    hide RowCredits, Enough, PutEntry, PutAll;
    var whole, rest := WholeRows(rows, cut), RestRows(rows, cut);
    assert rows == whole + rest;
    RowCreditsAppend(deposits, whole, rest, latest, required);
    var a := RowCredits(deposits, whole, latest, required);
    PutAllAppend(ledger, a, RowCredits(deposits, rest, latest, required));
    if CutsRow(rows, cut) && Level(cut.value.stage) >= 2 && Enough(deposits[rows[cut.value.row].at], latest, required) {
      var e, more := CreditOf(deposits[rows[cut.value.row].at]), RowCredits(deposits, rest[1..], latest, required);
      assert rest == [rest[0]] + rest[1..];
      RowCreditsAppend(deposits, [rest[0]], rest[1..], latest, required);
      OneRow(deposits, rest[0], latest, required);
      var x := PutAll(ledger, a);
      PutAllAppend(ledger, a, [e]);
      PutAllOne(x, e);
      PutAllAppend(x, [e], more);
      PutAllAppend(PutEntry(x, e), [e], more);
      PutAllOne(PutEntry(x, e), e);
      PutTwice(x, e);
    } else {
      assert a + [] == a;
    }
  }

  lemma OneRow(deposits: seq<Deposit>, p: PendingRow, latest: int, required: int)
    requires p.at < |deposits|
    ensures RowCredits(deposits, [p], latest, required) == CreditOfRow(deposits, p.at, latest, required)
  {
    assert [p][..0] == [];
    assert RowCredits(deposits, [p][..0], latest, required) == [];
    assert [] + CreditOfRow(deposits, p.at, latest, required) == CreditOfRow(deposits, p.at, latest, required);
  }

  /** Processing again after a cut, wherever it was, ends in the same store as processing once without one. */
  lemma ProcessAgain(s: Store, chain: string, rank: DepositKey -> int, latest: int, required: int, cut: Option<Cut>)
    requires cut.Some? ==> !cut.value.stage.Done?
    ensures Process(Process(s, chain, rank, latest, required, cut), chain, rank, latest, required, None)
            == Process(s, chain, rank, latest, required, None)
  {
    hide PendingList, ProcessRows, ProcessTo, RowCredits, PutAll, Moved, IsPending, IsListed, StageOf, CutsRow, CutCredits, RowTo;
    var rows := PendingList(s.deposits, chain, rank);
    PendingAre(s.deposits, chain, rank);
    ProcessToIs(s, rows, latest, required, cut);
    ProcessToIs(s, rows, latest, required, None);
    var c, full := ProcessTo(s, rows, latest, required, cut), ProcessTo(s, rows, latest, required, None);
    forall i | 0 <= i < |s.deposits| ensures c.deposits[i].key == s.deposits[i].key && c.deposits[i].block == s.deposits[i].block
      && CreditOf(c.deposits[i]) == CreditOf(s.deposits[i]) && (s.deposits[i].status == Credited ==> c.deposits[i].status == Credited)
    {
      MovedAgain(s.deposits[i], latest, required, StageOf(rows, cut, i));
      if s.deposits[i].status == Credited { CreditedStays(s.deposits, rows, latest, required, cut, i); }
    }
    PendingLeft(s.deposits, c.deposits, chain, rank);
    PendingAre(c.deposits, chain, rank);
    var left := PendingList(c.deposits, chain, rank);
    ProcessToIs(c, left, latest, required, None);
    var again := ProcessTo(c, left, latest, required, None);
    AgainDeposits(s.deposits, c.deposits, again.deposits, full.deposits, chain, rows, left, latest, required, cut);
    RowsLeft(s.deposits, c.deposits, rows, latest, required, cut);
    CreditsJoin(s.ledger, s.deposits, rows, latest, required, cut);
    NoCut(s.deposits, rows, latest, required);
    NoCut(c.deposits, left, latest, required);
  }

  lemma NoCut(deposits: seq<Deposit>, rows: seq<PendingRow>, latest: int, required: int)
    requires forall k :: 0 <= k < |rows| ==> rows[k].at < |deposits|
    ensures CutCredits(deposits, rows, latest, required, None) == RowCredits(deposits, rows, latest, required)
  {
  }

  lemma CreditedStays(deposits: seq<Deposit>, rows: seq<PendingRow>, latest: int, required: int, cut: Option<Cut>, i: nat)
    requires RowsOk(deposits, rows) && i < |deposits| && deposits[i].status == Credited
    ensures StageOf(rows, cut, i) == Untouched && Moved(deposits[i], latest, required, StageOf(rows, cut, i)) == deposits[i]
  {
  }

  lemma AgainDeposits(a: seq<Deposit>, c: seq<Deposit>, again: seq<Deposit>, full: seq<Deposit>, chain: string,
                      rows: seq<PendingRow>, left: seq<PendingRow>, latest: int, required: int, cut: Option<Cut>)
    requires MovedTo(a, c, rows, latest, required, cut) && MovedTo(a, full, rows, latest, required, None)
    requires MovedTo(c, again, left, latest, required, None) && (cut.Some? ==> !cut.value.stage.Done?)
    requires forall i :: 0 <= i < |a| ==> (IsListed(rows, i) <==> IsPending(a[i], chain))
    requires forall i :: 0 <= i < |a| ==> (IsListed(left, i) <==> IsPending(c[i], chain))
    ensures again == full
  {
    hide Moved, IsListed;
    forall i | 0 <= i < |a| ensures again[i] == full[i] {
      MovedAgain(a[i], latest, required, StageOf(rows, cut, i));
      StageListed(rows, cut, i);
      Untouching(a[i], latest, required);
      Untouching(c[i], latest, required);
    }
  }

  lemma Untouching(d: Deposit, latest: int, required: int)
    ensures Moved(d, latest, required, Untouched) == d
  {
  }

  /** Only a listed row gets anywhere. */
  lemma StageListed(rows: seq<PendingRow>, cut: Option<Cut>, i: nat)
    ensures StageOf(rows, cut, i) != Untouched ==> IsListed(rows, i)
  {
    if k :| 0 <= k < |WholeRows(rows, cut)| && WholeRows(rows, cut)[k].at == i {
      assert rows[k].at == i;
    }
  }
}
