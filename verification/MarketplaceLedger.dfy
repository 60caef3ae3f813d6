/** Deposits, the append-only ledger, and payments from balance: every write, including those cut between two writes. */
module MarketplaceLedger {
  import opened Prelude
  import opened Sums

  // ----- rows

  /** The unique key of a deposit; its id is a hash of it, taken as injective. */
  datatype DepositKey = DepositKey(chain: string, txHash: string, logIndex: int)

  datatype DepositStatus = Detected | Confirming | Confirmed | Credited

  datatype Deposit = Deposit(
    key: DepositKey, account: string, wallet: string, token: string, sender: string, recipient: string,
    amount: int, block: int, status: DepositStatus, confirmations: int)

  datatype Reference = DepositRef(key: DepositKey) | PaymentRef(id: string)

  datatype Entry = Entry(account: string, chain: string, token: string, credit: bool, amount: int, reference: Reference)

  datatype PaymentStatus = Pending | Submitted | Paid

  /** `account` is the account that opened the payment, or the last one recorded as paying it. */
  datatype Payment = Payment(amountPi: real, status: PaymentStatus, account: string)

  datatype Store = Store(deposits: seq<Deposit>, ledger: seq<Entry>, payments: map<string, Payment>)

  // ----- reference data

  /** An empty deposit address accepts every destination. */
  datatype Chain = Chain(enabled: bool, depositAddress: string, required: int)

  datatype Token = Token(enabled: bool, rate: Option<real>, decimals: nat)

  datatype Wallet = Wallet(account: string, id: string)

  /** Chains, tokens by chain and symbol, verified wallets by chain and address, and accounts. */
  datatype Registry = Registry(
    chains: map<string, Chain>, tokens: map<(string, string), Token>, wallets: map<(string, string), Wallet>, accounts: set<string>)

  datatype DepositRequest = DepositRequest(
    chain: string, token: string, sender: string, recipient: string, amount: int, txHash: string, block: int, logIndex: int)

  datatype Error =
    | UnknownChain | ChainDisabled | UnknownToken | TokenDisabled | WrongDestination | BadAmount | NoWallet | Conflict
    | NotConfirmed | UnknownPayment | NoDebit | NoRate | UnknownAccount | Insufficient

  // ----- accepting deposits

  /** The deposit row a request describes, or the first check that refuses it. */
  function Checked(reg: Registry, q: DepositRequest): Result<Deposit, Error>
  {
    if q.chain !in reg.chains then Failure(UnknownChain)
    else if !reg.chains[q.chain].enabled then Failure(ChainDisabled)
    else if (q.chain, q.token) !in reg.tokens then Failure(UnknownToken)
    else if !reg.tokens[(q.chain, q.token)].enabled then Failure(TokenDisabled)
    else if reg.chains[q.chain].depositAddress != "" && q.recipient != reg.chains[q.chain].depositAddress then Failure(WrongDestination)
    else if q.amount <= 0 then Failure(BadAmount)
    else if (q.chain, q.sender) !in reg.wallets then Failure(NoWallet)
    else
      var w := reg.wallets[(q.chain, q.sender)];
      Success(Deposit(DepositKey(q.chain, q.txHash, q.logIndex), w.account, w.id, q.token, q.sender, q.recipient,
                      q.amount, q.block, Detected, 0))
  }

  /** Which requests are accepted, and as what: the deposit belongs to the account of the sender's verified wallet. */
  lemma CheckedIs(reg: Registry, q: DepositRequest)
    ensures var r := Checked(reg, q);
            && (r.Success? <==>
                  && q.chain in reg.chains && reg.chains[q.chain].enabled
                  && (q.chain, q.token) in reg.tokens && reg.tokens[(q.chain, q.token)].enabled
                  && (reg.chains[q.chain].depositAddress == "" || q.recipient == reg.chains[q.chain].depositAddress)
                  && q.amount > 0 && (q.chain, q.sender) in reg.wallets)
            && (r.Success? ==>
                  var w := reg.wallets[(q.chain, q.sender)];
                  r.value == Deposit(DepositKey(q.chain, q.txHash, q.logIndex), w.account, w.id, q.token, q.sender, q.recipient,
                                     q.amount, q.block, Detected, 0))
  {
  }

  /** Everything but the status and the count of confirmations agrees. */
  predicate DepositsMatch(a: Deposit, b: Deposit)
  {
    && a.account == b.account && a.wallet == b.wallet && a.token == b.token
    && a.sender == b.sender && a.recipient == b.recipient && a.amount == b.amount && a.block == b.block && a.key == b.key
  }

  predicate HasDeposit(deposits: seq<Deposit>, key: DepositKey)
  {
    exists i :: 0 <= i < |deposits| && deposits[i].key == key
  }

  // ----- the ledger

  predicate HasReference(ledger: seq<Entry>, r: Reference)
  {
    exists i :: 0 <= i < |ledger| && ledger[i].reference == r
  }

  /** Insert that does nothing when the reference is taken. */
  function PutEntry(ledger: seq<Entry>, e: Entry): seq<Entry>
  {
    if HasReference(ledger, e.reference) then ledger else ledger + [e]
  }

  function CreditOf(d: Deposit): Entry
  {
    Entry(d.account, d.key.chain, d.token, true, d.amount, DepositRef(d.key))
  }

  datatype AccountKey = AccountKey(account: string, chain: string, token: string)

  predicate IsFor(e: Entry, k: AccountKey) { e.account == k.account && e.chain == k.chain && e.token == k.token }

  function Signed(e: Entry): int { if e.credit then e.amount else -e.amount }

  function SignedFor(k: AccountKey): Entry -> int { (e: Entry) => if IsFor(e, k) then Signed(e) else 0 }

  function Balance(ledger: seq<Entry>, k: AccountKey): int { SumInt(ledger, SignedFor(k)) }

  // ----- single writes

  /** The deposit row after its confirmations were counted. */
  function Counted(d: Deposit, latest: int, required: int): Deposit
  {
    var n := latest - d.block + 1;
    if n < required then d.(confirmations := n, status := if d.status == Detected then Confirming else d.status)
    else d.(confirmations := n, status := Confirmed)
  }

  /** What the marketplace may do between two crashes; `cut` means that only the first of two writes happened. */
  datatype Op =
    | Accept(deposit: Deposit)
    | Confirm(at: nat, latest: int, required: int)
    | CreditDeposit(at: nat, cut: bool)
    | OpenPayment(id: string, account: string, amountPi: real)
    | PayFromBalance(id: string, account: string, chain: string, token: string, units: nat, cut: bool)
    | SubmitPayment(id: string, confirmed: bool)

  predicate CanApply(s: Store, op: Op)
  {
    match op
    case Accept(d) => d.amount > 0 && d.status == Detected && !HasDeposit(s.deposits, d.key)
    case Confirm(i, latest, _) => i < |s.deposits| && s.deposits[i].status != Credited && s.deposits[i].block <= latest
    case CreditDeposit(i, _) => i < |s.deposits| && (s.deposits[i].status == Confirmed || s.deposits[i].status == Credited)
    case OpenPayment(id, _, _) => id !in s.payments
    case PayFromBalance(id, account, chain, token, units, _) =>
      && id in s.payments && s.payments[id].status != Paid
      && Balance(s.ledger, AccountKey(account, chain, token)) >= units
    case SubmitPayment(id, _) => id in s.payments
  }

  function DebitOf(account: string, chain: string, token: string, units: nat, id: string): Entry
  {
    Entry(account, chain, token, false, units, PaymentRef(id))
  }

  function ApplyOp(s: Store, op: Op): Store
    requires CanApply(s, op)
  {
    match op
    case Accept(d) => s.(deposits := s.deposits + [d])
    case Confirm(i, latest, required) => s.(deposits := s.deposits[i := Counted(s.deposits[i], latest, required)])
    case CreditDeposit(i, cut) =>
      s.(ledger := PutEntry(s.ledger, CreditOf(s.deposits[i])),
         deposits := if cut then s.deposits else s.deposits[i := s.deposits[i].(status := Credited)])
    case OpenPayment(id, account, amountPi) => s.(payments := s.payments[id := Payment(amountPi, Pending, account)])
    case PayFromBalance(id, account, chain, token, units, cut) =>
      s.(ledger := PutEntry(s.ledger, DebitOf(account, chain, token, units, id)),
         payments := if cut then s.payments else s.payments[id := s.payments[id].(status := Paid, account := account)])
    case SubmitPayment(id, confirmed) =>
      s.(payments := s.payments[id := s.payments[id].(status := if confirmed then Paid else Submitted)])
  }

  // ----- the invariant

  predicate KeysUnique(deposits: seq<Deposit>)
  {
    forall i, j :: 0 <= i < j < |deposits| ==> deposits[i].key != deposits[j].key
  }

  predicate ReferencesUnique(ledger: seq<Entry>)
  {
    forall i, j :: 0 <= i < j < |ledger| ==> ledger[i].reference != ledger[j].reference
  }

  predicate IsCreditOf(e: Entry, d: Deposit) { e == CreditOf(d) && (d.status == Confirmed || d.status == Credited) }

  /** A credit is the credit of a confirmed deposit; a debit is a payment's. */
  predicate EntryOk(deposits: seq<Deposit>, e: Entry)
  {
    match e.reference
    case DepositRef(_) => exists i :: 0 <= i < |deposits| && IsCreditOf(e, deposits[i])
    case PaymentRef(_) => !e.credit && e.amount >= 0
  }

  predicate EntriesOk(deposits: seq<Deposit>, ledger: seq<Entry>)
  {
    forall i :: 0 <= i < |ledger| ==> EntryOk(deposits, ledger[i])
  }

  predicate DepositsOk(deposits: seq<Deposit>, ledger: seq<Entry>)
  {
    forall i :: 0 <= i < |deposits| ==>
      deposits[i].amount > 0 && (deposits[i].status == Credited ==> HasReference(ledger, DepositRef(deposits[i].key)))
  }

  ghost predicate BalancesOk(ledger: seq<Entry>)
  {
    forall k :: Balance(ledger, k) >= 0
  }

  ghost predicate LedgerOk(s: Store)
  {
    && KeysUnique(s.deposits) && ReferencesUnique(s.ledger)
    && EntriesOk(s.deposits, s.ledger) && DepositsOk(s.deposits, s.ledger)
    && BalancesOk(s.ledger)
  }

  lemma BalanceAppend(ledger: seq<Entry>, e: Entry, k: AccountKey)
    ensures Balance(ledger + [e], k) == Balance(ledger, k) + if IsFor(e, k) then Signed(e) else 0
  {
    SumIntAppend(ledger, [e], SignedFor(k));
    assert [e][1..] == [];
    assert SumInt([e][1..], SignedFor(k)) == 0;
  }

  /** An entry that its account can afford keeps every balance non-negative. */
  lemma PutKeepsBalances(ledger: seq<Entry>, e: Entry)
    requires BalancesOk(ledger) && e.amount >= 0
    requires !e.credit ==> Balance(ledger, AccountKey(e.account, e.chain, e.token)) >= e.amount
    ensures BalancesOk(PutEntry(ledger, e))
  {
    forall k ensures Balance(PutEntry(ledger, e), k) >= 0 {
      BalanceAppend(ledger, e, k);
      assert Balance(ledger, k) >= 0;
      assert IsFor(e, k) ==> k == AccountKey(e.account, e.chain, e.token);
    }
  }

  /** Deposit rows that keep their key and what they credit, and never fall back before confirmed. */
  predicate DepositGrows(a: Deposit, b: Deposit)
  {
    && b.key == a.key && CreditOf(b) == CreditOf(a)
    && (a.status == Confirmed || a.status == Credited ==> b.status == Confirmed || b.status == Credited)
  }

  lemma EntriesKept(a: seq<Deposit>, b: seq<Deposit>, ledger: seq<Entry>)
    requires EntriesOk(a, ledger) && |a| <= |b| && forall i :: 0 <= i < |a| ==> DepositGrows(a[i], b[i])
    ensures EntriesOk(b, ledger)
  {
    forall n | 0 <= n < |ledger| ensures EntryOk(b, ledger[n]) {
      assert EntryOk(a, ledger[n]);
      if ledger[n].reference.DepositRef? {
        var i :| 0 <= i < |a| && IsCreditOf(ledger[n], a[i]);
        assert DepositGrows(a[i], b[i]);
        assert IsCreditOf(ledger[n], b[i]);
      }
    }
  }

  lemma PutReference(ledger: seq<Entry>, e: Entry)
    ensures ledger <= PutEntry(ledger, e)
    ensures HasReference(PutEntry(ledger, e), e.reference)
    ensures forall r :: HasReference(ledger, r) ==> HasReference(PutEntry(ledger, e), r)
    ensures ReferencesUnique(ledger) ==> ReferencesUnique(PutEntry(ledger, e))
  {
    var after := PutEntry(ledger, e);
    if !HasReference(ledger, e.reference) { assert after[|ledger|].reference == e.reference; }
    forall r | HasReference(ledger, r) ensures HasReference(after, r) {
      var i :| 0 <= i < |ledger| && ledger[i].reference == r;
      assert after[i].reference == r;
    }
  }

  lemma ConfirmKeeps(s: Store, i: nat, latest: int, required: int)
    requires LedgerOk(s) && CanApply(s, Confirm(i, latest, required))
    ensures LedgerOk(ApplyOp(s, Confirm(i, latest, required)))
  {
    hide BalancesOk;
    EntriesKept(s.deposits, ApplyOp(s, Confirm(i, latest, required)).deposits, s.ledger);
  }

  lemma AcceptKeeps(s: Store, d: Deposit)
    requires LedgerOk(s) && CanApply(s, Accept(d))
    ensures LedgerOk(ApplyOp(s, Accept(d)))
  {
    hide BalancesOk;
    EntriesKept(s.deposits, s.deposits + [d], s.ledger);
  }

  lemma CreditKeeps(s: Store, i: nat, cut: bool)
    requires LedgerOk(s) && CanApply(s, CreditDeposit(i, cut))
    ensures LedgerOk(ApplyOp(s, CreditDeposit(i, cut)))
  {
    hide BalancesOk;
    var next := ApplyOp(s, CreditDeposit(i, cut));
    var e := CreditOf(s.deposits[i]);
    PutReference(s.ledger, e);
    PutKeepsBalances(s.ledger, e);
    assert IsCreditOf(e, s.deposits[i]);
    EntriesKept(s.deposits, next.deposits, s.ledger);
    assert next.deposits[i].key == s.deposits[i].key && IsCreditOf(e, next.deposits[i]);
  }

  lemma PayKeeps(s: Store, op: Op)
    requires LedgerOk(s) && op.PayFromBalance? && CanApply(s, op)
    ensures LedgerOk(ApplyOp(s, op))
  {
    hide BalancesOk;
    var e := DebitOf(op.account, op.chain, op.token, op.units, op.id);
    PutReference(s.ledger, e);
    PutKeepsBalances(s.ledger, e);
  }

  /** Every write keeps the ledger sound and only appends to it. */
  lemma OpKeeps(s: Store, op: Op)
    requires LedgerOk(s) && CanApply(s, op)
    ensures LedgerOk(ApplyOp(s, op)) && s.ledger <= ApplyOp(s, op).ledger
  {
    hide LedgerOk;
    match op
    case Accept(d) => AcceptKeeps(s, d);
    case Confirm(i, latest, required) => ConfirmKeeps(s, i, latest, required);
    case CreditDeposit(i, cut) =>
      CreditKeeps(s, i, cut);
      PutReference(s.ledger, CreditOf(s.deposits[i]));
    case PayFromBalance(id, account, chain, token, units, _) =>
      PayKeeps(s, op);
      PutReference(s.ledger, DebitOf(account, chain, token, units, id));
    case OpenPayment(_, _, _) => PaymentsApart(s, ApplyOp(s, op));
    case SubmitPayment(_, _) => PaymentsApart(s, ApplyOp(s, op));
  }

  lemma PaymentsApart(a: Store, b: Store)
    requires LedgerOk(a) && a.deposits == b.deposits && a.ledger == b.ledger
    ensures LedgerOk(b)
  {
  }

  // ----- runs

  ghost predicate IsOpStep(a: Store, b: Store)
  {
    exists op :: CanApply(a, op) && b == ApplyOp(a, op)
  }

  ghost predicate IsLedgerRun(run: seq<Store>)
  {
    && run != [] && run[0] == Store([], [], map[])
    && forall i :: 0 <= i < |run| - 1 ==> IsOpStep(run[i], run[i + 1])
  }

  lemma NothingStored()
    ensures LedgerOk(Store([], [], map[]))
  {
    forall k ensures Balance([], k) >= 0 {}
  }

  /** Along every run, with writes cut anywhere: balances stay non-negative and every deposit and payment has at most one entry. */
  lemma {:induction false} LedgerIsSafe(run: seq<Store>, i: nat)
    requires IsLedgerRun(run) && i < |run|
    ensures LedgerOk(run[i])
  {
    hide LedgerOk, CanApply, ApplyOp;
    if i == 0 {
      NothingStored();
    } else {
      LedgerIsSafe(run, i - 1);
      assert IsOpStep(run[i - 1], run[i - 1 + 1]);
      var op :| CanApply(run[i - 1], op) && run[i] == ApplyOp(run[i - 1], op);
      OpKeeps(run[i - 1], op);
    }
  }

  lemma {:induction false} LedgerOnlyGrows(run: seq<Store>, i: nat, j: nat)
    requires IsLedgerRun(run) && i <= j < |run|
    ensures run[i].ledger <= run[j].ledger
    decreases j - i
  {
    hide LedgerOk, CanApply, ApplyOp;
    if i < j {
      LedgerOnlyGrows(run, i, j - 1);
      LedgerIsSafe(run, j - 1);
      assert IsOpStep(run[j - 1], run[j - 1 + 1]);
      var op :| CanApply(run[j - 1], op) && run[j] == ApplyOp(run[j - 1], op);
      OpKeeps(run[j - 1], op);
    }
  }

  // ----- runs as lists of writes

  const NOTHING: Store := Store([], [], map[])

  /** The writes can happen one after another from the empty store. */
  predicate CanPlay(ops: seq<Op>)
    decreases |ops|, 0
  {
    ops == [] || (CanPlay(ops[..|ops| - 1]) && CanApply(Played(ops[..|ops| - 1]), ops[|ops| - 1]))
  }

  function Played(ops: seq<Op>): Store
    requires CanPlay(ops)
    decreases |ops|, 1
  {
    if ops == [] then NOTHING else ApplyOp(Played(ops[..|ops| - 1]), ops[|ops| - 1])
  }

  lemma PlayNext(ops: seq<Op>, op: Op)
    requires CanPlay(ops) && CanApply(Played(ops), op)
    ensures CanPlay(ops + [op]) && Played(ops + [op]) == ApplyOp(Played(ops), op)
  {
    assert (ops + [op])[..|ops|] == ops;
  }

  /** Lists of writes and runs are the same thing. */
  lemma {:induction false} PlayedIsRun(ops: seq<Op>) returns (run: seq<Store>)
    requires CanPlay(ops)
    ensures IsLedgerRun(run) && |run| == |ops| + 1 && run[|ops|] == Played(ops)
    decreases |ops|
  {
    hide CanApply, ApplyOp;
    if ops == [] {
      run := [NOTHING];
    } else {
      var front := PlayedIsRun(ops[..|ops| - 1]);
      run := front + [Played(ops)];
      forall i | 0 <= i < |run| - 1 ensures IsOpStep(run[i], run[i + 1]) {
        if i < |front| - 1 { assert IsOpStep(front[i], front[i + 1]); }
      }
    }
  }

  lemma {:induction false} RunIsPlayed(run: seq<Store>, i: nat) returns (ops: seq<Op>)
    requires IsLedgerRun(run) && i < |run|
    ensures CanPlay(ops) && |ops| == i && Played(ops) == run[i]
  {
    hide CanApply, ApplyOp;
    ops := [];
    if i > 0 {
      ops := RunIsPlayed(run, i - 1);
      assert IsOpStep(run[i - 1], run[i - 1 + 1]);
      var op :| CanApply(run[i - 1], op) && run[i] == ApplyOp(run[i - 1], op);
      PlayNext(ops, op);
      ops := ops + [op];
    }
  }

  // ----- who pays a payment

  /** Paying debits the payer exactly when the payment was not debited before. */
  lemma PayDebitsIff(s: Store, id: string, account: string, chain: string, token: string, units: nat)
    requires CanApply(s, PayFromBalance(id, account, chain, token, units, false)) && units > 0
    ensures var k := AccountKey(account, chain, token);
            Balance(ApplyOp(s, PayFromBalance(id, account, chain, token, units, false)).ledger, k) == Balance(s.ledger, k) - units
            <==> !HasReference(s.ledger, PaymentRef(id))
  {
    BalanceAppend(s.ledger, DebitOf(account, chain, token, units, id), AccountKey(account, chain, token));
  }

  /** The account of the first attempt to pay, also one cut after its ledger entry. */
  function FirstPayer(ops: seq<Op>, id: string): Option<string>
  {
    if ops == [] then None
    else
      var first, last := FirstPayer(ops[..|ops| - 1], id), ops[|ops| - 1];
      if first.Some? then first
      else if last.PayFromBalance? && last.id == id then Some(last.account)
      else None
  }

  /** The account that opened the payment, or that of the last attempt to pay that was not cut. */
  function LastPayer(ops: seq<Op>, id: string): Option<string>
  {
    if ops == [] then None
    else
      var last := ops[|ops| - 1];
      if (last.PayFromBalance? && last.id == id && !last.cut) || (last.OpenPayment? && last.id == id) then Some(last.account)
      else LastPayer(ops[..|ops| - 1], id)
  }

  /** Every entry of the payment debits this account. */
  predicate Debits(ledger: seq<Entry>, id: string, account: string)
  {
    forall i :: 0 <= i < |ledger| && ledger[i].reference == PaymentRef(id) ==> !ledger[i].credit && ledger[i].account == account
  }

  lemma {:induction false} PayersRecorded(ops: seq<Op>, id: string)
    requires CanPlay(ops)
    ensures var s, first := Played(ops), FirstPayer(ops, id);
            && (HasReference(s.ledger, PaymentRef(id)) <==> first.Some?)
            && (first.Some? ==> Debits(s.ledger, id, first.value))
            && (id in s.payments <==> LastPayer(ops, id).Some?)
            && (id in s.payments ==> s.payments[id].account == LastPayer(ops, id).value)
    decreases |ops|
  {
    if ops != [] {
      var front, op := ops[..|ops| - 1], ops[|ops| - 1];
      PayersRecorded(front, id);
      var s := Played(front);
      PayerStep(s, op, id);
    }
  }

  /** How one write changes the debits of a payment. */
  lemma PayerStep(s: Store, op: Op, id: string)
    requires CanApply(s, op)
    ensures var ledger := ApplyOp(s, op).ledger;
            var pays := op.PayFromBalance? && op.id == id;
            && (HasReference(ledger, PaymentRef(id)) <==> HasReference(s.ledger, PaymentRef(id)) || pays)
            && (forall account :: HasReference(s.ledger, PaymentRef(id)) && Debits(s.ledger, id, account) ==> Debits(ledger, id, account))
            && (!HasReference(s.ledger, PaymentRef(id)) && pays ==> Debits(ledger, id, op.account))
  {
    var ledger := ApplyOp(s, op).ledger;
    if op.CreditDeposit? {
      AppendedReference(s.ledger, CreditOf(s.deposits[op.at]));
    } else if op.PayFromBalance? {
      AppendedReference(s.ledger, DebitOf(op.account, op.chain, op.token, op.units, op.id));
    }
  }

  /** Over every run: a debited payment records the account that was debited exactly when its last uncut payer (or, if every
      attempt was cut, its opener) is the account that first tried to pay it. */
  lemma PayerAgreesIff(ops: seq<Op>, id: string)
    requires CanPlay(ops) && id in Played(ops).payments && HasReference(Played(ops).ledger, PaymentRef(id))
    ensures var s := Played(ops);
            Debits(s.ledger, id, s.payments[id].account) <==> LastPayer(ops, id) == FirstPayer(ops, id)
  {
    PayersRecorded(ops, id);
    var s := Played(ops);
    var i :| 0 <= i < |s.ledger| && s.ledger[i].reference == PaymentRef(id);
  }

  predicate IsUncutPay(op: Op, id: string) { op.PayFromBalance? && op.id == id && !op.cut }

  predicate IsReset(op: Op, id: string) { op.SubmitPayment? && op.id == id && !op.confirmed }

  predicate ResetSince(ops: seq<Op>, i: nat, id: string)
  {
    exists j :: i < j < |ops| && IsReset(ops[j], id)
  }

  /** After an uncut payment the status is paid until an unconfirmed on-chain report resets it. */
  lemma {:induction false} PaidUntilReset(ops: seq<Op>, i: nat, id: string)
    requires CanPlay(ops) && i < |ops| && IsUncutPay(ops[i], id) && !ResetSince(ops, i, id)
    ensures id in Played(ops).payments && Played(ops).payments[id].status == Paid
    decreases |ops|
  {
    var front := ops[..|ops| - 1];
    if i < |front| {
      ResetSplit(ops, i, id);
      PaidUntilReset(front, i, id);
    }
  }

  lemma ResetSplit(ops: seq<Op>, i: nat, id: string)
    requires i < |ops| - 1
    ensures ResetSince(ops, i, id) <==> ResetSince(ops[..|ops| - 1], i, id) || IsReset(ops[|ops| - 1], id)
  {
    var front, last := ops[..|ops| - 1], ops[|ops| - 1];
    if j :| i < j < |front| && IsReset(front[j], id) { assert IsReset(ops[j], id); }
    if j :| i < j < |ops| && IsReset(ops[j], id) { assert j == |ops| - 1 || IsReset(front[j], id); }
    assert IsReset(last, id) ==> IsReset(ops[|ops| - 1], id);
  }

  /** A second payment of the same payment can only follow such a reset, whoever makes it. */
  lemma SecondPayFollowsReset(ops: seq<Op>, i: nat, op: Op, id: string)
    requires CanPlay(ops) && i < |ops| && IsUncutPay(ops[i], id)
    requires op.PayFromBalance? && op.id == id && CanApply(Played(ops), op)
    ensures ResetSince(ops, i, id)
  {
    if !ResetSince(ops, i, id) { PaidUntilReset(ops, i, id); }
  }

  lemma {:induction false} PlayPrefix(ops: seq<Op>, n: nat)
    requires CanPlay(ops) && n <= |ops|
    ensures CanPlay(ops[..n])
    ensures n < |ops| ==> CanApply(Played(ops[..n]), ops[n])
    decreases |ops|
  {
    if n == |ops| {
      assert ops[..n] == ops;
    } else if n < |ops| - 1 {
      var front := ops[..|ops| - 1];
      PlayPrefix(front, n);
      assert front[..n] == ops[..n] && front[n] == ops[n];
    }
  }

  predicate NeverCut(ops: seq<Op>, id: string)
  {
    forall i :: 0 <= i < |ops| && ops[i].PayFromBalance? && ops[i].id == id ==> !ops[i].cut
  }

  /** The first payment of an id in a list that never cuts one. */
  lemma {:induction false} FirstPay(ops: seq<Op>, id: string) returns (i: nat)
    requires NeverCut(ops, id) && FirstPayer(ops, id).Some?
    ensures i < |ops| && IsUncutPay(ops[i], id) && FirstPayer(ops, id) == Some(ops[i].account)
    ensures forall j :: 0 <= j < i ==> !IsUncutPay(ops[j], id)
    decreases |ops|
  {
    var front := ops[..|ops| - 1];
    i := |front|;
    if FirstPayer(front, id).Some? {
      i := FirstPay(front, id);
    } else {
      NoFirstPay(front, id);
    }
  }

  lemma {:induction false} NoFirstPay(ops: seq<Op>, id: string)
    requires FirstPayer(ops, id).None?
    ensures forall j :: 0 <= j < |ops| ==> !IsUncutPay(ops[j], id)
  {
    if ops != [] {
      NoFirstPay(ops[..|ops| - 1], id);
      assert forall j :: 0 <= j < |ops| - 1 ==> ops[j] == ops[..|ops| - 1][j];
    }
  }

  lemma {:induction false} PayIsRecorded(ops: seq<Op>, i: nat, id: string)
    requires i < |ops| && IsUncutPay(ops[i], id)
    ensures LastPayer(ops, id).Some?
    decreases |ops|
  {
    if i < |ops| - 1 { PayIsRecorded(ops[..|ops| - 1], i, id); }
  }

  predicate IsLastPay(ops: seq<Op>, k: nat, id: string)
  {
    k < |ops| && IsUncutPay(ops[k], id) && forall j :: k < j < |ops| ==> !IsUncutPay(ops[j], id)
  }

  lemma {:induction false} LastPay(ops: seq<Op>, i: nat, id: string) returns (k: nat)
    requires CanPlay(ops) && i < |ops| && IsUncutPay(ops[i], id)
    ensures i <= k && IsLastPay(ops, k, id) && LastPayer(ops, id) == Some(ops[k].account)
    decreases |ops|
  {
    var front, last := ops[..|ops| - 1], ops[|ops| - 1];
    k := |front|;
    if !IsUncutPay(last, id) {
      PayIsRecorded(front, i, id);
      PayersRecorded(front, id);
      k := LastPay(front, i, id);
      forall j | k < j < |ops| ensures !IsUncutPay(ops[j], id) { assert j == |front| || ops[j] == front[j]; }
    }
  }

  /** The last payment was made by another account than the first, after an on-chain report reset the payment in between. */
  predicate RepaidByAnother(ops: seq<Op>, id: string)
  {
    exists i, k :: 0 <= i < k < |ops| && IsFirstPay(ops, i, id) && IsLastPay(ops, k, id)
                   && ops[i].account != ops[k].account && ResetSince(ops[..k], i, id)
  }

  predicate IsFirstPay(ops: seq<Op>, i: nat, id: string)
  {
    i < |ops| && IsUncutPay(ops[i], id) && forall j :: 0 <= j < i ==> !IsUncutPay(ops[j], id)
  }

  /** Over every run without cut payments: a debited payment records the account that was debited, unless another account was
      the last to pay it after a reset. */
  lemma RecordedPayerIff(ops: seq<Op>, id: string)
    requires CanPlay(ops) && NeverCut(ops, id) && HasReference(Played(ops).ledger, PaymentRef(id))
    ensures var s := Played(ops);
            id in s.payments && (Debits(s.ledger, id, s.payments[id].account) <==> !RepaidByAnother(ops, id))
  {
    hide CanPlay, Played, FirstPayer, LastPayer, Debits, NeverCut, ResetSince, CanApply;
    PayersRecorded(ops, id);
    var i := FirstPay(ops, id);
    PayIsRecorded(ops, i, id);
    PayerAgreesIff(ops, id);
    var k := LastPay(ops, i, id);
    if ops[i].account != ops[k].account {
      PlayPrefix(ops, k);
      SecondPayFollowsReset(ops[..k], i, ops[k], id);
      assert IsFirstPay(ops, i, id) && IsLastPay(ops, k, id);
    }
    if a, b :| 0 <= a < b < |ops| && IsFirstPay(ops, a, id) && IsLastPay(ops, b, id)
               && ops[a].account != ops[b].account && ResetSince(ops[..b], a, id) {
      SameEnds(ops, i, k, a, b, id);
    }
  }

  lemma SameEnds(ops: seq<Op>, i: nat, k: nat, a: nat, b: nat, id: string)
    requires IsFirstPay(ops, i, id) && IsFirstPay(ops, a, id) && IsLastPay(ops, k, id) && IsLastPay(ops, b, id)
    ensures i == a && k == b
  {
  }

  // ----- a payment recorded to the wrong account

  function DepositOf(account: string, serial: int): Deposit
  {
    Deposit(DepositKey("c", "tx", serial), account, "w", "t", "from", "to", 1, 1, Detected, 0)
  }

  function RepayOps(): seq<Op>
  {
    [ Accept(DepositOf("A", 0)), Confirm(0, 1, 1), CreditDeposit(0, false),
      Accept(DepositOf("B", 1)), Confirm(1, 1, 1), CreditDeposit(1, false),
      OpenPayment("p", "A", 1.0),
      PayFromBalance("p", "A", "c", "t", 1, false), SubmitPayment("p", false), PayFromBalance("p", "B", "c", "t", 1, false) ]
  }

  function CreditedDeposit(d: Deposit): Deposit { d.(status := Credited, confirmations := 1) }

  lemma DepositSteps(s: Store, d: Deposit)
    requires d.amount > 0 && d.status == Detected && d.block == 1
    requires !HasDeposit(s.deposits, d.key) && !HasReference(s.ledger, DepositRef(d.key))
    ensures var n := |s.deposits|;
            && CanApply(s, Accept(d))
            && var a := ApplyOp(s, Accept(d));
               && CanApply(a, Confirm(n, 1, 1))
               && var b := ApplyOp(a, Confirm(n, 1, 1));
                  && CanApply(b, CreditDeposit(n, false))
                  && ApplyOp(b, CreditDeposit(n, false))
                     == s.(deposits := s.deposits + [CreditedDeposit(d)], ledger := s.ledger + [CreditOf(d)])
  {
    var n := |s.deposits|;
    assert (s.deposits + [d])[n := Counted(d, 1, 1)][n := CreditedDeposit(d)] == s.deposits + [CreditedDeposit(d)];
  }

  /** Accepting, confirming and crediting one new deposit. */
  lemma PlayDeposit(ops: seq<Op>, d: Deposit)
    requires CanPlay(ops) && d.amount > 0 && d.status == Detected && d.block == 1
    requires !HasDeposit(Played(ops).deposits, d.key) && !HasReference(Played(ops).ledger, DepositRef(d.key))
    ensures var n, s := |Played(ops).deposits|, Played(ops);
            var more := ops + [Accept(d)] + [Confirm(n, 1, 1)] + [CreditDeposit(n, false)];
            && CanPlay(more)
            && Played(more) == s.(deposits := s.deposits + [CreditedDeposit(d)], ledger := s.ledger + [CreditOf(d)])
  {
    hide CanPlay, Played, CanApply, ApplyOp, HasDeposit, HasReference;
    var s, n := Played(ops), |Played(ops).deposits|;
    DepositSteps(s, d);
    PlayNext(ops, Accept(d));
    var a := ops + [Accept(d)];
    PlayNext(a, Confirm(n, 1, 1));
    PlayNext(a + [Confirm(n, 1, 1)], CreditDeposit(n, false));
  }

  lemma PlayNothing()
    ensures CanPlay([]) && Played([]) == NOTHING
  {
  }

  /** Two accounts with one unit each. */
  lemma TwoDeposits() returns (ops: seq<Op>)
    ensures ops == RepayOps()[..6] && CanPlay(ops)
    ensures Played(ops).ledger == [CreditOf(DepositOf("A", 0)), CreditOf(DepositOf("B", 1))] && Played(ops).payments == map[]
  {
    hide CanPlay, Played;
    var a, b := DepositOf("A", 0), DepositOf("B", 1);
    PlayNothing();
    PlayDeposit([], a);
    ops := [] + [Accept(a)] + [Confirm(0, 1, 1)] + [CreditDeposit(0, false)];
    assert Played(ops).ledger == [CreditOf(a)] && Played(ops).deposits == [CreditedDeposit(a)];
    PlayDeposit(ops, b);
    ops := ops + [Accept(b)] + [Confirm(1, 1, 1)] + [CreditDeposit(1, false)];
    assert Played(ops).ledger == [CreditOf(a), CreditOf(b)];
  }

  /** Opening, paying, resetting and paying again, from two accounts with a unit each. */
  lemma RepaySteps(s: Store)
    requires s.ledger == [CreditOf(DepositOf("A", 0)), CreditOf(DepositOf("B", 1))] && s.payments == map[]
    ensures var pa, pb := PayFromBalance("p", "A", "c", "t", 1, false), PayFromBalance("p", "B", "c", "t", 1, false);
            && CanApply(s, OpenPayment("p", "A", 1.0))
            && var a := ApplyOp(s, OpenPayment("p", "A", 1.0));
               && CanApply(a, pa)
               && var b := ApplyOp(a, pa);
                  && CanApply(b, SubmitPayment("p", false))
                  && var c := ApplyOp(b, SubmitPayment("p", false));
                     && CanApply(c, pb)
                     && var d := ApplyOp(c, pb);
                        && d.payments == map["p" := Payment(1.0, Paid, "B")]
                        && d.ledger == s.ledger + [DebitOf("A", "c", "t", 1, "p")]
  {
    var ka, kb, debit := AccountKey("A", "c", "t"), AccountKey("B", "c", "t"), DebitOf("A", "c", "t", 1, "p");
    TwoCredits(s.ledger, ka, kb);
    BalanceAppend(s.ledger, debit, kb);
    AppendedReference(s.ledger, debit);
  }

  /** A pays and is debited, a report resets the payment, B pays: the payment is B's on record, the only debit is A's. */
  lemma PaidByBDebitedToA() returns (run: seq<Store>)
    ensures CanPlay(RepayOps()) && IsLedgerRun(run) && run[|run| - 1] == Played(RepayOps())
    ensures var s := Played(RepayOps());
            && s.payments == map["p" := Payment(1.0, Paid, "B")]
            && s.ledger == [CreditOf(DepositOf("A", 0)), CreditOf(DepositOf("B", 1)), DebitOf("A", "c", "t", 1, "p")]
            && Debits(s.ledger, "p", "A") && !Debits(s.ledger, "p", "B")
            && Balance(s.ledger, AccountKey("A", "c", "t")) == 0 && Balance(s.ledger, AccountKey("B", "c", "t")) == 1
  {
    hide CanPlay, Played, CanApply, ApplyOp, IsLedgerRun;
    var ops := TwoDeposits();
    var pa, pb := PayFromBalance("p", "A", "c", "t", 1, false), PayFromBalance("p", "B", "c", "t", 1, false);
    RepaySteps(Played(ops));
    PlayNext(ops, OpenPayment("p", "A", 1.0));
    var a := ops + [OpenPayment("p", "A", 1.0)];
    PlayNext(a, pa);
    PlayNext(a + [pa], SubmitPayment("p", false));
    PlayNext(a + [pa] + [SubmitPayment("p", false)], pb);
    assert a + [pa] + [SubmitPayment("p", false)] + [pb] == RepayOps();
    run := PlayedIsRun(RepayOps());
    var ledger, debit := Played(ops).ledger, DebitOf("A", "c", "t", 1, "p");
    TwoCredits(ledger, AccountKey("A", "c", "t"), AccountKey("B", "c", "t"));
    BalanceAppend(ledger, debit, AccountKey("A", "c", "t"));
    BalanceAppend(ledger, debit, AccountKey("B", "c", "t"));
    assert (ledger + [debit])[2] == debit;
  }

  lemma TwoCredits(ledger: seq<Entry>, ka: AccountKey, kb: AccountKey)
    requires ledger == [CreditOf(DepositOf("A", 0)), CreditOf(DepositOf("B", 1))]
    requires ka == AccountKey("A", "c", "t") && kb == AccountKey("B", "c", "t")
    ensures Balance(ledger, ka) == 1 && Balance(ledger, kb) == 1
  {
    var a, b := CreditOf(DepositOf("A", 0)), CreditOf(DepositOf("B", 1));
    assert ledger == [] + [a] + [b];
    BalanceAppend([], a, ka);
    BalanceAppend([] + [a], b, ka);
    BalanceAppend([], a, kb);
    BalanceAppend([] + [a], b, kb);
  }

  // ----- what a balance is made of

  function CreditedFor(ledger: seq<Entry>, k: AccountKey): Deposit -> int
  {
    (d: Deposit) => if HasReference(ledger, DepositRef(d.key)) && IsFor(CreditOf(d), k) then d.amount else 0
  }

  function DebitFor(k: AccountKey): Entry -> int
  {
    (e: Entry) => if e.reference.PaymentRef? && IsFor(e, k) then e.amount else 0
  }

  lemma {:induction false} CreditedSame(deposits: seq<Deposit>, f: Deposit -> int, g: Deposit -> int)
    requires forall i :: 0 <= i < |deposits| ==> f(deposits[i]) == g(deposits[i])
    ensures SumInt(deposits, f) == SumInt(deposits, g)
  {
    if deposits != [] { CreditedSame(deposits[1..], f, g); }
  }

  /** Adding the credit of row i to a ledger that does not refer to it adds its amount once. */
  lemma {:induction false} CreditAdds(deposits: seq<Deposit>, ledger: seq<Entry>, i: nat, k: AccountKey)
    requires KeysUnique(deposits) && i < |deposits|
    requires !HasReference(ledger, DepositRef(deposits[i].key))
    ensures SumInt(deposits, CreditedFor(ledger + [CreditOf(deposits[i])], k))
            == SumInt(deposits, CreditedFor(ledger, k)) + if IsFor(CreditOf(deposits[i]), k) then deposits[i].amount else 0
    decreases |deposits|
  {
    hide IsFor;
    var e := CreditOf(deposits[i]);
    var f, g := CreditedFor(ledger + [e], k), CreditedFor(ledger, k);
    AppendedReference(ledger, e);
    if i == 0 {
      CreditedSame(deposits[1..], f, g);
    } else {
      CreditAdds(deposits[1..], ledger, i - 1, k);
      assert deposits[0].key != deposits[i].key;
    }
  }

  lemma AppendedReference(ledger: seq<Entry>, e: Entry)
    ensures forall r :: HasReference(ledger + [e], r) <==> HasReference(ledger, r) || r == e.reference
  {
    var after := ledger + [e];
    assert after[|ledger|] == e;
    forall r ensures HasReference(after, r) <==> HasReference(ledger, r) || r == e.reference {
      if HasReference(ledger, r) {
        var i :| 0 <= i < |ledger| && ledger[i].reference == r;
        assert after[i].reference == r;
      }
    }
  }

  lemma {:induction false} NoneCredited(deposits: seq<Deposit>, k: AccountKey)
    ensures SumInt(deposits, CreditedFor([], k)) == 0
  {
    if deposits != [] { NoneCredited(deposits[1..], k); }
  }

  /** A balance is the sum of the account's credited deposits less the sum of its payment debits. */
  lemma {:induction false} BalanceIsDepositsLessPayments(deposits: seq<Deposit>, ledger: seq<Entry>, k: AccountKey)
    requires KeysUnique(deposits) && ReferencesUnique(ledger) && EntriesOk(deposits, ledger)
    ensures Balance(ledger, k) == SumInt(deposits, CreditedFor(ledger, k)) - SumInt(ledger, DebitFor(k))
    decreases |ledger|
  {
    hide IsFor;
    if ledger == [] {
      NoneCredited(deposits, k);
    } else {
      var front, e := ledger[..|ledger| - 1], ledger[|ledger| - 1];
      assert ledger == front + [e];
      assert EntryOk(deposits, e);
      assert forall n :: 0 <= n < |front| ==> EntryOk(deposits, front[n]) by {
        forall n | 0 <= n < |front| ensures EntryOk(deposits, front[n]) { assert front[n] == ledger[n]; }
      }
      BalanceIsDepositsLessPayments(deposits, front, k);
      BalanceAppend(front, e, k);
      LastDebit(front, e, k);
      if e.reference.DepositRef? {
        var i :| 0 <= i < |deposits| && IsCreditOf(e, deposits[i]);
        CreditAdds(deposits, front, i, k);
      } else {
        AppendedReference(front, e);
        CreditedSame(deposits, CreditedFor(ledger, k), CreditedFor(front, k));
      }
    }
  }

  lemma LastDebit(front: seq<Entry>, e: Entry, k: AccountKey)
    ensures SumInt(front + [e], DebitFor(k)) == SumInt(front, DebitFor(k)) + DebitFor(k)(e)
  {
    SumIntAppend(front, [e], DebitFor(k));
    assert [e][1..] == [];
    assert SumInt([e][1..], DebitFor(k)) == 0;
  }

  /** The balance statement for every state of every run. */
  lemma BalancesInEveryRun(run: seq<Store>, i: nat, k: AccountKey)
    requires IsLedgerRun(run) && i < |run|
    ensures var s := run[i];
            && Balance(s.ledger, k) >= 0
            && Balance(s.ledger, k) == SumInt(s.deposits, CreditedFor(s.ledger, k)) - SumInt(s.ledger, DebitFor(k))
            && (forall a, b :: 0 <= a < b < |s.ledger| ==> s.ledger[a].reference != s.ledger[b].reference)
            && (forall d :: 0 <= d < |s.deposits| && s.deposits[d].status == Credited
                            ==> HasReference(s.ledger, DepositRef(s.deposits[d].key)))
  {
    LedgerIsSafe(run, i);
    BalanceIsDepositsLessPayments(run[i].deposits, run[i].ledger, k);
  }

  /** Crediting again after a cut between the two writes ends where an uncut credit ends. */
  lemma CutCreditRerun(s: Store, i: nat)
    requires CanApply(s, CreditDeposit(i, true))
    ensures CanApply(ApplyOp(s, CreditDeposit(i, true)), CreditDeposit(i, false))
    ensures ApplyOp(ApplyOp(s, CreditDeposit(i, true)), CreditDeposit(i, false)) == ApplyOp(s, CreditDeposit(i, false))
  {
    PutReference(s.ledger, CreditOf(s.deposits[i]));
  }

  /** A payment that was debited once is never debited again, whatever resets its status and whoever pays it next. */
  lemma PaymentDebitsOnce(run: seq<Store>, i: nat, j: nat, id: string)
    requires IsLedgerRun(run) && i <= j < |run| && HasReference(run[i].ledger, PaymentRef(id))
    ensures forall a, b :: 0 <= a < |run[i].ledger| && 0 <= b < |run[j].ledger|
                           && run[i].ledger[a].reference == PaymentRef(id) && run[j].ledger[b].reference == PaymentRef(id)
                           ==> a == b && run[j].ledger[b] == run[i].ledger[a]
  {
    LedgerOnlyGrows(run, i, j);
    LedgerIsSafe(run, j);
  }

  // ----- two ways to read a balance

  function OfAccount(account: string): Entry -> bool { (e: Entry) => e.account == account }

  /** The last n entries of a list. */
  function Newest<T>(s: seq<T>, n: nat): seq<T> { s[|s| - Min(n, |s|)..] }

  function Older<T>(s: seq<T>, n: nat): seq<T> { s[..|s| - Min(n, |s|)] }

  const LIST_LIMIT: nat := 1000

  /** The balance over the newest entries of the account that the ledger listing returns. */
  function ListedBalance(ledger: seq<Entry>, k: AccountKey): int
  {
    SumInt(Newest(Filter(ledger, OfAccount(k.account)), LIST_LIMIT), SignedFor(k))
  }

  lemma {:induction false} AccountHoldsBalance(ledger: seq<Entry>, k: AccountKey)
    ensures SumInt(Filter(ledger, OfAccount(k.account)), SignedFor(k)) == Balance(ledger, k)
  {
    if ledger != [] {
      AccountHoldsBalance(ledger[1..], k);
      SumIntAppend(if ledger[0].account == k.account then [ledger[0]] else [], Filter(ledger[1..], OfAccount(k.account)), SignedFor(k));
    }
  }

  /** The two readings agree exactly when the entries beyond the limit cancel out. */
  lemma ReadingsAgreeIff(ledger: seq<Entry>, k: AccountKey)
    ensures ListedBalance(ledger, k) == Balance(ledger, k)
            <==> SumInt(Older(Filter(ledger, OfAccount(k.account)), LIST_LIMIT), SignedFor(k)) == 0
  {
    var mine := Filter(ledger, OfAccount(k.account));
    AccountHoldsBalance(ledger, k);
    SumIntAppend(Older(mine, LIST_LIMIT), Newest(mine, LIST_LIMIT), SignedFor(k));
    assert mine == Older(mine, LIST_LIMIT) + Newest(mine, LIST_LIMIT);
  }

  /** Ledgers in which an account has n entries. */
  ghost predicate HasEntries(ledger: seq<Entry>, account: string, n: nat)
  {
    ReferencesUnique(ledger) && BalancesOk(ledger) && |Filter(ledger, OfAccount(account))| == n
  }

  ghost predicate AgreeForAll(n: nat)
  {
    forall ledger, k: AccountKey :: HasEntries(ledger, k.account, n) ==> ListedBalance(ledger, k) == Balance(ledger, k)
  }

  function DepositCredit(i: nat): Entry { Entry("a", "c", "t", true, 1, DepositRef(DepositKey("c", "", i))) }

  /** n credits of one unit each. */
  function Credits(n: nat): (s: seq<Entry>)
    ensures |s| == n && forall i :: 0 <= i < n ==> s[i] == DepositCredit(i)
  {
    seq(n, i requires 0 <= i < n => DepositCredit(i))
  }

  lemma {:induction false} CreditsSum(s: seq<Entry>, k: AccountKey)
    requires forall e :: e in s ==> e.credit && e.amount == 1 && e.account == "a" && e.chain == "c" && e.token == "t"
    ensures Filter(s, OfAccount("a")) == s
    ensures SumInt(s, SignedFor(k)) == if k == AccountKey("a", "c", "t") then |s| else 0
  {
    if s != [] { CreditsSum(s[1..], k); }
  }

  lemma CreditsAreEntries(n: nat)
    ensures HasEntries(Credits(n), "a", n)
  {
    var s := Credits(n);
    forall k ensures Balance(s, k) >= 0 { CreditsSum(s, k); }
    CreditsSum(s, AccountKey("a", "c", "t"));
  }

  function ManyDeposit(i: nat): Deposit
  {
    Deposit(DepositKey("c", "", i), "a", "w", "t", "from", "to", 1, 1, Detected, 0)
  }

  /** n deposits of one unit, each confirmed and credited. */
  function CreditOps(n: nat): seq<Op>
  {
    if n == 0 then []
    else CreditOps(n - 1) + [Accept(ManyDeposit(n - 1))] + [Confirm(n - 1, 1, 1)] + [CreditDeposit(n - 1, false)]
  }

  /** The ledger of n credits is reached by a run. */
  lemma {:induction false} CreditsAreReached(n: nat)
    ensures CanPlay(CreditOps(n))
    ensures var s := Played(CreditOps(n));
            && s.ledger == Credits(n) && |s.deposits| == n
            && forall i :: 0 <= i < n ==> s.deposits[i].key == DepositKey("c", "", i)
  {
    hide CanPlay, Played;
    if n == 0 {
      PlayNothing();
    } else {
      CreditsAreReached(n - 1);
      var s, d := Played(CreditOps(n - 1)), ManyDeposit(n - 1);
      PlayDeposit(CreditOps(n - 1), d);
      assert CreditOf(d) == DepositCredit(n - 1);
    }
  }

  /** Beyond the limit a reachable ledger reads differently. */
  lemma ReadingsDifferInRun(n: nat) returns (run: seq<Store>)
    requires n > LIST_LIMIT
    ensures IsLedgerRun(run)
    ensures var ledger, k := run[|run| - 1].ledger, AccountKey("a", "c", "t");
            HasEntries(ledger, "a", n) && ListedBalance(ledger, k) == LIST_LIMIT && Balance(ledger, k) == n
  {
    hide CanPlay, Played, IsLedgerRun, CreditOps;
    CreditsAreReached(n);
    run := PlayedIsRun(CreditOps(n));
    var s, k := Credits(n), AccountKey("a", "c", "t");
    CreditsAreEntries(n);
    CreditsSum(s, k);
    CreditsSum(Newest(s, LIST_LIMIT), k);
  }

  /** Beyond the limit some ledger reads differently. */
  lemma ReadingsDiffer(n: nat)
    requires n > LIST_LIMIT
    ensures !AgreeForAll(n)
  {
    var s, k := Credits(n), AccountKey("a", "c", "t");
    CreditsAreEntries(n);
    CreditsSum(s, k);
    CreditsSum(Older(s, LIST_LIMIT), k);
    ReadingsAgreeIff(s, k);
    assert HasEntries(s, k.account, n) && ListedBalance(s, k) != Balance(s, k);
  }

  /** The listed balances agree with the available balance for all ledgers in which the account has n entries
      exactly when n is at most 1000. */
  lemma ReadingsAgreeUpToLimit(n: nat)
    ensures AgreeForAll(n) <==> n <= LIST_LIMIT
  {
    if n <= LIST_LIMIT {
      forall ledger, k: AccountKey | HasEntries(ledger, k.account, n) ensures ListedBalance(ledger, k) == Balance(ledger, k) {
        assert Older(Filter(ledger, OfAccount(k.account)), LIST_LIMIT) == [];
        ReadingsAgreeIff(ledger, k);
      }
    } else {
      ReadingsDiffer(n);
    }
  }
}
