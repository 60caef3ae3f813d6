/** The marketplace's money methods as they change the stored rows. */
module MarketplaceMoney {
  import opened Prelude
  import opened Sums
  import opened MarketplaceLedger
  import opened MarketplaceConfirmations

  // ----- prices

  function Power10(n: nat): (p: real)
    ensures p >= 1.0
  {
    if n == 0 then 1.0 else 10.0 * Power10(n - 1)
  }

  function TokenAmount(amountPi: real, rate: real, decimals: nat): real
    requires rate > 0.0
  {
    amountPi / rate * Power10(decimals)
  }

  /** The price in base units of a token, rounded up. */
  function AmountPiToBaseUnits(amountPi: real, token: Token): Result<int, Error>
  {
    if token.rate.None? || token.rate.value <= 0.0 then Failure(NoRate)
    else Success(Ceiling(TokenAmount(amountPi, token.rate.value, token.decimals)))
  }

  /** One at no decimals, ten times as much for each further one. */
  lemma Power10Is(n: nat)
    ensures Power10(0) == 1.0 && Power10(n + 1) == 10.0 * Power10(n)
  {
  }

  /** There is a price exactly when the token has a positive rate. The price is never undercharged, and overcharged by less
      than one base unit. */
  lemma PriceRoundsUp(amountPi: real, token: Token)
    requires amountPi >= 0.0
    ensures var r := AmountPiToBaseUnits(amountPi, token);
            && (r.Success? <==> token.rate.Some? && token.rate.value > 0.0)
            && (r.Success? ==>
                  && 0 <= r.value
                  && (r.value - 1) as real * token.rate.value < amountPi * Power10(token.decimals) <= r.value as real * token.rate.value)
  {
    if token.rate.Some? && token.rate.value > 0.0 {
      var rate, scale := token.rate.value, Power10(token.decimals);
      var exact := TokenAmount(amountPi, rate, token.decimals);
      Quotient(amountPi, rate, scale);
      assert exact * rate == amountPi * scale;
      var u := Ceiling(exact);
      Scaled((u - 1) as real, exact, rate);
      assert exact <= u as real;
      assert exact * rate <= u as real * rate;
    }
  }

  lemma Quotient(amount: real, rate: real, scale: real)
    requires amount >= 0.0 && rate > 0.0 && scale >= 1.0
    ensures amount / rate * scale >= 0.0 && amount / rate * scale * rate == amount * scale
  {
    var q := amount / rate;
    assert q * rate == amount && q >= 0.0;
    assert q * scale * rate == (q * rate) * scale;
  }

  /** A balance covers the price exactly when it is worth the amount. */
  lemma CoversIff(balance: int, amountPi: real, token: Token)
    requires amountPi >= 0.0 && token.rate.Some? && token.rate.value > 0.0
    ensures balance < AmountPiToBaseUnits(amountPi, token).value
            <==> balance as real * token.rate.value < amountPi * Power10(token.decimals)
  {
    hide AmountPiToBaseUnits;
    PriceRoundsUp(amountPi, token);
    var u, rate := AmountPiToBaseUnits(amountPi, token).value, token.rate.value;
    if balance < u {
      if balance < u - 1 { Scaled(balance as real, (u - 1) as real, rate); }
    } else if balance > u {
      Scaled(u as real, balance as real, rate);
    }
  }

  lemma Scaled(x: real, y: real, rate: real)
    requires x < y && rate > 0.0
    ensures x * rate < y * rate
  {
  }

  // ----- paying from balance

  datatype PayPlan = Refuse(error: Error) | AlreadyPaid | Debit(units: nat)

  function PlanPayment(reg: Registry, s: Store, id: string, account: string, chain: string, symbol: string): PayPlan
    requires forall p :: p in s.payments ==> s.payments[p].amountPi >= 0.0
  {
    if id !in s.payments then Refuse(UnknownPayment)
    else if s.payments[id].status == Paid then
      if HasReference(s.ledger, PaymentRef(id)) then AlreadyPaid else Refuse(NoDebit)
    else if (chain, symbol) !in reg.tokens then Refuse(UnknownToken)
    else
      var price := AmountPiToBaseUnits(s.payments[id].amountPi, reg.tokens[(chain, symbol)]);
      if price.Failure? then Refuse(NoRate)
      else if account !in reg.accounts then Refuse(UnknownAccount)
      else
        PriceRoundsUp(s.payments[id].amountPi, reg.tokens[(chain, symbol)]);
        if Balance(s.ledger, AccountKey(account, chain, symbol)) < price.value then Refuse(Insufficient) else Debit(price.value)
  }

  // ----- counting processed rows

  /** How many rows have at least `need` confirmations. */
  function CountWith(rows: seq<PendingRow>, latest: int, need: int): nat
  {
    if rows == [] then 0
    else CountWith(rows[..|rows| - 1], latest, need) + if latest - rows[|rows| - 1].block + 1 >= need then 1 else 0
  }

  /** Taking the k-th row off the list. */
  lemma NextRow(s: Store, rows: seq<PendingRow>, k: nat, latest: int, required: int)
    requires k < |rows| && RowsOk(s.deposits, rows)
    ensures var mid := ProcessRows(s, rows[..k], latest, required);
            && ProcessRows(s, rows[..k + 1], latest, required) == RowTo(mid, rows[k].at, latest, required, Done)
            && mid.deposits[rows[k].at] == s.deposits[rows[k].at]
    ensures forall need ::
              CountWith(rows[..k + 1], latest, need)
              == CountWith(rows[..k], latest, need) + if latest - rows[k].block + 1 >= need then 1 else 0
  {
    hide RowTo;
    assert rows[..k + 1][..k] == rows[..k];
    ProcessRowsIs(s, rows[..k], latest, required);
    CutNotListed(rows, k);
  }

  lemma NoRows(s: Store, rows: seq<PendingRow>, latest: int, required: int)
    ensures ProcessRows(s, rows[..0], latest, required) == s
    ensures CountWith(rows[..0], latest, 1) == 0 && CountWith(rows[..0], latest, required) == 0
  {
  }

  // ----- totals per token

  /** A dictionary with the signed sum of some entries of one account for every chain and token. */
  ghost predicate TotalsOf(totals: map<(string, string), int>, entries: seq<Entry>, account: string)
  {
    forall c: string, t: string :: (if (c, t) in totals then totals[(c, t)] else 0) == Balance(entries, AccountKey(account, c, t))
  }

  lemma NoTotals(account: string)
    ensures TotalsOf(map[], [], account)
  {
  }

  lemma TotalsAdd(totals: map<(string, string), int>, entries: seq<Entry>, e: Entry, account: string)
    requires TotalsOf(totals, entries, account) && e.account == account
    ensures var key := (e.chain, e.token);
            TotalsOf(totals[key := (if key in totals then totals[key] else 0) + Signed(e)], entries + [e], account)
  {
    var key := (e.chain, e.token);
    var more := totals[key := (if key in totals then totals[key] else 0) + Signed(e)];
    forall c: string, t: string
      ensures (if (c, t) in more then more[(c, t)] else 0) == Balance(entries + [e], AccountKey(account, c, t))
    {
      BalanceAppend(entries, e, AccountKey(account, c, t));
    }
  }

  lemma TotalAt(totals: map<(string, string), int>, entries: seq<Entry>, account: string, c: string, t: string)
    requires TotalsOf(totals, entries, account)
    ensures (if (c, t) in totals then totals[(c, t)] else 0) == SumInt(entries, SignedFor(AccountKey(account, c, t)))
  {
    assert (if (c, t) in totals then totals[(c, t)] else 0) == Balance(entries, AccountKey(account, c, t));
  }

  lemma NewestAreOfAccount(ledger: seq<Entry>, account: string)
    ensures forall e :: e in Newest(Filter(ledger, OfAccount(account)), LIST_LIMIT) ==> e.account == account
  {
    forall e | e in Newest(Filter(ledger, OfAccount(account)), LIST_LIMIT) ensures e.account == account {
      assert e in Filter(ledger, OfAccount(account)) && OfAccount(account)(e);
    }
  }

  /** Adds up the entries of one account by chain and token. */
  method TotalsByToken(entries: seq<Entry>, account: string) returns (totals: map<(string, string), int>)
    requires forall e :: e in entries ==> e.account == account
    ensures TotalsOf(totals, entries, account)
  {
    hide TotalsOf;
    totals := map[];
    NoTotals(account);
    for i := 0 to |entries|
      invariant TotalsOf(totals, entries[..i], account)
    {
      var e := entries[i];
      assert entries[..i + 1] == entries[..i] + [e];
      TotalsAdd(totals, entries[..i], e, account);
      var key := (e.chain, e.token);
      totals := totals[key := (if key in totals then totals[key] else 0) + if e.credit then e.amount else -e.amount];
    }
    assert entries[..|entries|] == entries;
  }

  // ----- the stored rows

  class Marketplace {
    var deposits: seq<Deposit>
    var ledger: seq<Entry>
    var payments: map<string, Payment>

    ghost function Rows(): Store
      reads this
    {
      Store(deposits, ledger, payments)
    }

    constructor ()
      ensures Rows() == Store([], [], map[]) && LedgerOk(Rows())
    {
      deposits, ledger, payments := [], [], map[];
      new;
      NothingStored();
    }

    method FindDeposit(key: DepositKey) returns (at: Option<nat>)
      ensures at.Some? ==> at.value < |deposits| && deposits[at.value].key == key
      ensures at.None? <==> !HasDeposit(deposits, key)
    {
      for i := 0 to |deposits|
        invariant forall k :: 0 <= k < i ==> deposits[k].key != key
      {
        if deposits[i].key == key { return Some(i); }
      }
      return None;
    }

    /** Stores a deposit event once; a second report of the same event is recognised or refused, and stores nothing. */
    method AcceptDeposit(reg: Registry, q: DepositRequest) returns (r: Result<Deposit, Error>)
      requires LedgerOk(Rows())
      modifies this`deposits
      ensures LedgerOk(Rows())
      ensures var checked := Checked(reg, q);
              if checked.Failure? then r == checked && deposits == old(deposits)
              else if HasDeposit(old(deposits), checked.value.key) then
                && deposits == old(deposits)
                && exists i :: 0 <= i < |deposits| && deposits[i].key == checked.value.key
                               && r == if DepositsMatch(deposits[i], checked.value) then Success(deposits[i]) else Failure(Conflict)
              else r == checked && Rows() == ApplyOp(old(Rows()), Accept(checked.value))
      ensures r.Success? ==>
                && (q.chain, q.sender) in reg.wallets
                && r.value.account == reg.wallets[(q.chain, q.sender)].account && r.value.wallet == reg.wallets[(q.chain, q.sender)].id
                && r.value.key == DepositKey(q.chain, q.txHash, q.logIndex) && r.value.token == q.token
                && r.value.sender == q.sender && r.value.recipient == q.recipient && r.value.amount == q.amount > 0 && r.value.block == q.block
                && r.value in deposits
                && (deposits == old(deposits) || (deposits == old(deposits) + [r.value] && r.value.status == Detected && r.value.confirmations == 0))
      ensures r.Failure? ==> deposits == old(deposits)
    {
      hide LedgerOk;
      if q.chain !in reg.chains { return Failure(UnknownChain); }
      var chain := reg.chains[q.chain];
      if !chain.enabled { return Failure(ChainDisabled); }
      if (q.chain, q.token) !in reg.tokens { return Failure(UnknownToken); }
      if !reg.tokens[(q.chain, q.token)].enabled { return Failure(TokenDisabled); }
      if chain.depositAddress != "" && q.recipient != chain.depositAddress { return Failure(WrongDestination); }
      if q.amount <= 0 { return Failure(BadAmount); }
      if (q.chain, q.sender) !in reg.wallets { return Failure(NoWallet); }
      var w := reg.wallets[(q.chain, q.sender)];
      var key := DepositKey(q.chain, q.txHash, q.logIndex);
      var d := Deposit(key, w.account, w.id, q.token, q.sender, q.recipient, q.amount, q.block, Detected, 0);
      var at := FindDeposit(key);
      if at.Some? {
        var existing := deposits[at.value];
        if !DepositsMatch(existing, d) { return Failure(Conflict); }
        return Success(existing);
      }
      OpKeeps(Rows(), Accept(d));
      deposits := deposits + [d];
      return Success(d);
    }

    method FindLedgerReference(reference: Reference) returns (entry: Option<Entry>)
      ensures entry.Some? <==> HasReference(ledger, reference)
      ensures entry.Some? ==> entry.value in ledger && entry.value.reference == reference
    {
      for i := 0 to |ledger|
        invariant forall k :: 0 <= k < i ==> ledger[k].reference != reference
      {
        if ledger[i].reference == reference { return Some(ledger[i]); }
      }
      return None;
    }

    method PutLedgerEntry(entry: Entry)
      modifies this`ledger
      ensures ledger == PutEntry(old(ledger), entry)
      ensures ledger == old(ledger) + if exists i :: 0 <= i < |old(ledger)| && old(ledger)[i].reference == entry.reference then [] else [entry]
    {
      var existing := FindLedgerReference(entry.reference);
      if existing.None? { ledger := ledger + [entry]; }
    }

    /** Two writes, the ledger first; `cut` stops between them. */
    method CreditDeposit(at: nat, cut: bool) returns (r: Result<Entry, Error>)
      requires at < |deposits| && LedgerOk(Rows())
      modifies this
      ensures LedgerOk(Rows())
      ensures r.Success? <==> CanApply(old(Rows()), MarketplaceLedger.CreditDeposit(at, cut))
      ensures Rows() == if r.Success? then ApplyOp(old(Rows()), MarketplaceLedger.CreditDeposit(at, cut)) else old(Rows())
      ensures r.Success? ==> r.value in ledger && r.value.reference == DepositRef(old(deposits[at].key))
      ensures r.Success? && !HasReference(old(ledger), DepositRef(old(deposits[at].key))) ==>
                var d := old(deposits)[at];
                r.value == Entry(d.account, d.key.chain, d.token, true, d.amount, DepositRef(d.key)) && ledger == old(ledger) + [r.value]
      ensures r.Success? && HasReference(old(ledger), DepositRef(old(deposits[at].key))) ==> ledger == old(ledger)
      ensures r.Success? && !cut ==> deposits == old(deposits)[at := old(deposits)[at].(status := Credited)]
    {
      hide LedgerOk;
      if deposits[at].status != Confirmed && deposits[at].status != Credited { return Failure(NotConfirmed); }
      OpKeeps(Rows(), MarketplaceLedger.CreditDeposit(at, cut));
      PutReference(ledger, CreditOf(deposits[at]));
      var existing := FindLedgerReference(DepositRef(deposits[at].key));
      if existing.Some? {
        if deposits[at].status != Credited && !cut {
          deposits := deposits[at := deposits[at].(status := Credited)];
        } else if !cut {
          assert deposits[at := deposits[at].(status := Credited)] == deposits;
        }
        return Success(existing.value);
      }
      var entry := CreditOf(deposits[at]);
      PutLedgerEntry(entry);
      if !cut {
        deposits := deposits[at := deposits[at].(status := Credited)];
      }
      return Success(entry);
    }

    /** Counts the confirmations of one pending deposit and credits it once it has enough; `stage` is where it is cut short. */
    method ConfirmDeposit(at: nat, latest: int, required: int, stage: Stage) returns (credited: bool)
      requires LedgerOk(Rows()) && at < |deposits| && deposits[at].status != Credited
      modifies this
      ensures LedgerOk(Rows()) && Rows() == RowTo(old(Rows()), at, latest, required, stage)
      ensures stage.Done? && latest >= old(deposits)[at].block ==>
                && deposits[at].confirmations == latest - old(deposits)[at].block + 1
                && (deposits[at].status == Credited <==> latest - old(deposits)[at].block + 1 >= required)
                && (deposits[at].status == Credited ==> HasReference(ledger, DepositRef(old(deposits)[at].key)))
      ensures credited <==> stage.Done? && Enough(old(deposits[at]), latest, required)
    {
      hide LedgerOk;
      if latest < deposits[at].block || stage.Untouched? { return false; }
      OpKeeps(Rows(), Confirm(at, latest, required));
      var n := latest - deposits[at].block + 1;
      if n < required {
        var status := deposits[at].status;
        deposits := deposits[at := deposits[at].(confirmations := n, status := if status == Detected then Confirming else status)];
        return false;
      }
      deposits := deposits[at := deposits[at].(confirmations := n, status := Confirmed)];
      if stage.Noted? { return false; }
      var r := CreditDeposit(at, stage.Entered?);
      return stage.Done?;
    }

    /** Counts confirmations up to `latest` and credits every deposit that has enough, row by row up to the cut. */
    method ProcessConfirmations(chain: string, rank: DepositKey -> int, required: int, latest: int, cut: Option<Cut>)
      returns (processed: nat, credited: nat)
      requires LedgerOk(Rows()) && required >= 1
      requires cut.Some? ==> cut.value.row < |PendingList(deposits, chain, rank)| && !cut.value.stage.Done?
      modifies this
      ensures LedgerOk(Rows())
      ensures Rows() == Process(old(Rows()), chain, rank, latest, required, cut)
      ensures var whole := WholeRows(PendingList(old(deposits), chain, rank), cut);
              processed == CountWith(whole, latest, 1) && credited == CountWith(whole, latest, required)
    {
      hide LedgerOk, CountWith, ProcessRows, RowTo, PendingList, IsListed, IsPending;
      var rows := PendingList(deposits, chain, rank);
      PendingAre(deposits, chain, rank);
      ghost var start := Rows();
      var n := if cut.Some? then cut.value.row else |rows|;
      processed, credited := 0, 0;
      NoRows(start, rows, latest, required);
      for k := 0 to n
        invariant LedgerOk(Rows()) && Rows() == ProcessRows(start, rows[..k], latest, required)
        invariant processed == CountWith(rows[..k], latest, 1) && credited == CountWith(rows[..k], latest, required)
      {
        NextRow(start, rows, k, latest, required);
        if rows[k].block <= latest { processed := processed + 1; }
        var done := ConfirmDeposit(rows[k].at, latest, required, Done);
        if done { credited := credited + 1; }
      }
      assert rows[..|rows|] == rows;
      if cut.Some? {
        NextRow(start, rows, n, latest, required);
        var done := ConfirmDeposit(rows[n].at, latest, required, cut.value.stage);
      }
    }

    /** Adds up every ledger entry of an account and token. */
    method AvailableBalance(reg: Registry, account: string, chain: string, symbol: string) returns (r: Result<int, Error>)
      ensures r == if account in reg.accounts then Success(Balance(ledger, AccountKey(account, chain, symbol))) else Failure(UnknownAccount)
    {
      if account !in reg.accounts { return Failure(UnknownAccount); }
      ghost var k := AccountKey(account, chain, symbol);
      var total := 0;
      for i := 0 to |ledger|
        invariant total == Balance(ledger[..i], k)
      {
        var e := ledger[i];
        assert ledger[..i + 1] == ledger[..i] + [e];
        BalanceAppend(ledger[..i], e, k);
        if e.account == account && e.chain == chain && e.token == symbol {
          total := total + if e.credit then e.amount else -e.amount;
        }
      }
      assert ledger[..|ledger|] == ledger;
      return Success(total);
    }

    /** One figure per token, from the entries the ledger listing returns; an unknown account is refused. */
    method AccountBalances(reg: Registry, account: string, tokens: seq<(string, string)>) returns (r: Result<seq<int>, Error>)
      ensures account !in reg.accounts ==> r == Failure(UnknownAccount)
      ensures account in reg.accounts ==>
                && r.Success? && |r.value| == |tokens|
                && forall t :: 0 <= t < |tokens| ==> r.value[t] == ListedBalance(ledger, AccountKey(account, tokens[t].0, tokens[t].1))
    {
      hide TotalsOf, Balance, SumInt, Filter, Newest, LedgerOk;
      if account !in reg.accounts { return Failure(UnknownAccount); }
      var entries := Newest(Filter(ledger, OfAccount(account)), LIST_LIMIT);
      NewestAreOfAccount(ledger, account);
      var totals := TotalsByToken(entries, account);
      var amounts: seq<int> := [];
      for t := 0 to |tokens|
        invariant |amounts| == t
        invariant forall u :: 0 <= u < t ==> amounts[u] == ListedBalance(ledger, AccountKey(account, tokens[u].0, tokens[u].1))
      {
        TotalAt(totals, entries, account, tokens[t].0, tokens[t].1);
        amounts := amounts + [if tokens[t] in totals then totals[tokens[t]] else 0];
      }
      return Success(amounts);
    }

    predicate PricesOk()
      reads this
    {
      forall p :: p in payments ==> payments[p].amountPi >= 0.0
    }

    /** Pays a booking's payment out of an account's balance. */
    method PayPaymentFromBalance(reg: Registry, id: string, account: string, chain: string, symbol: string)
      returns (r: Result<Entry, Error>)
      requires LedgerOk(Rows()) && PricesOk()
      modifies this
      ensures LedgerOk(Rows()) && PricesOk()
      ensures var plan := PlanPayment(reg, old(Rows()), id, account, chain, symbol);
              match plan
              case Refuse(e) => r == Failure(e) && Rows() == old(Rows())
              case AlreadyPaid => r.Success? && r.value in ledger && r.value.reference == PaymentRef(id) && Rows() == old(Rows())
              case Debit(units) => r == Success(DebitOf(account, chain, symbol, units, id))
                                   && CanApply(old(Rows()), PayFromBalance(id, account, chain, symbol, units, false))
                                   && Rows() == ApplyOp(old(Rows()), PayFromBalance(id, account, chain, symbol, units, false))
      ensures r.Failure? ==> Rows() == old(Rows())
      ensures r == Failure(UnknownPayment) <==> id !in old(payments)
      ensures id in old(payments) && old(payments)[id].status == Paid ==>
                Rows() == old(Rows()) && (r == Failure(NoDebit) <==> !HasReference(ledger, PaymentRef(id)))
      ensures id in old(payments) && old(payments)[id].status != Paid ==>
                && (r == Failure(UnknownToken) <==> (chain, symbol) !in reg.tokens)
                && ((chain, symbol) in reg.tokens ==>
                      var token, amountPi := reg.tokens[(chain, symbol)], old(payments)[id].amountPi;
                      && (r == Failure(NoRate) <==> token.rate.None? || token.rate.value <= 0.0)
                      && (token.rate.Some? && token.rate.value > 0.0 ==>
                            var balance := Balance(old(ledger), AccountKey(account, chain, symbol));
                            && (r == Failure(UnknownAccount) <==> account !in reg.accounts)
                            && (r == Failure(Insufficient) <==>
                                  account in reg.accounts && balance as real * token.rate.value < amountPi * Power10(token.decimals))
                            && (r.Success? ==>
                                  var units := r.value.amount;
                                  && r.value == Entry(account, chain, symbol, false, units, PaymentRef(id))
                                  && 0 <= units <= balance
                                  && (units - 1) as real * token.rate.value < amountPi * Power10(token.decimals) <= units as real * token.rate.value
                                  && ledger == old(ledger) + (if HasReference(old(ledger), PaymentRef(id)) then [] else [r.value])
                                  && payments == old(payments)[id := old(payments)[id].(status := Paid, account := account)])))
    {
      hide LedgerOk, AmountPiToBaseUnits;
      if id !in payments { return Failure(UnknownPayment); }
      if payments[id].status == Paid {
        var existing := FindLedgerReference(PaymentRef(id));
        if existing.None? { return Failure(NoDebit); }
        return Success(existing.value);
      }
      if (chain, symbol) !in reg.tokens { return Failure(UnknownToken); }
      var price := AmountPiToBaseUnits(payments[id].amountPi, reg.tokens[(chain, symbol)]);
      PriceRoundsUp(payments[id].amountPi, reg.tokens[(chain, symbol)]);
      if price.Failure? { return Failure(NoRate); }
      var balance := AvailableBalance(reg, account, chain, symbol);
      if balance.Failure? { return Failure(UnknownAccount); }
      CoversIff(balance.value, payments[id].amountPi, reg.tokens[(chain, symbol)]);
      if balance.value < price.value { return Failure(Insufficient); }
      OpKeeps(Rows(), PayFromBalance(id, account, chain, symbol, price.value, false));
      var entry := Entry(account, chain, symbol, false, price.value, PaymentRef(id));
      PutLedgerEntry(entry);
      payments := payments[id := payments[id].(status := Paid, account := account)];
      return Success(entry);
    }

    /** An on-chain payment report overwrites the status, also of a payment that was paid from a balance. */
    method SubmitPayment(id: string, confirmations: int, required: int) returns (ok: bool)
      requires LedgerOk(Rows())
      modifies this`payments
      ensures LedgerOk(Rows())
      ensures ok <==> id in old(payments)
      ensures Rows() == if ok then ApplyOp(old(Rows()), MarketplaceLedger.SubmitPayment(id, confirmations >= required)) else old(Rows())
      ensures payments.Keys == old(payments).Keys && forall p :: p in payments ==>
                payments[p] == if p != id then old(payments)[p]
                               else old(payments)[p].(status := if confirmations >= required then Paid else Submitted)
    {
      hide LedgerOk;
      if id !in payments { return false; }
      OpKeeps(Rows(), MarketplaceLedger.SubmitPayment(id, confirmations >= required));
      payments := payments[id := payments[id].(status := if confirmations >= required then Paid else Submitted)];
      return true;
    }
  }
}
