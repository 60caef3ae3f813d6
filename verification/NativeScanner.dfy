/** The scanner's poll as a loop over blocks and transactions. */
module NativeScanner {
  import opened Prelude
  import opened MarketplaceLedger
  import opened MarketplaceConfirmations
  import opened MarketplaceMoney
  import opened MarketplaceScanner
  import opened Sums

  class ChainScanner {
    const setup: Setup
    const market: Marketplace
    var checkpoint: Option<int>

    ghost function State(): Scanner
      reads this, market
    {
      Scanner(market.Rows(), checkpoint)
    }

    constructor (setup: Setup, market: Marketplace)
      ensures this.setup == setup && this.market == market && checkpoint == None
    {
      this.setup := setup;
      this.market := market;
      checkpoint := None;
    }

    /** Stores the deposits of some transactions; refused ones are skipped. */
    method Import(qs: seq<DepositRequest>)
      requires LedgerOk(market.Rows())
      modifies market
      ensures LedgerOk(market.Rows())
      ensures market.Rows() == old(market.Rows()).(deposits := AcceptAll(old(market.deposits), setup.reg, qs))
    {
      hide LedgerOk;
      for i := 0 to |qs|
        invariant LedgerOk(market.Rows())
        invariant market.Rows() == old(market.Rows()).(deposits := AcceptAll(old(market.deposits), setup.reg, qs[..i]))
      {
        assert qs[..i + 1][..i] == qs[..i];
        var r := market.AcceptDeposit(setup.reg, qs[i]);
      }
      assert qs[..|qs|] == qs;
    }

    /** Reads the blocks of a poll in turn, up to where the poll is cut short. */
    method ScanBlocks(from: int, last: int, stop: Stop)
      requires LedgerOk(market.Rows())
      requires stop.InScan? ==> from <= stop.height <= last + 1
      modifies market
      ensures LedgerOk(market.Rows())
      ensures var (h, j) := if stop.InScan? then (stop.height, stop.taken) else (last + 1, 0);
              market.Rows() == old(market.Rows()).(deposits := AcceptAll(old(market.deposits), setup.reg, Upto(setup.content, from, h, j)))
    {
      hide LedgerOk, AcceptAll;
      ghost var start := market.Rows();
      var height := from;
      NothingAccepted(market.deposits, setup.reg);
      assert Requests(setup.content, from, from - 1) == [];
      while height <= last && !(stop.InScan? && stop.height == height)
        invariant from <= height && (height == from || height <= last + 1) && LedgerOk(market.Rows())
        invariant stop.InScan? ==> height <= stop.height
        invariant market.Rows() == start.(deposits := AcceptAll(start.deposits, setup.reg, Requests(setup.content, from, height - 1)))
        decreases last - height
      {
        AcceptAppend(start.deposits, setup.reg, Requests(setup.content, from, height - 1), setup.content(height));
        Import(setup.content(height));
        height := height + 1;
      }
      if stop.InScan? {
        var part := setup.content(height)[..Min(stop.taken, |setup.content(height)|)];
        AcceptAppend(start.deposits, setup.reg, Requests(setup.content, from, height - 1), part);
        Import(part);
      } else {
        assert Upto(setup.content, from, last + 1, 0) == Requests(setup.content, from, last);
        assert Requests(setup.content, from, height - 1) == Requests(setup.content, from, last);
      }
    }

    /** One default poll: blocks after the checkpoint, then confirmations row by row, then the new checkpoint. */
    method PollTransfers(latest: int, stop: Stop)
      requires setup.required >= 1 && LedgerOk(market.Rows()) && PollOk(setup, State(), Poll(latest, stop))
      modifies this, market
      ensures LedgerOk(market.Rows())
      ensures State() == PollStep(setup, old(State()), Poll(latest, stop))
      ensures var from := if old(checkpoint).Some? then old(checkpoint).value + 1 else Max(0, latest - setup.batch + 1);
              var last := Min(latest, from + setup.batch - 1);
              && checkpoint == (if stop.Finished? && latest > 0 then Some(last) else old(checkpoint))
              && (!stop.InScan? ==>
                    Column(market.deposits, Fresh) == AcceptAll(old(Column(market.deposits, Fresh)), setup.reg, Requests(setup.content, from, last)))
    {
      PollReads(setup, State(), Poll(latest, stop));
      hide LedgerOk, AcceptAll, Process, Upto, PendingList;
      var from := if checkpoint.Some? then checkpoint.value + 1 else Max(0, latest - setup.batch + 1);
      var last := Min(latest, from + setup.batch - 1);
      ScanBlocks(from, last, stop);
      if stop.InScan? || latest <= 0 { return; }
      var cut := if stop.InConfirm? then Some(stop.at) else None;
      var processed, credited := market.ProcessConfirmations(setup.chain, setup.rank, setup.required, latest, cut);
      if !stop.Finished? { return; }
      checkpoint := Some(last);
    }
  }

  /** A poll reads at most a batch of blocks from the one after the checkpoint, or the last batch when there is none; unless it
      is cut in its scan it reads all of them, and a completed one remembers the last. */
  lemma PollReads(u: Setup, s: Scanner, p: Poll)
    ensures var from := if s.checkpoint.Some? then s.checkpoint.value + 1 else Max(0, p.latest - u.batch + 1);
            var last, next := Min(p.latest, from + u.batch - 1), PollStep(u, s, p);
            && next.checkpoint == (if p.stop.Finished? && p.latest > 0 then Some(last) else s.checkpoint)
            && (!p.stop.InScan? ==>
                  Column(next.store.deposits, Fresh) == AcceptAll(Column(s.store.deposits, Fresh), u.reg, Requests(u.content, from, last)))
  {
    hide Process, AcceptAll, Column;
    PollDeposits(u, s, p);
    if !p.stop.InScan? {
      assert Upto(u.content, FromBlock(u, s, p.latest), ToBlock(u, s, p.latest) + 1, 0)
             == Requests(u.content, FromBlock(u, s, p.latest), ToBlock(u, s, p.latest));
    }
  }
}
