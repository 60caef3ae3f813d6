/** The marketplace's capacity methods as they change the stored rows. */
module MarketplaceDesk {
  import opened Prelude
  import opened MarketplaceCapacity

  // ----- choosing a listing

  /** What a booking asks for; None leaves a field open. */
  datatype Request = Request(
    units: int, minutes: int, hardware: Option<string>, pool: Option<string>, pairedCoin: Option<string>,
    provider: Option<string>, region: Option<string>, capabilities: set<string>)

  predicate Asks(want: Option<string>, have: string) { want.None? || want.value == have }

  predicate Matches(q: Request, l: Listing)
  {
    && l.status == Active
    && Asks(q.hardware, l.info.hardware) && Asks(q.pool, l.info.pool) && Asks(q.pairedCoin, l.info.pairedCoin)
    && Asks(q.provider, l.info.provider) && Asks(q.region, l.info.region)
    && l.available >= q.units
    && q.capabilities <= l.info.capabilities
  }

  /** Cheapest first, then oldest, then by id; `rank` is the place of an id in the order of ids. */
  predicate Preferred(listings: map<ListingId, Listing>, rank: ListingId -> int, a: ListingId, b: ListingId)
    requires a in listings && b in listings
  {
    var x, y := listings[a].info, listings[b].info;
    x.price < y.price
    || (x.price == y.price && (x.createdAt < y.createdAt || (x.createdAt == y.createdAt && rank(a) <= rank(b))))
  }

  // ----- settlement

  datatype Settlement = Settlement(gross: int, fee: int, provider: int)

  /** The marketplace fee, rounded up. */
  function FeeUnits(gross: int, percent: real): int { Ceiling(gross as real * percent / 100.0) }

  function Settle(gross: int, percent: real): Settlement
  {
    var fee := FeeUnits(gross, percent);
    Settlement(gross, fee, Max(0, gross - fee))
  }

  /** Fee and provider's part make up the gross amount, so the clamp never acts; the fee is less than one unit above the exact share. */
  lemma SettlementConserves(gross: int, percent: real)
    requires gross >= 0 && 0.0 <= percent <= 100.0
    ensures var s := Settle(gross, percent);
            && s.fee + s.provider == gross && 0 <= s.fee && 0 <= s.provider
            && gross as real * percent / 100.0 <= s.fee as real < gross as real * percent / 100.0 + 1.0
  {
    assert 0.0 <= gross as real * percent <= gross as real * 100.0;
    assert 0.0 <= gross as real * percent / 100.0 <= gross as real;
  }

  datatype SettleReply = NotPaid | NotStarted | Settled(settlement: Settlement)

  // ----- the stored rows

  class Desk {
    var listings: map<ListingId, Listing>
    var workers: map<string, Worker>
    var bookings: seq<Booking>
    var settlements: map<nat, Settlement>

    ghost function Rows(): Market
      reads this
    {
      Market(listings, workers, bookings)
    }

    constructor ()
      ensures Rows() == Market(map[], map[], []) && settlements == map[] && MarketOk(Rows())
    {
      listings, workers, bookings, settlements := map[], map[], [], map[];
      new;
      EmptyMarket();
    }

    /** A new listing offers all its units; `pool` is the hardware of an active pool. */
    method CreateListing(serial: nat, info: Info, total: int, pool: Option<string>) returns (ok: bool)
      requires MarketOk(Rows()) && MarketplaceCapacity.CanApply(Rows(), MarketplaceCapacity.CreateListing(serial, info, total))
      modifies this`listings
      ensures MarketOk(Rows()) && ok == (pool == Some(info.hardware))
      ensures Rows() == if ok then Apply(old(Rows()), MarketplaceCapacity.CreateListing(serial, info, total)) else old(Rows())
      ensures listings == if ok then old(listings)[Own(serial) := Listing(info, Active, total, total)] else old(listings)
    {
      hide MarketOk;
      if pool.None? || pool.value != info.hardware { return false; }
      OpKeeps(Rows(), MarketplaceCapacity.CreateListing(serial, info, total));
      listings := listings[Own(serial) := Listing(info, Active, total, total)];
      return true;
    }

    /** Units of the bookings that wait for payment or run on a listing. */
    method ReservedUnits(id: ListingId) returns (units: int)
      ensures units == Reserved(bookings, id)
    {
      units := 0;
      for i := 0 to |bookings|
        invariant units == Reserved(bookings[..i], id)
      {
        assert bookings[..i + 1] == bookings[..i] + [bookings[i]];
        ReservedAppend(bookings[..i], bookings[i], id);
        var b := bookings[i];
        if b.listing == id && (b.status.AwaitingPayment? || b.status.Running?) { units := units + b.units; }
      }
      assert bookings[..|bookings|] == bookings;
    }

    method RegisterWorker(w: string, info: Info, total: int, pool: Option<string>, now: int) returns (ok: bool)
      requires MarketOk(Rows()) && total >= 1
      modifies this`listings, this`workers
      ensures MarketOk(Rows()) && ok == (pool == Some(info.hardware))
      ensures Rows() == if ok then Apply(old(Rows()), MarketplaceCapacity.RegisterWorker(w, info, total, now)) else old(Rows())
      ensures ok ==>
                var id := OfWorker(w, info.pool);
                && listings == old(listings)[id := Listing(info, Active, total, Max(0, total - Reserved(bookings, id)))]
                && workers == old(workers)[w := Worker(id, Online, now)]
    {
      hide MarketOk;
      if pool.None? || pool.value != info.hardware { return false; }
      OpKeeps(Rows(), MarketplaceCapacity.RegisterWorker(w, info, total, now));
      var id := OfWorker(w, info.pool);
      var reserved := ReservedUnits(id);
      var available := Max(0, total - reserved);
      listings := listings[id := Listing(info, Active, total, available)];
      workers := workers[w := Worker(id, Online, now)];
      return true;
    }

    method HeartbeatWorker(w: string, total: Option<int>, available: Option<int>, status: WorkerStatus, now: int) returns (ok: bool)
      requires MarketOk(Rows()) && (total.Some? ==> total.value >= 1) && (available.Some? ==> available.value >= 0)
      modifies this`listings, this`workers
      ensures MarketOk(Rows()) && ok == (w in old(workers))
      ensures ok ==> MarketplaceCapacity.CanApply(old(Rows()), Heartbeat(w, total, available, status, now))
                     && Rows() == Apply(old(Rows()), Heartbeat(w, total, available, status, now))
      ensures !ok ==> Rows() == old(Rows())
      ensures ok ==>
                var id := old(workers)[w].listing;
                && id in old(listings)
                && workers == old(workers)[w := old(workers)[w].(status := status, lastSeen := now)]
                && listings.Keys == old(listings).Keys && (forall k :: k in listings && k != id ==> listings[k] == old(listings)[k])
                && listings[id].info == old(listings)[id].info
                && listings[id].total == (if total.Some? then total.value else old(listings)[id].total)
                && (listings[id].status == Active <==> status.Online?) && (listings[id].status == Paused <==> !status.Online?)
                && (!status.Online? ==> listings[id].available == 0)
                && (status.Online? ==>
                      var offered := if available.Some? then available.value else old(listings)[id].available;
                      var left := listings[id].total - Reserved(bookings, id);
                      listings[id].available == if left < 0 then 0 else if offered < left then offered else left)
    {
      hide MarketOk, Reserved, HasStaleWorker;
      if w !in workers { return false; }
      var id := workers[w].listing;
      WorkerHasListing(Rows(), w);
      OpKeeps(Rows(), Heartbeat(w, total, available, status, now));
      var row := listings[id];
      var t := if total.Some? then total.value else row.total;
      var reserved := ReservedUnits(id);
      if status.Online? {
        var reported := if available.Some? then available.value else row.available;
        row := row.(total := t, available := Max(0, Min(reported, t - reserved)), status := Active);
      } else {
        row := row.(total := t, available := 0, status := Paused);
      }
      listings := listings[id := row];
      workers := workers[w := workers[w].(status := status, lastSeen := now)];
      return true;
    }

    /** Takes listings of workers that were silent too long off the market, among those the worker list returned. */
    method ExpireStaleWorkers(online: seq<string>, staleAfter: int, now: int) returns (expired: set<string>)
      requires MarketOk(Rows()) && forall i :: 0 <= i < |online| ==> online[i] in workers && workers[online[i]].status.Online?
      modifies this`listings, this`workers
      ensures MarketOk(Rows())
      ensures expired == set w | w in online && now - old(workers)[w].lastSeen > Max(0, staleAfter)
      ensures MarketplaceCapacity.CanApply(old(Rows()), ExpireWorkers(expired)) && Rows() == Apply(old(Rows()), ExpireWorkers(expired))
      ensures workers.Keys == old(workers).Keys && listings.Keys == old(listings).Keys && bookings == old(bookings)
      ensures forall w :: w in workers ==> workers[w] == if w in expired then old(workers)[w].(status := Offline) else old(workers)[w]
      ensures forall id :: id in listings ==>
                listings[id] == if exists w :: w in expired && w in old(workers) && old(workers)[w].listing == id
                                then old(listings)[id].(status := Paused, available := 0) else old(listings)[id]
    {
      hide MarketOk, Reserved;
      ghost var start := Rows();
      var limit := Max(0, staleAfter);
      expired := {};
      ExpireNone(start);
      for i := 0 to |online|
        invariant MarketplaceCapacity.CanApply(start, ExpireWorkers(expired)) && Rows() == Apply(start, ExpireWorkers(expired))
        invariant expired == set w | w in online[..i] && now - start.workers[w].lastSeen > limit
      {
        var w := online[i];
        assert online[..i + 1] == online[..i] + [w];
        WorkerHasListing(start, w);
        if now - workers[w].lastSeen <= limit { continue; }
        var id := workers[w].listing;
        ExpireOneMore(start, expired, w);
        listings := listings[id := listings[id].(status := Paused, available := 0)];
        workers := workers[w := workers[w].(status := Offline)];
        expired := expired + {w};
      }
      assert online[..|online|] == online;
      OpKeeps(start, ExpireWorkers(expired));
    }

    /** The best matching candidate, if any matches. */
    method SelectListing(q: Request, candidates: seq<ListingId>, rank: ListingId -> int) returns (choice: Option<ListingId>)
      requires forall i :: 0 <= i < |candidates| ==> candidates[i] in listings
      ensures choice.None? <==> forall i :: 0 <= i < |candidates| ==> !Matches(q, listings[candidates[i]])
      ensures choice.Some? ==>
                && choice.value in candidates && Matches(q, listings[choice.value])
                && forall i :: 0 <= i < |candidates| && Matches(q, listings[candidates[i]])
                               ==> Preferred(listings, rank, choice.value, candidates[i])
      ensures choice.Some? ==>
                var l := listings[choice.value];
                && l.status == Active && l.available >= q.units && q.capabilities <= l.info.capabilities
                && (q.hardware.Some? ==> l.info.hardware == q.hardware.value) && (q.pool.Some? ==> l.info.pool == q.pool.value)
                && (q.pairedCoin.Some? ==> l.info.pairedCoin == q.pairedCoin.value)
                && (q.provider.Some? ==> l.info.provider == q.provider.value)
                && (q.region.Some? ==> l.info.region == q.region.value)
      ensures choice.Some? ==>
                forall i :: 0 <= i < |candidates| && Matches(q, listings[candidates[i]]) ==>
                  var a, b := listings[choice.value].info, listings[candidates[i]].info;
                  && a.price <= b.price && (a.price == b.price ==> a.createdAt <= b.createdAt)
                  && (a.price == b.price && a.createdAt == b.createdAt ==> rank(choice.value) <= rank(candidates[i]))
    {
      choice := None;
      for i := 0 to |candidates|
        invariant choice.None? <==> forall k :: 0 <= k < i ==> !Matches(q, listings[candidates[k]])
        invariant choice.Some? ==>
                    && choice.value in candidates && Matches(q, listings[choice.value])
                    && forall k :: 0 <= k < i && Matches(q, listings[candidates[k]])
                                   ==> Preferred(listings, rank, choice.value, candidates[k])
      {
        var l := listings[candidates[i]];
        if l.status != Active { continue; }
        if q.hardware.Some? && l.info.hardware != q.hardware.value { continue; }
        if q.pool.Some? && l.info.pool != q.pool.value { continue; }
        if q.pairedCoin.Some? && l.info.pairedCoin != q.pairedCoin.value { continue; }
        if q.provider.Some? && l.info.provider != q.provider.value { continue; }
        if q.region.Some? && l.info.region != q.region.value { continue; }
        if l.available < q.units { continue; }
        if !(q.capabilities <= l.info.capabilities) { continue; }
        if choice.None? || !Preferred(listings, rank, choice.value, candidates[i]) { choice := Some(candidates[i]); }
      }
    }

    /** Books units on the best matching candidate. */
    method CreateBooking(q: Request, candidates: seq<ListingId>, rank: ListingId -> int) returns (id: Option<ListingId>)
      requires MarketOk(Rows()) && q.units >= 1 && forall i :: 0 <= i < |candidates| ==> candidates[i] in listings
      modifies this`listings, this`bookings
      ensures MarketOk(Rows())
      ensures id.Some? ==>
                && id.value in candidates && Matches(q, old(listings)[id.value]) && q.minutes >= old(listings)[id.value].info.minMinutes
                && MarketplaceCapacity.CanApply(old(Rows()), Book(id.value, q.units)) && Rows() == Apply(old(Rows()), Book(id.value, q.units))
                && forall i :: 0 <= i < |candidates| && Matches(q, old(listings)[candidates[i]])
                               ==> Preferred(old(listings), rank, id.value, candidates[i])
      ensures id.Some? ==>
                && bookings == old(bookings) + [Booking(id.value, q.units, AwaitingPayment)]
                && listings == old(listings)[id.value := old(listings)[id.value].(available := old(listings)[id.value].available - q.units)]
      ensures id.None? ==>
                && Rows() == old(Rows())
                && forall i :: 0 <= i < |candidates| && Matches(q, listings[candidates[i]])
                               ==> exists c :: c in candidates && Matches(q, listings[c]) && q.minutes < listings[c].info.minMinutes
    {
      hide MarketOk;
      var choice := SelectListing(q, candidates, rank);
      if choice.None? { return None; }
      var l := listings[choice.value];
      if q.minutes < l.info.minMinutes || l.available < q.units { return None; }
      OpKeeps(Rows(), Book(choice.value, q.units));
      listings := listings[choice.value := l.(available := l.available - q.units)];
      bookings := bookings + [Booking(choice.value, q.units, AwaitingPayment)];
      return choice;
    }

    /** A confirmed payment starts a booking that was waiting for it. */
    method ActivateBooking(b: nat)
      requires MarketOk(Rows()) && b < |bookings|
      modifies this`bookings
      ensures MarketOk(Rows()) && Rows() == Apply(old(Rows()), Activate(b))
      ensures bookings == if old(bookings)[b].status.AwaitingPayment? then old(bookings)[b := old(bookings)[b].(status := Running)]
                          else old(bookings)
    {
      hide MarketOk;
      OpKeeps(Rows(), Activate(b));
      if bookings[b].status.AwaitingPayment? {
        bookings := bookings[b := bookings[b].(status := Running)];
      }
    }

    method ReleaseBooking(b: nat) returns (row: Booking)
      requires MarketOk(Rows()) && b < |bookings|
      modifies this`listings, this`bookings
      ensures MarketOk(Rows()) && MarketplaceCapacity.CanApply(old(Rows()), Release(b)) && Rows() == Apply(old(Rows()), Release(b))
      ensures row == bookings[b] && !Holds(row)
      ensures var before := old(bookings)[b];
              if before.status.AwaitingPayment? || before.status.Running? then
                && bookings == old(bookings)[b := before.(status := Released)] && before.listing in old(listings)
                && var l := old(listings)[before.listing];
                   listings == old(listings)[before.listing := l.(available := Min(l.total, l.available + before.units))]
              else Rows() == old(Rows())
    {
      hide MarketOk, Reserved;
      BookingHasListing(Rows(), b);
      OpKeeps(Rows(), Release(b));
      row := bookings[b];
      if row.status.Released? || row.status.Canceled? || row.status.Lapsed? { return; }
      var l := listings[row.listing];
      listings := listings[row.listing := l.(available := Min(l.total, l.available + row.units))];
      row := row.(status := Released);
      bookings := bookings[b := row];
    }

    /** Settles a paid booking once; later calls return the first settlement. */
    method SettleBooking(b: nat, paid: bool, gross: int, percent: real) returns (reply: SettleReply)
      requires b < |bookings|
      modifies this`settlements
      ensures reply.NotPaid? <==> !paid
      ensures reply.NotStarted? <==> paid && !(bookings[b].status.Running? || bookings[b].status.Released?)
      ensures !reply.Settled? ==> settlements == old(settlements)
      ensures reply.Settled? ==>
                && b in settlements && reply.settlement == settlements[b]
                && (b in old(settlements) ==> settlements == old(settlements))
                && (b !in old(settlements) ==> settlements == old(settlements)[b := Settle(gross, percent)])
    {
      if !paid { return NotPaid; }
      if !bookings[b].status.Running? && !bookings[b].status.Released? { return NotStarted; }
      if b in settlements { return SettleReply.Settled(settlements[b]); }
      var fee := Ceiling(gross as real * percent / 100.0);
      var row := Settlement(gross, fee, Max(0, gross - fee));
      settlements := settlements[b := row];
      return SettleReply.Settled(row);
    }
  }

  lemma WorkerHasListing(s: Market, w: string)
    requires MarketOk(s) && w in s.workers
    ensures s.workers[w].listing in s.listings && s.listings[s.workers[w].listing].available >= 0
  {
  }

  lemma BookingHasListing(s: Market, b: nat)
    requires MarketOk(s) && b < |s.bookings|
    ensures s.bookings[b].listing in s.listings
  {
  }

  lemma ExpireNone(s: Market)
    ensures CanApply(s, ExpireWorkers({})) && Apply(s, ExpireWorkers({})) == s
  {
  }

  /** Expiring one more worker changes its row and its listing. */
  lemma ExpireOneMore(s: Market, stale: set<string>, w: string)
    requires CanApply(s, ExpireWorkers(stale)) && w in s.workers && s.workers[w].listing in s.listings
    ensures CanApply(s, ExpireWorkers(stale + {w}))
    ensures var id, a := s.workers[w].listing, Apply(s, ExpireWorkers(stale));
            && id in a.listings && w in a.workers
            && Apply(s, ExpireWorkers(stale + {w}))
               == a.(listings := a.listings[id := a.listings[id].(status := Paused, available := 0)],
                     workers := a.workers[w := a.workers[w].(status := Offline)])
  {
    var id, a, b := s.workers[w].listing, Apply(s, ExpireWorkers(stale)), Apply(s, ExpireWorkers(stale + {w}));
    forall k | k in s.listings ensures HasStaleWorker(s, stale + {w}, k) <==> HasStaleWorker(s, stale, k) || k == id {
      if HasStaleWorker(s, stale, k) {
        var v :| v in stale && v in s.workers && s.workers[v].listing == k;
        assert v in stale + {w};
      }
    }
    assert b.listings == a.listings[id := a.listings[id].(status := Paused, available := 0)];
    assert b.workers == a.workers[w := a.workers[w].(status := Offline)];
  }
}
