/** Capacity of listings under bookings, releases, worker registration, heartbeats and expiry. */
module MarketplaceCapacity {
  import opened Prelude
  import opened Sums

  // ----- rows

  /** Listing ids are hashes taken as injective: of the creation data, or of a worker and its pool. */
  datatype ListingId = Own(serial: nat) | OfWorker(worker: string, pool: string)

  datatype ListingStatus = Active | Paused | Retired

  datatype Info = Info(
    pool: string, hardware: string, pairedCoin: string, provider: string, region: string,
    price: real, createdAt: int, minMinutes: int, capabilities: set<string>)

  datatype Listing = Listing(info: Info, status: ListingStatus, total: int, available: int)

  datatype WorkerStatus = Online | WorkerPaused | Offline

  datatype Worker = Worker(listing: ListingId, status: WorkerStatus, lastSeen: int)

  datatype BookingStatus = AwaitingPayment | Running | Released | Lapsed | Canceled

  datatype Booking = Booking(listing: ListingId, units: int, status: BookingStatus)

  /** Bookings sit in creation order; a booking's id is its position. */
  datatype Market = Market(listings: map<ListingId, Listing>, workers: map<string, Worker>, bookings: seq<Booking>)

  predicate Holds(b: Booking) { b.status.AwaitingPayment? || b.status.Running? }

  function HeldBy(id: ListingId): Booking -> int { (b: Booking) => if b.listing == id && Holds(b) then b.units else 0 }

  function Reserved(bookings: seq<Booking>, id: ListingId): int { SumInt(bookings, HeldBy(id)) }

  // ----- steps

  datatype Op =
    | CreateListing(serial: nat, info: Info, total: int)
    | RegisterWorker(worker: string, info: Info, total: int, now: int)
    | Heartbeat(worker: string, newTotal: Option<int>, newAvailable: Option<int>, status: WorkerStatus, now: int)
    | ExpireWorkers(stale: set<string>)
    | Book(id: ListingId, units: int)
    | Activate(booking: nat)
    | Release(booking: nat)

  predicate CanApply(s: Market, op: Op)
  {
    match op
    case CreateListing(n, _, total) => Own(n) !in s.listings && total >= 1
    case RegisterWorker(_, _, total, _) => total >= 1
    case Heartbeat(w, total, available, _, _) =>
      && w in s.workers && s.workers[w].listing in s.listings
      && (total.Some? ==> total.value >= 1) && (available.Some? ==> available.value >= 0)
    case ExpireWorkers(stale) => forall w :: w in stale ==> w in s.workers
    case Book(id, units) => id in s.listings && 1 <= units <= s.listings[id].available
    case Activate(b) => b < |s.bookings|
    case Release(b) => b < |s.bookings| && s.bookings[b].listing in s.listings
  }

  function HeartbeatListing(row: Listing, reserved: int, total: Option<int>, available: Option<int>, status: WorkerStatus): Listing
  {
    var t := if total.Some? then total.value else row.total;
    if status.Online? then
      row.(total := t, status := Active,
           available := Max(0, Min(if available.Some? then available.value else row.available, t - reserved)))
    else row.(total := t, status := Paused, available := 0)
  }

  predicate HasStaleWorker(s: Market, stale: set<string>, id: ListingId)
  {
    exists w :: w in stale && w in s.workers && s.workers[w].listing == id
  }

  function Apply(s: Market, op: Op): Market
    requires CanApply(s, op)
  {
    match op
    case CreateListing(n, info, total) => s.(listings := s.listings[Own(n) := Listing(info, Active, total, total)])
    case RegisterWorker(w, info, total, now) =>
      var id := OfWorker(w, info.pool);
      s.(listings := s.listings[id := Listing(info, Active, total, Max(0, total - Reserved(s.bookings, id)))],
         workers := s.workers[w := Worker(id, Online, now)])
    case Heartbeat(w, total, available, status, now) =>
      var id := s.workers[w].listing;
      s.(listings := s.listings[id := HeartbeatListing(s.listings[id], Reserved(s.bookings, id), total, available, status)],
         workers := s.workers[w := s.workers[w].(status := status, lastSeen := now)])
    case ExpireWorkers(stale) =>
      s.(workers := map w | w in s.workers :: if w in stale then s.workers[w].(status := Offline) else s.workers[w],
         listings := map id | id in s.listings ::
           if HasStaleWorker(s, stale, id) then s.listings[id].(status := Paused, available := 0) else s.listings[id])
    case Book(id, units) =>
      s.(listings := s.listings[id := s.listings[id].(available := s.listings[id].available - units)],
         bookings := s.bookings + [Booking(id, units, AwaitingPayment)])
    case Activate(b) =>
      if s.bookings[b].status.AwaitingPayment? then s.(bookings := s.bookings[b := s.bookings[b].(status := Running)]) else s
    case Release(b) =>
      var row := s.bookings[b];
      if !Holds(row) then s
      else
        var l := s.listings[row.listing];
        s.(listings := s.listings[row.listing := l.(available := Min(l.total, l.available + row.units))],
           bookings := s.bookings[b := row.(status := Released)])
  }

  // ----- what always holds

  predicate ListingOk(id: ListingId, row: Listing, reserved: int)
  {
    row.total >= 1 && 0 <= row.available && (id.Own? ==> row.available + reserved == row.total)
  }

  /** Rows fit together, no availability is negative, and a listing without a worker accounts for every unit. */
  ghost predicate MarketOk(s: Market)
  {
    && (forall id :: id in s.listings ==> ListingOk(id, s.listings[id], Reserved(s.bookings, id)))
    && (forall w :: w in s.workers ==> s.workers[w].listing in s.listings && s.workers[w].listing.OfWorker?)
    && (forall i :: 0 <= i < |s.bookings| ==> s.bookings[i].units >= 1 && s.bookings[i].listing in s.listings)
  }

  /** Nothing is offered twice: what is available and what is reserved fit into the total. */
  predicate Fits(s: Market, id: ListingId)
    requires id in s.listings
  {
    s.listings[id].available + Reserved(s.bookings, id) <= s.listings[id].total
  }

  predicate AllFit(s: Market) { forall id :: id in s.listings ==> Fits(s, id) }

  lemma {:induction false} ReservedUpdate(bookings: seq<Booking>, b: nat, row: Booking, id: ListingId)
    requires b < |bookings|
    ensures Reserved(bookings[b := row], id) == Reserved(bookings, id) - HeldBy(id)(bookings[b]) + HeldBy(id)(row)
    decreases b
  {
    if b == 0 {
      assert bookings[b := row][1..] == bookings[1..];
    } else {
      ReservedUpdate(bookings[1..], b - 1, row, id);
      assert bookings[b := row][1..] == bookings[1..][b - 1 := row];
    }
  }

  lemma ReservedAppend(bookings: seq<Booking>, row: Booking, id: ListingId)
    ensures Reserved(bookings + [row], id) == Reserved(bookings, id) + HeldBy(id)(row)
  {
    SumIntAppend(bookings, [row], HeldBy(id));
    assert [row][1..] == [];
    assert SumInt([row][1..], HeldBy(id)) == 0;
  }

  lemma {:induction false} NothingReserved(bookings: seq<Booking>, id: ListingId)
    requires forall i :: 0 <= i < |bookings| ==> bookings[i].listing != id
    ensures Reserved(bookings, id) == 0
  {
    if bookings != [] { NothingReserved(bookings[1..], id); }
  }

  lemma ReservedNonNegative(s: Market, id: ListingId)
    requires MarketOk(s)
    ensures Reserved(s.bookings, id) >= 0
  {
    SumIntNonNegative(s.bookings, HeldBy(id));
  }

  /** A listing that is not there yet has no bookings. */
  lemma NewListing(s: Market, id: ListingId)
    requires MarketOk(s) && id !in s.listings
    ensures Reserved(s.bookings, id) == 0
  {
    NothingReserved(s.bookings, id);
  }

  /** How a step changes the units reserved on a listing. */
  lemma ReservedAfter(s: Market, op: Op, id: ListingId)
    requires CanApply(s, op)
    ensures var before, after := Reserved(s.bookings, id), Reserved(Apply(s, op).bookings, id);
            && (op.Book? ==> after == before + if op.id == id then op.units else 0)
            && (op.Release? ==> after == before - HeldBy(id)(s.bookings[op.booking]))
            && (!op.Book? && !op.Release? ==> after == before)
  {
    match op
    case Book(l, units) => ReservedAppend(s.bookings, Booking(l, units, AwaitingPayment), id);
    case Activate(b) => ReservedUpdate(s.bookings, b, s.bookings[b].(status := Running), id);
    case Release(b) => ReservedUpdate(s.bookings, b, s.bookings[b].(status := Released), id);
    case _ =>
  }

  lemma OpKeepsListings(s: Market, op: Op, id: ListingId)
    requires MarketOk(s) && CanApply(s, op) && id in Apply(s, op).listings
    ensures ListingOk(id, Apply(s, op).listings[id], Reserved(Apply(s, op).bookings, id))
  {
    ReservedAfter(s, op, id);
    ReservedNonNegative(s, id);
    if id !in s.listings { NewListing(s, id); }
    if op.Release? { ReleaseFits(s, op.booking, id); }
  }

  /** A booking holds no more units than its listing has reserved. */
  lemma {:induction false} HeldIsReserved(bookings: seq<Booking>, b: nat, id: ListingId)
    requires b < |bookings| && forall i :: 0 <= i < |bookings| ==> bookings[i].units >= 1
    ensures HeldBy(id)(bookings[b]) <= Reserved(bookings, id)
  {
    SumIntNonNegative(bookings, HeldBy(id));
  }

  lemma ReleaseFits(s: Market, b: nat, id: ListingId)
    requires MarketOk(s) && b < |s.bookings|
    ensures 0 <= HeldBy(id)(s.bookings[b]) <= Reserved(s.bookings, id)
  {
    HeldIsReserved(s.bookings, b, id);
  }

  /** Every step keeps the rows sound, whatever totals workers report. */
  lemma OpKeeps(s: Market, op: Op)
    requires MarketOk(s) && CanApply(s, op)
    ensures MarketOk(Apply(s, op))
  {
    var next := Apply(s, op);
    forall id | id in next.listings ensures ListingOk(id, next.listings[id], Reserved(next.bookings, id)) {
      OpKeepsListings(s, op, id);
    }
  }

  // ----- capacity

  /** The total a registration or heartbeat sets, and on which listing. */
  datatype Setting = NoSetting | Setting(id: ListingId, total: int)

  function SettingOf(s: Market, op: Op): Setting
    requires CanApply(s, op)
  {
    match op
    case RegisterWorker(w, info, total, _) => Setting(OfWorker(w, info.pool), total)
    case Heartbeat(w, total, _, _, _) =>
      Setting(s.workers[w].listing, if total.Some? then total.value else s.listings[s.workers[w].listing].total)
    case _ => NoSetting
  }

  /** The step does not set a total below the units reserved at that moment. */
  predicate CoversReserved(s: Market, op: Op)
    requires CanApply(s, op)
  {
    var set_ := SettingOf(s, op);
    set_.Setting? ==> Reserved(s.bookings, set_.id) <= set_.total
  }

  lemma OtherListingsFit(s: Market, op: Op, id: ListingId)
    requires MarketOk(s) && AllFit(s) && CanApply(s, op) && id in Apply(s, op).listings
    requires SettingOf(s, op).Setting? ==> SettingOf(s, op).id != id
    ensures Fits(Apply(s, op), id)
  {
    ReservedAfter(s, op, id);
    ReservedNonNegative(s, id);
    if id !in s.listings {
      NewListing(s, id);
    } else {
      assert Fits(s, id);
    }
    if op.Release? { ReleaseFits(s, op.booking, id); }
  }

  /** A registration or heartbeat fits exactly when its total covers what is reserved. */
  lemma SettingFitsIff(s: Market, op: Op)
    requires MarketOk(s) && CanApply(s, op) && SettingOf(s, op).Setting?
    ensures SettingOf(s, op).id in Apply(s, op).listings
    ensures Fits(Apply(s, op), SettingOf(s, op).id) <==> Reserved(s.bookings, SettingOf(s, op).id) <= SettingOf(s, op).total
  {
    ReservedAfter(s, op, SettingOf(s, op).id);
    ReservedNonNegative(s, SettingOf(s, op).id);
  }

  /** One step keeps every listing within its total exactly when it sets no total below the reserved units. */
  lemma StepFitsIff(s: Market, op: Op)
    requires MarketOk(s) && AllFit(s) && CanApply(s, op)
    ensures AllFit(Apply(s, op)) <==> CoversReserved(s, op)
  {
    hide MarketOk, Fits, Apply, CanApply, Reserved;
    var next, set_ := Apply(s, op), SettingOf(s, op);
    forall id | id in next.listings && (set_.Setting? ==> set_.id != id) ensures Fits(next, id) {
      OtherListingsFit(s, op, id);
    }
    if set_.Setting? { SettingFitsIff(s, op); }
  }

  // ----- runs

  ghost predicate IsOpStep(a: Market, b: Market) { exists op :: CanApply(a, op) && b == Apply(a, op) }

  ghost predicate IsCoveringStep(a: Market, b: Market) { exists op :: CanApply(a, op) && CoversReserved(a, op) && b == Apply(a, op) }

  ghost predicate IsMarketRun(run: seq<Market>)
  {
    run != [] && run[0] == Market(map[], map[], []) && forall i :: 0 <= i < |run| - 1 ==> IsOpStep(run[i], run[i + 1])
  }

  /** A run in which no total is ever set below the units then reserved. */
  ghost predicate IsCoveringRun(run: seq<Market>)
  {
    run != [] && run[0] == Market(map[], map[], []) && forall i :: 0 <= i < |run| - 1 ==> IsCoveringStep(run[i], run[i + 1])
  }

  /** In every run no availability is negative, and a listing without a worker has available + reserved = total. */
  lemma {:induction false} RunKeepsMarket(run: seq<Market>, i: nat)
    requires IsMarketRun(run) && i < |run|
    ensures MarketOk(run[i])
  {
    hide MarketOk, CanApply, Apply;
    if i == 0 {
      EmptyMarket();
    } else {
      RunKeepsMarket(run, i - 1);
      assert IsOpStep(run[i - 1], run[i - 1 + 1]);
      var op :| CanApply(run[i - 1], op) && run[i] == Apply(run[i - 1], op);
      OpKeeps(run[i - 1], op);
    }
  }

  lemma EmptyMarket()
    ensures MarketOk(Market(map[], map[], [])) && AllFit(Market(map[], map[], []))
  {
  }

  /** While totals cover reservations, nothing is ever offered twice. */
  lemma {:induction false} RunFits(run: seq<Market>, i: nat)
    requires IsCoveringRun(run) && i < |run|
    ensures MarketOk(run[i]) && AllFit(run[i])
  {
    hide MarketOk, AllFit, CanApply, Apply, CoversReserved;
    if i == 0 {
      EmptyMarket();
    } else {
      RunFits(run, i - 1);
      assert IsCoveringStep(run[i - 1], run[i - 1 + 1]);
      var op :| CanApply(run[i - 1], op) && CoversReserved(run[i - 1], op) && run[i] == Apply(run[i - 1], op);
      OpKeeps(run[i - 1], op);
      StepFitsIff(run[i - 1], op);
    }
  }

  /** On a listing without a worker the cap of a release never acts: the released units fit back in. */
  lemma ReleaseCapIdle(run: seq<Market>, i: nat, b: nat)
    requires IsMarketRun(run) && i < |run| && b < |run[i].bookings| && run[i].bookings[b].listing.Own? && Holds(run[i].bookings[b])
    ensures var s := run[i];
            var row := s.bookings[b];
            && row.listing in s.listings
            && s.listings[row.listing].available + row.units <= s.listings[row.listing].total
  {
    RunKeepsMarket(run, i);
    ReleaseFits(run[i], b, run[i].bookings[b].listing);
  }

  /** Releasing twice is releasing once. */
  lemma ReleaseTwice(s: Market, b: nat)
    requires CanApply(s, Release(b))
    ensures CanApply(Apply(s, Release(b)), Release(b))
    ensures Apply(Apply(s, Release(b)), Release(b)) == Apply(s, Release(b))
  {
  }

  function RigInfo(): Info { Info("p", "gpu", "X", "v", "r", 1.0, 0, 1, {}) }

  function RigMarket(available: int, bookings: seq<Booking>): Market
  {
    var id := OfWorker("w", "p");
    Market(map[id := Listing(RigInfo(), Active, 2, available)], map["w" := Worker(id, Online, 0)], bookings)
  }

  /** A heartbeat that lowers the total below the booked units leaves more reserved than there is. */
  lemma LoweredTotalOverbooks()
    ensures var s, op := RigMarket(0, [Booking(OfWorker("w", "p"), 2, Running)]), Heartbeat("w", Some(1), None, Online, 1);
            MarketOk(s) && AllFit(s) && CanApply(s, op) && !AllFit(Apply(s, op))
  {
    var id := OfWorker("w", "p");
    var s := RigMarket(0, [Booking(id, 2, Running)]);
    var op := Heartbeat("w", Some(1), None, Online, 1);
    assert s.bookings[1..] == [];
    assert SumInt(s.bookings[1..], HeldBy(id)) == 0 && HeldBy(id)(s.bookings[0]) == 2;
    assert Reserved(s.bookings, id) == 2;
    forall k | k in s.listings ensures Fits(s, k) && ListingOk(k, s.listings[k], Reserved(s.bookings, k)) {
      assert k == id;
    }
    StepFitsIff(s, op);
  }

  lemma RigSteps()
    ensures var id, none := OfWorker("w", "p"), Market(map[], map[], []);
            var register, book := RegisterWorker("w", RigInfo(), 2, 0), Book(id, 2);
            && CanApply(none, register) && Apply(none, register) == RigMarket(2, [])
            && CanApply(RigMarket(2, []), book) && Apply(RigMarket(2, []), book) == RigMarket(0, [Booking(id, 2, AwaitingPayment)])
  {
    assert Reserved([], OfWorker("w", "p")) == 0;
  }

  lemma RigRuns()
    ensures var id := OfWorker("w", "p");
            var booked := RigMarket(0, [Booking(id, 2, AwaitingPayment)]);
            CanApply(booked, Activate(0)) && Apply(booked, Activate(0)) == RigMarket(0, [Booking(id, 2, Running)])
  {
  }

  /** The run that leads there: a worker registers two units, both are booked and paid, and a heartbeat reports one. */
  lemma OverbookedRun() returns (run: seq<Market>)
    ensures IsMarketRun(run) && |run| == 5 && AllFit(run[3]) && !AllFit(run[4])
  {
    hide AllFit, MarketOk, RigMarket, Apply, CanApply;
    var id := OfWorker("w", "p");
    var none, one, two := Market(map[], map[], []), RigMarket(2, []), RigMarket(0, [Booking(id, 2, AwaitingPayment)]);
    var three, op := RigMarket(0, [Booking(id, 2, Running)]), Heartbeat("w", Some(1), None, Online, 1);
    RigSteps();
    RigRuns();
    LoweredTotalOverbooks();
    assert IsOpStep(none, one) && IsOpStep(one, two) && IsOpStep(two, three) && IsOpStep(three, Apply(three, op));
    run := [none, one, two, three, Apply(three, op)];
  }
}
