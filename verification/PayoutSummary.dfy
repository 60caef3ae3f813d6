/** The payout summary: shares, fees, past payouts, pending amounts and the operator's top-up. */
module PayoutSummary {
  import opened Prelude
  import opened StableSort
  import opened TextOrder
  import opened Sums
  import opened RoundWindows

  datatype WorkerRow = WorkerRow(workerId: string, address: Option<string>)

  /** One entry of the workers dictionary. */
  datatype Line = Line(address: Option<string>, units: int, tasks: int, gross: real, fee: real, paid: real, pending: real)

  /** A dictionary that remembers insertion order. */
  datatype Book = Book(names: seq<string>, lines: map<string, Line>)

  ghost predicate BookOk(b: Book)
  {
    Distinct(b.names) && forall w :: w in b.names <==> w in b.lines
  }

  function Blank(address: Option<string>): Line { Line(address, 0, 0, 0.0, 0.0, 0.0, 0.0) }

  function SetDefault(b: Book, w: string, address: Option<string>): (r: Book)
    requires BookOk(b)
    ensures BookOk(r) && w in r.lines
    ensures forall v :: v in r.names <==> v in b.names || v == w
    ensures forall v :: v in b.lines ==> r.lines[v] == b.lines[v]
    ensures w !in b.lines ==> r.lines[w] == Blank(address)
    ensures w in b.lines ==> r == b
  {
    if w in b.lines then b
    else Book(b.names + [w], b.lines[w := Blank(address)])
  }

  function Put(b: Book, w: string, line: Line): (r: Book)
    requires BookOk(b) && w in b.lines
    ensures BookOk(r) && r.names == b.names && r.lines == b.lines[w := line]
  {
    Book(b.names, b.lines[w := line])
  }

  /** Shares may carry an empty worker id; such a line has no address to pay to. */
  predicate NamelessUnpaid(b: Book) { "" in b.lines ==> b.lines[""].address.None? }

  /** No entry is dropped and no address of an entry changes. */
  ghost predicate KeepsAddresses(a: Book, b: Book)
  {
    && (forall w :: w in a.lines ==> w in b.lines && b.lines[w].address == a.lines[w].address)
    && (NamelessUnpaid(a) ==> NamelessUnpaid(b))
  }

  lemma KeepsStep(a: Book, b: Book, w: string, address: Option<string>, line: Line)
    requires BookOk(b) && KeepsAddresses(a, b) && (w == "" ==> address.None?)
    requires line.address == SetDefault(b, w, address).lines[w].address
    ensures KeepsAddresses(a, Put(SetDefault(b, w, address), w, line))
  {
  }

  // ----- what the summary is meant to be

  function Max0(x: real): real { if x > 0.0 then x else 0.0 }

  function Clamp(x: real, lo: real, hi: real): real { if x < lo then lo else if x > hi then hi else x }

  function FeeRate(percent: real): real { Clamp(percent, 0.0, 100.0) / 100.0 }

  function FeeOf(amount: real, rate: real): real { amount * rate }

  predicate IsCounted(p: PayoutRow) { p.workerId != "" && p.amount > 0.0 }

  function PaidFor(w: string): PayoutRow -> real { (p: PayoutRow) => if IsCounted(p) && p.workerId == w then p.amount else 0.0 }

  function PaidColumn(): PayoutRow -> real { (p: PayoutRow) => if IsCounted(p) then p.amount else 0.0 }

  function PayoutFeeColumn(): PayoutRow -> real { (p: PayoutRow) => if IsCounted(p) then Max0(p.fee) else 0.0 }

  function PaidOf(payouts: seq<PayoutRow>, w: string): real { SumReal(payouts, PaidFor(w)) }

  function NetOf(rounds: seq<Round>, rate: real, w: string): real { GrossOf(rounds, w) - GrossOf(rounds, w) * rate }

  function PendingOf(rounds: seq<Round>, rate: real, payouts: seq<PayoutRow>, w: string): real
  {
    Max0(NetOf(rounds, rate, w) - PaidOf(payouts, w))
  }

  function OverpaidOf(rounds: seq<Round>, rate: real, payouts: seq<PayoutRow>, w: string): real
  {
    Max0(PaidOf(payouts, w) - NetOf(rounds, rate, w))
  }

  function DueFor(rounds: seq<Round>, rate: real, payouts: seq<PayoutRow>): string -> real
  {
    (w: string) => PendingOf(rounds, rate, payouts, w)
  }

  function OverpaidFor(rounds: seq<Round>, rate: real, payouts: seq<PayoutRow>): string -> real
  {
    (w: string) => OverpaidOf(rounds, rate, payouts, w)
  }

  /** The units a worker earned over all rounds, and the number of rounds it took part in. */
  function RoundUnits(w: string): Round -> int { (r: Round) => if UnitsIn(r.shares) > 0 then UnitsBy(r.shares, w) else 0 }

  predicate TookPart(r: Round, w: string) { UnitsIn(r.shares) > 0 && exists s :: s in r.shares && s.workerId == w }

  function RoundTasks(w: string): Round -> int { (r: Round) => if TookPart(r, w) then 1 else 0 }

  // ----- laws of the specification

  /** What is still due and what was paid too much make up the difference between net and paid, and never both occur. */
  lemma PendingOrOverpaid(rounds: seq<Round>, rate: real, payouts: seq<PayoutRow>, w: string)
    ensures var due, over := PendingOf(rounds, rate, payouts, w), OverpaidOf(rounds, rate, payouts, w);
            && due >= 0.0 && over >= 0.0 && (due == 0.0 || over == 0.0)
            && due - over == GrossOf(rounds, w) * (1.0 - rate) - PaidOf(payouts, w)
  {
    hide GrossOf, PaidOf;
    assert GrossOf(rounds, w) * (1.0 - rate) == GrossOf(rounds, w) - GrossOf(rounds, w) * rate;
  }

  lemma UnitsNonNegative(shares: seq<ShareRow>, w: string)
    requires forall s :: s in shares ==> s.units > 0
    ensures 0 <= UnitsBy(shares, w) <= UnitsIn(shares)
    ensures UnitsIn(shares) > 0 <==> shares != []
    ensures UnitsBy(shares, w) > 0 <==> exists s :: s in shares && s.workerId == w
  {
    SumIntNonNegative(shares, UnitsFor(w));
    SumIntNonNegative(shares, UnitsColumn());
    UnitsByAtMost(shares, w);
    if s :| s in shares && s.workerId == w {
      assert UnitsFor(w)(s) <= UnitsBy(shares, w);
    }
    if shares != [] {
      assert shares[0] in shares && UnitsColumn()(shares[0]) <= UnitsIn(shares);
    }
    if forall s :: s in shares ==> s.workerId != w {
      UnitsByNone(shares, w);
    }
  }

  lemma {:induction false} UnitsByNone(shares: seq<ShareRow>, w: string)
    requires forall s :: s in shares ==> s.workerId != w
    ensures UnitsBy(shares, w) == 0
  {
    if shares != [] { UnitsByNone(shares[1..], w); }
  }

  lemma {:induction false} UnitsByAtMost(shares: seq<ShareRow>, w: string)
    requires forall s :: s in shares ==> s.units > 0
    ensures UnitsBy(shares, w) <= UnitsIn(shares)
  {
    if shares != [] { UnitsByAtMost(shares[1..], w); }
  }

  /** Amounts already paid add up over workers whatever the order of the payout rows. */
  lemma PaidAddsUp(payouts: seq<PayoutRow>, names: seq<string>)
    requires Distinct(names) && forall p :: p in payouts && IsCounted(p) ==> p.workerId in names
    ensures SumReal(names, (w: string) => PaidOf(payouts, w)) == SumReal(payouts, PaidColumn())
  {
    var counted := Filter(payouts, IsCounted);
    var amount := (p: PayoutRow) => p.amount;
    var part := (w: string) => (p: PayoutRow) => if p.workerId == w then p.amount else 0.0;
    var group := (w: string) => PaidOf(payouts, w);
    forall w | w in names ensures group(w) == SumReal(counted, part(w)) {
      CountedSum(payouts, part(w), PaidFor(w));
    }
    SumByKey(counted, names, (p: PayoutRow) => p.workerId, amount, part, group);
    CountedSum(payouts, amount, PaidColumn());
  }

  lemma {:induction false} CountedSum(payouts: seq<PayoutRow>, f: PayoutRow -> real, g: PayoutRow -> real)
    requires forall p :: p in payouts ==> g(p) == if IsCounted(p) then f(p) else 0.0
    ensures SumReal(Filter(payouts, IsCounted), f) == SumReal(payouts, g)
  {
    if payouts != [] {
      CountedSum(payouts[1..], f, g);
      SumRealAppend(if IsCounted(payouts[0]) then [payouts[0]] else [], Filter(payouts[1..], IsCounted), f);
      assert [payouts[0]][1..] == [];
      assert SumReal([payouts[0]][1..], f) == 0.0;
    }
  }

  /** Net amounts add up to the distributed rewards less the fee. */
  lemma NetAddsUp(rounds: seq<Round>, rate: real, names: seq<string>)
    requires Covers(names, rounds)
    ensures SumReal(names, (w: string) => NetOf(rounds, rate, w)) == GrossTotal(rounds) - FeeOf(GrossTotal(rounds), rate)
  {
    hide GrossOf, GrossTotal, SumReal, Covers;
    var gross := (w: string) => GrossOf(rounds, w);
    var minus := (w: string) => -rate * GrossOf(rounds, w);
    var net := (w: string) => NetOf(rounds, rate, w);
    GrossAddsUp(rounds, names);
    SumRealScale(names, gross, -rate, minus);
    SumRealAdd(names, gross, minus, net);
  }

  /** What was paid and what is pending exceed the net amounts by exactly the sum of the workers' overpayments.
      That sum is never negative, so the clamp around the global figure never acts. */
  lemma OverpaymentIdentity(rounds: seq<Round>, rate: real, payouts: seq<PayoutRow>, names: seq<string>)
    requires Covers(names, rounds) && forall p :: p in payouts && IsCounted(p) ==> p.workerId in names
    ensures var paid := SumReal(payouts, PaidColumn());
            var pending := SumReal(names, DueFor(rounds, rate, payouts));
            var net := GrossTotal(rounds) - FeeOf(GrossTotal(rounds), rate);
            && paid + pending - net == SumReal(names, OverpaidFor(rounds, rate, payouts))
            && paid + pending - net >= 0.0
  {
    hide FeeOf, NetOf, PaidOf, SumReal, GrossTotal, Covers;
    var paidF := (w: string) => PaidOf(payouts, w);
    var pendingF := DueFor(rounds, rate, payouts);
    var netF := (w: string) => NetOf(rounds, rate, w);
    var overF := OverpaidFor(rounds, rate, payouts);
    var left := (w: string) => PaidOf(payouts, w) + PendingOf(rounds, rate, payouts, w);
    CoversDistinct(names, rounds);
    PaidAddsUp(payouts, names);
    NetAddsUp(rounds, rate, names);
    SumRealAdd(names, paidF, pendingF, left);
    SumRealAdd(names, overF, netF, left);
    SumRealNonNegative(names, overF);
  }

  lemma CoversDistinct(names: seq<string>, rounds: seq<Round>)
    requires Covers(names, rounds)
    ensures Distinct(names)
  {
  }

  /** Subtracting payouts one by one and clamping each time leaves the same pending amount in every order. */
  lemma PayoutOrderIrrelevant(rounds: seq<Round>, rate: real, a: seq<PayoutRow>, b: seq<PayoutRow>, w: string)
    requires multiset(a) == multiset(b)
    ensures PendingOf(rounds, rate, a, w) == PendingOf(rounds, rate, b, w)
    ensures OverpaidOf(rounds, rate, a, w) == OverpaidOf(rounds, rate, b, w)
  {
    SumRealPermute(a, b, PaidFor(w));
  }

  // ----- the dictionary after some rounds and payouts

  predicate LineOk(line: Line, rounds: seq<Round>, rate: real, payouts: seq<PayoutRow>, w: string)
  {
    && line.units == SumInt(rounds, RoundUnits(w))
    && line.tasks == SumInt(rounds, RoundTasks(w))
    && line.gross == GrossOf(rounds, w)
    && line.fee == GrossOf(rounds, w) * rate
    && line.paid == PaidOf(payouts, w)
    && line.pending == PendingOf(rounds, rate, payouts, w)
  }

  ghost predicate BookHolds(b: Book, rounds: seq<Round>, rate: real, payouts: seq<PayoutRow>)
  {
    && BookOk(b)
    && Covers(b.names, rounds)
    && (forall p :: p in payouts && IsCounted(p) ==> p.workerId in b.names)
    && (forall w :: w in b.lines ==> LineOk(b.lines[w], rounds, rate, payouts, w))
  }

  predicate RoundsOk(rounds: seq<Round>)
  {
    forall r :: r in rounds ==> r.reward.reward > 0.0 && forall s :: s in r.shares ==> s.units > 0
  }

  lemma PayNonNegative(r: Round, w: string)
    requires r.reward.reward > 0.0 && forall s :: s in r.shares ==> s.units > 0
    ensures PayOf(r, w) >= 0.0
    ensures (forall s :: s in r.shares ==> s.workerId != w) ==> PayOf(r, w) == 0.0
  {
    UnitsNonNegative(r.shares, w);
    if UnitsIn(r.shares) > 0 {
      assert r.reward.reward * UnitsBy(r.shares, w) as real >= 0.0;
      if forall s :: s in r.shares ==> s.workerId != w {
        UnitsByNone(r.shares, w);
        FractionSplit(r.reward.reward, 0, 0, UnitsIn(r.shares));
      }
    }
  }

  lemma {:induction false} GrossNonNegative(rounds: seq<Round>, w: string)
    requires RoundsOk(rounds)
    ensures GrossOf(rounds, w) >= 0.0
  {
    if rounds != [] {
      assert rounds[0] in rounds;
      PayNonNegative(rounds[0], w);
      assert forall r :: r in rounds[1..] ==> r in rounds;
      GrossNonNegative(rounds[1..], w);
    }
  }

  /** A worker that no round mentions has an empty line. */
  lemma {:induction false} AbsentWorker(rounds: seq<Round>, w: string)
    requires RoundsOk(rounds)
    requires forall r, s :: r in rounds && s in r.shares ==> s.workerId != w
    ensures GrossOf(rounds, w) == 0.0 && SumInt(rounds, RoundUnits(w)) == 0 && SumInt(rounds, RoundTasks(w)) == 0
  {
    if rounds != [] {
      var r := rounds[0];
      assert r in rounds;
      PayNonNegative(r, w);
      UnitsByNone(r.shares, w);
      assert forall q :: q in rounds[1..] ==> q in rounds;
      AbsentWorker(rounds[1..], w);
    }
  }

  lemma {:induction false} AbsentPayee(payouts: seq<PayoutRow>, w: string)
    requires forall p :: p in payouts && IsCounted(p) ==> p.workerId != w
    ensures PaidOf(payouts, w) == 0.0
  {
    if payouts != [] { AbsentPayee(payouts[1..], w); }
  }

  lemma NetNonNegative(gross: real, rate: real)
    requires gross >= 0.0 && 0.0 <= rate <= 1.0
    ensures gross - gross * rate >= 0.0
  {
    assert gross * (1.0 - rate) >= 0.0;
  }

  /** A line that setdefault creates is already right. */
  lemma BlankHolds(rounds: seq<Round>, rate: real, payouts: seq<PayoutRow>, w: string, address: Option<string>)
    requires RoundsOk(rounds)
    requires forall r, s :: r in rounds && s in r.shares ==> s.workerId != w
    requires forall p :: p in payouts && IsCounted(p) ==> p.workerId != w
    ensures LineOk(Blank(address), rounds, rate, payouts, w)
  {
    AbsentWorker(rounds, w);
    AbsentPayee(payouts, w);
  }

  lemma SetDefaultHolds(b: Book, rounds: seq<Round>, rate: real, payouts: seq<PayoutRow>, w: string, address: Option<string>)
    requires BookHolds(b, rounds, rate, payouts) && RoundsOk(rounds)
    ensures BookHolds(SetDefault(b, w, address), rounds, rate, payouts)
  {
    if w !in b.lines {
      BlankHolds(rounds, rate, payouts, w, address);
    }
  }

  // ----- the computation

  /** A dictionary of the units per worker of some shares, with its keys in insertion order. */
  ghost predicate Tally(names: seq<string>, units: map<string, int>, shares: seq<ShareRow>)
  {
    && Distinct(names) && (forall w :: w in names <==> w in units)
    && (forall w :: w in units ==> units[w] == UnitsBy(shares, w))
    && (forall s :: s in shares ==> s.workerId in names)
    && (forall w :: w in names ==> exists s :: s in shares && s.workerId == w)
  }

  lemma UnitsByOneMore(shares: seq<ShareRow>, s: ShareRow, w: string)
    ensures UnitsBy(shares + [s], w) == UnitsBy(shares, w) + if s.workerId == w then s.units else 0
  {
    SumIntAppend(shares, [s], UnitsFor(w));
    assert SumInt([s][1..], UnitsFor(w)) == 0;
  }

  lemma TallyAdd(names: seq<string>, units: map<string, int>, shares: seq<ShareRow>, s: ShareRow)
    requires Tally(names, units, shares)
    ensures var w := s.workerId;
            Tally(if w in units then names else names + [w],
                  units[w := (if w in units then units[w] else 0) + s.units], shares + [s])
  {
    hide UnitsBy;
    var more := shares + [s];
    forall w ensures UnitsBy(more, w) == UnitsBy(shares, w) + if s.workerId == w then s.units else 0 { UnitsByOneMore(shares, s, w); }
    if s.workerId !in units {
      UnitsByNone(shares, s.workerId);
    }
    forall w | w in names || w == s.workerId ensures exists q :: q in more && q.workerId == w {
      if w == s.workerId {
        assert s in more;
      } else {
        var q :| q in shares && q.workerId == w;
        assert q in more;
      }
    }
  }

  lemma TallyEmpty()
    ensures Tally([], map[], [])
  {
  }

  /** Adds up the units of one window per worker. */
  method RoundShares(shares: seq<ShareRow>, startTs: int, endTs: int) returns (names: seq<string>, units: map<string, int>)
    requires forall s :: s in shares ==> IsValidShare(s)
    ensures Tally(names, units, Window(shares, startTs, endTs))
  {
    hide Tally;
    names, units := [], map[];
    TallyEmpty();
    for i := 0 to |shares|
      invariant Tally(names, units, Window(shares[..i], startTs, endTs))
    {
      var share := shares[i];
      WindowNext(shares, startTs, endTs, i);
      if startTs > 0 && share.createdTs <= startTs { continue; }
      if share.createdTs > endTs { continue; }
      var w := share.workerId;
      TallyAdd(names, units, Window(shares[..i], startTs, endTs), share);
      names, units := if w in units then names else names + [w],
                      units[w := (if w in units then units[w] else 0) + share.units];
    }
    assert shares[..|shares|] == shares;
  }

  lemma WindowNext(shares: seq<ShareRow>, startTs: int, endTs: int, i: nat)
    requires i < |shares|
    ensures var before := Window(shares[..i], startTs, endTs);
            Window(shares[..i + 1], startTs, endTs)
            == if InWindow(startTs, endTs, shares[i]) then before + [shares[i]] else before
    ensures shares[i] in shares
  {
    assert shares[..i + 1] == shares[..i] + [shares[i]];
    FilterAppend(shares[..i], [shares[i]], WindowTest(startTs, endTs));
    FilterOne(shares[i], WindowTest(startTs, endTs));
  }

  lemma OneMoreRound(rounds: seq<Round>, r: Round, w: string)
    ensures SumInt(rounds + [r], RoundUnits(w)) == SumInt(rounds, RoundUnits(w)) + RoundUnits(w)(r)
    ensures SumInt(rounds + [r], RoundTasks(w)) == SumInt(rounds, RoundTasks(w)) + RoundTasks(w)(r)
    ensures GrossOf(rounds + [r], w) == GrossOf(rounds, w) + PayOf(r, w)
    ensures GrossTotal(rounds + [r]) == GrossTotal(rounds) + Distributed(r)
  {
    SumIntAppend(rounds, [r], RoundUnits(w));
    SumIntAppend(rounds, [r], RoundTasks(w));
    SumRealAppend(rounds, [r], PayFor(w));
    SumRealAppend(rounds, [r], Distributed);
    assert [r][1..] == [];
    assert SumInt([r][1..], RoundUnits(w)) == 0 && SumInt([r][1..], RoundTasks(w)) == 0;
    assert SumReal([r][1..], PayFor(w)) == 0.0 && SumReal([r][1..], Distributed) == 0.0;
  }

  /** Before any payout a worker's pending amount is its net amount. */
  lemma PendingIsNet(rounds: seq<Round>, rate: real, w: string)
    requires RoundsOk(rounds) && 0.0 <= rate <= 1.0
    ensures PendingOf(rounds, rate, [], w) == NetOf(rounds, rate, w)
  {
    GrossNonNegative(rounds, w);
    NetNonNegative(GrossOf(rounds, w), rate);
  }

  lemma RoundsOkFront(rounds: seq<Round>, r: Round)
    requires RoundsOk(rounds + [r])
    ensures RoundsOk(rounds)
  {
    assert forall q :: q in rounds ==> q in rounds + [r];
  }

  lemma EarnedLine(line: Line, rounds: seq<Round>, r: Round, rate: real, w: string)
    requires RoundsOk(rounds + [r]) && 0.0 <= rate <= 1.0 && UnitsIn(r.shares) > 0
    requires LineOk(line, rounds, rate, [], w)
    requires exists s :: s in r.shares && s.workerId == w
    ensures var gross := Fraction(r.reward.reward, UnitsBy(r.shares, w), UnitsIn(r.shares));
            LineOk(line.(units := line.units + UnitsBy(r.shares, w), tasks := line.tasks + 1, gross := line.gross + gross,
                         fee := line.fee + FeeOf(gross, rate), pending := line.pending + (gross - FeeOf(gross, rate))),
                   rounds + [r], rate, [], w)
  {
    hide GrossOf, GrossTotal, UnitsIn, UnitsBy, SumInt, SumReal, PendingOf, RoundsOk, Distributed;
    RoundsOkFront(rounds, r);
    OneMoreRound(rounds, r, w);
    PendingIsNet(rounds, rate, w);
    PendingIsNet(rounds + [r], rate, w);
    var gross := PayOf(r, w);
    assert (GrossOf(rounds, w) + gross) * rate == GrossOf(rounds, w) * rate + gross * rate;
  }

  lemma IdleLine(line: Line, rounds: seq<Round>, r: Round, rate: real, w: string)
    requires LineOk(line, rounds, rate, [], w) && RoundsOk([r])
    requires forall s :: s in r.shares ==> s.workerId != w
    ensures LineOk(line, rounds + [r], rate, [], w)
  {
    hide GrossOf, GrossTotal, SumInt, SumReal;
    assert r in [r];
    OneMoreRound(rounds, r, w);
    PayNonNegative(r, w);
    UnitsByNone(r.shares, w);
  }

  /** The dictionary while a round is being distributed: the first workers have their part of it. */
  ghost predicate PartlyPaid(b: Book, done: set<string>, rounds: seq<Round>, r: Round, rate: real)
  {
    && BookOk(b)
    && Covers(b.names, rounds)
    && (forall w :: w in done ==> w in b.names)
    && (forall w :: w in b.lines ==> LineOk(b.lines[w], if w in done then rounds + [r] else rounds, rate, [], w))
  }

  /** Distributes the reward of one round over its workers. */
  method Distribute(book: Book, names: seq<string>, units: map<string, int>, roundUnits: int, reward: real, rate: real,
                    ghost rounds: seq<Round>, ghost r: Round)
    returns (b: Book, gross: real, fee: real)
    requires BookHolds(book, rounds, rate, []) && RoundsOk(rounds + [r]) && 0.0 <= rate <= 1.0
    requires Tally(names, units, r.shares) && roundUnits == UnitsIn(r.shares) > 0 && reward == r.reward.reward
    ensures BookHolds(b, rounds + [r], rate, [])
    ensures gross == Distributed(r) && fee == FeeOf(gross, rate)
    ensures KeepsAddresses(book, b)
  {
    hide KeepsAddresses, FeeOf, Fraction, PartlyPaid, LineOk, BookHolds, BookOk, SetDefault, RoundsOk, GrossOf, Tally, PayOf;
    b, gross, fee := book, 0.0, 0.0;
    ghost var done: set<string> := {};
    ghost var pay := (w: string) => PayOf(r, w);
    NothingPaid(b, rounds, r, rate);
    KeepsSelf(book);
    FeeSplit(0.0, 0.0, rate);
    for i := 0 to |names|
      invariant done == set w | w in names[..i]
      invariant BookOk(b) && PartlyPaid(b, done, rounds, r, rate) && KeepsAddresses(book, b)
      invariant gross == SumReal(names[..i], pay)
      invariant fee == FeeOf(gross, rate)
    {
      var w := names[i];
      TallyAt(names, units, r.shares, i);
      StartPaying(b, done, rounds, r, rate, w);
      ghost var before := b;
      b := SetDefault(b, w, None);
      var line := b.lines[w];
      EarnedLine(line, rounds, r, rate, w);
      var amount := Fraction(reward, units[w], roundUnits);
      var part := FeeOf(amount, rate);
      var earned := line.(units := line.units + units[w], tasks := line.tasks + 1, gross := line.gross + amount,
                          fee := line.fee + part, pending := line.pending + (amount - part));
      PayLine(b, done, rounds, r, rate, w, earned);
      KeepsStep(book, before, w, None, earned);
      b := Put(b, w, earned);
      done := done + {w};
      SumRealNext(names, i, pay);
      FractionIsPay(r, w);
      FeeSplit(gross, amount, rate);
      gross := gross + amount;
      fee := fee + part;
    }
    assert names[..|names|] == names;
    TallyNames(names, units, r.shares);
    RoundPaysReward(r, names);
    FinishPaying(b, done, rounds, r, rate, names, units);
  }

  lemma KeepsSelf(a: Book)
    ensures KeepsAddresses(a, a)
  {
  }

  lemma FractionIsPay(r: Round, w: string)
    requires UnitsIn(r.shares) > 0
    ensures PayOf(r, w) == Fraction(r.reward.reward, UnitsBy(r.shares, w), UnitsIn(r.shares))
  {
  }

  lemma FeeSplit(gross: real, amount: real, rate: real)
    ensures FeeOf(gross + amount, rate) == FeeOf(gross, rate) + FeeOf(amount, rate)
    ensures FeeOf(0.0, rate) == 0.0
  {
  }

  lemma NothingPaid(b: Book, rounds: seq<Round>, r: Round, rate: real)
    requires BookHolds(b, rounds, rate, [])
    ensures BookOk(b) && PartlyPaid(b, {}, rounds, r, rate)
  {
  }

  lemma TallyNames(names: seq<string>, units: map<string, int>, shares: seq<ShareRow>)
    requires Tally(names, units, shares)
    ensures Distinct(names) && forall s :: s in shares ==> s.workerId in names
  {
  }

  lemma TallyAt(names: seq<string>, units: map<string, int>, shares: seq<ShareRow>, i: nat)
    requires Tally(names, units, shares) && i < |names|
    ensures names[i] !in names[..i] && names[i] in units && units[names[i]] == UnitsBy(shares, names[i])
    ensures exists s :: s in shares && s.workerId == names[i]
  {
  }

  lemma StartPaying(b: Book, done: set<string>, rounds: seq<Round>, r: Round, rate: real, w: string)
    requires PartlyPaid(b, done, rounds, r, rate) && RoundsOk(rounds + [r]) && w !in done
    ensures PartlyPaid(SetDefault(b, w, None), done, rounds, r, rate)
    ensures LineOk(SetDefault(b, w, None).lines[w], rounds, rate, [], w)
  {
    if w !in b.lines {
      assert RoundsOk(rounds) by { assert forall q :: q in rounds ==> q in rounds + [r]; }
      BlankHolds(rounds, rate, [], w, None);
    }
  }

  lemma PayLine(b: Book, done: set<string>, rounds: seq<Round>, r: Round, rate: real, w: string, line: Line)
    requires PartlyPaid(b, done, rounds, r, rate) && w in b.lines && LineOk(line, rounds + [r], rate, [], w)
    ensures BookOk(Put(b, w, line)) && PartlyPaid(Put(b, w, line), done + {w}, rounds, r, rate)
  {
  }

  lemma SumRealNext(s: seq<string>, i: nat, f: string -> real)
    requires i < |s|
    ensures SumReal(s[..i + 1], f) == SumReal(s[..i], f) + f(s[i])
  {
    assert s[..i + 1] == s[..i] + [s[i]];
    SumRealAppend(s[..i], [s[i]], f);
    assert [s[i]][1..] == [];
    assert SumReal([s[i]][1..], f) == 0.0;
  }

  lemma FinishPaying(b: Book, done: set<string>, rounds: seq<Round>, r: Round, rate: real, names: seq<string>, units: map<string, int>)
    requires PartlyPaid(b, done, rounds, r, rate) && RoundsOk(rounds + [r])
    requires Tally(names, units, r.shares) && done == set v | v in names
    ensures BookHolds(b, rounds + [r], rate, [])
  {
    assert r in rounds + [r];
    forall w | w in b.lines ensures LineOk(b.lines[w], rounds + [r], rate, [], w) {
      if w !in done {
        IdleLine(b.lines[w], rounds, r, rate, w);
      }
    }
  }

  // ----- payouts

  lemma PaidNext(rounds: seq<Round>, rate: real, payouts: seq<PayoutRow>, p: PayoutRow, w: string)
    ensures PaidOf(payouts + [p], w) == PaidOf(payouts, w) + PaidFor(w)(p)
    ensures IsCounted(p) && p.workerId == w ==>
              PendingOf(rounds, rate, payouts + [p], w) == Max0(PendingOf(rounds, rate, payouts, w) - p.amount)
    ensures !(IsCounted(p) && p.workerId == w) ==> PendingOf(rounds, rate, payouts + [p], w) == PendingOf(rounds, rate, payouts, w)
  {
    SumRealAppend(payouts, [p], PaidFor(w));
    assert [p][1..] == [];
    assert SumReal([p][1..], PaidFor(w)) == 0.0;
  }

  lemma PaidTotalsNext(payouts: seq<PayoutRow>, p: PayoutRow)
    ensures SumReal(payouts + [p], PaidColumn()) == SumReal(payouts, PaidColumn()) + PaidColumn()(p)
    ensures SumReal(payouts + [p], PayoutFeeColumn()) == SumReal(payouts, PayoutFeeColumn()) + PayoutFeeColumn()(p)
  {
    SumRealAppend(payouts, [p], PaidColumn());
    SumRealAppend(payouts, [p], PayoutFeeColumn());
    assert [p][1..] == [];
    assert SumReal([p][1..], PaidColumn()) == 0.0 && SumReal([p][1..], PayoutFeeColumn()) == 0.0;
  }

  lemma SkippedPayout(b: Book, rounds: seq<Round>, rate: real, payouts: seq<PayoutRow>, p: PayoutRow)
    requires BookHolds(b, rounds, rate, payouts) && !IsCounted(p)
    ensures BookHolds(b, rounds, rate, payouts + [p])
  {
    forall w | w in b.lines ensures LineOk(b.lines[w], rounds, rate, payouts + [p], w) {
      PaidNext(rounds, rate, payouts, p, w);
    }
  }

  lemma CountedPayout(b: Book, rounds: seq<Round>, rate: real, payouts: seq<PayoutRow>, p: PayoutRow)
    requires BookHolds(b, rounds, rate, payouts) && IsCounted(p) && p.workerId in b.lines
    ensures var line := b.lines[p.workerId];
            BookHolds(Put(b, p.workerId, line.(paid := line.paid + p.amount, pending := Max0(line.pending - p.amount))),
                      rounds, rate, payouts + [p])
  {
    var line := b.lines[p.workerId];
    var next := Put(b, p.workerId, line.(paid := line.paid + p.amount, pending := Max0(line.pending - p.amount)));
    forall w | w in next.lines ensures LineOk(next.lines[w], rounds, rate, payouts + [p], w) {
      PaidNext(rounds, rate, payouts, p, w);
    }
  }

  method SubtractPayouts(book: Book, payouts: seq<PayoutRow>, ghost rounds: seq<Round>, ghost rate: real)
    returns (b: Book, paid: real, fees: real)
    requires BookHolds(book, rounds, rate, []) && RoundsOk(rounds)
    ensures BookHolds(b, rounds, rate, payouts)
    ensures paid == SumReal(payouts, PaidColumn()) && fees == SumReal(payouts, PayoutFeeColumn())
    ensures KeepsAddresses(book, b)
  {
    hide KeepsAddresses, BookHolds, SetDefault, RoundsOk;
    b, paid, fees := book, 0.0, 0.0;
    KeepsSelf(book);
    for i := 0 to |payouts|
      invariant KeepsAddresses(book, b)
      invariant BookHolds(b, rounds, rate, payouts[..i])
      invariant paid == SumReal(payouts[..i], PaidColumn()) && fees == SumReal(payouts[..i], PayoutFeeColumn())
    {
      var p := payouts[i];
      assert payouts[..i + 1] == payouts[..i] + [p];
      PaidTotalsNext(payouts[..i], p);
      if p.workerId == "" || p.amount <= 0.0 {
        SkippedPayout(b, rounds, rate, payouts[..i], p);
        continue;
      }
      HoldsIsOk(b, rounds, rate, payouts[..i]);
      SetDefaultHolds(b, rounds, rate, payouts[..i], p.workerId, p.address);
      ghost var before := b;
      b := SetDefault(b, p.workerId, p.address);
      CountedPayout(b, rounds, rate, payouts[..i], p);
      var line := b.lines[p.workerId];
      var reduced := line.(paid := line.paid + p.amount, pending := Max0(line.pending - p.amount));
      KeepsStep(book, before, p.workerId, p.address, reduced);
      b := Put(b, p.workerId, reduced);
      paid := paid + p.amount;
      fees := fees + Max0(p.fee);
    }
    assert payouts[..|payouts|] == payouts;
  }

  lemma HoldsIsOk(b: Book, rounds: seq<Round>, rate: real, payouts: seq<PayoutRow>)
    requires BookHolds(b, rounds, rate, payouts)
    ensures BookOk(b)
  {
  }

  // ----- the summary

  /** Amounts are reported with eight decimals, cut toward zero. */
  function Cut8(x: real): real
  {
    if x >= 0.0 then (x * 100000000.0).Floor as real / 100000000.0 else -((-x * 100000000.0).Floor as real / 100000000.0)
  }

  /** Figures are cut to whole hundred-millionths, towards zero. */
  lemma Cut8Is(x: real)
    ensures x >= 0.0 ==> 0.0 <= Cut8(x) <= x < Cut8(x) + 0.00000001
    ensures (Cut8(x) * 100000000.0).Floor as real == Cut8(x) * 100000000.0
    ensures Cut8(-x) == -Cut8(x)
  {
    var n := if x >= 0.0 then (x * 100000000.0).Floor else -(-x * 100000000.0).Floor;
    assert Cut8(x) == n as real / 100000000.0;
    assert Cut8(x) * 100000000.0 == n as real;
  }

  datatype WorkerPay = WorkerPay(
    workerId: string, address: Option<string>, units: int, tasks: int, gross: real, fee: real, paid: real, pending: real, payable: bool)

  datatype RoundView = RoundView(reward: RewardRow, startTs: int, totalUnits: int, workerCount: nat)

  datatype Summary = Summary(
    names: seq<string>, workers: seq<WorkerPay>, rounds: seq<RoundView>,
    grossTotal: real, feeTotal: real, netTotal: real, paidTotal: real, payoutFeeTotal: real,
    pendingTotal: real, workerTopUp: real, operatorTopUp: real)

  function PayOfLine(w: string, line: Line, minPayout: real): WorkerPay
  {
    WorkerPay(w, line.address, line.units, line.tasks, Cut8(line.gross), Cut8(line.fee), Cut8(line.paid), Cut8(line.pending),
              if minPayout > 0.0 then line.pending >= minPayout else line.pending > 0.0)
  }

  /** A listed worker's figures are its sums over the rounds and payouts. */
  predicate HasFigures(p: WorkerPay, w: string, rounds: seq<Round>, rate: real, payouts: seq<PayoutRow>, minPayout: real)
  {
    var due := PendingOf(rounds, rate, payouts, w);
    && p.workerId == w
    && p.units == SumInt(rounds, RoundUnits(w)) && p.tasks == SumInt(rounds, RoundTasks(w))
    && p.gross == Cut8(GrossOf(rounds, w)) && p.fee == Cut8(GrossOf(rounds, w) * rate)
    && p.paid == Cut8(PaidOf(payouts, w))
    && p.pending == Cut8(due)
    && p.payable == if minPayout > 0.0 then due >= minPayout else due > 0.0
  }

  ghost predicate ListsPending(workers: seq<WorkerPay>, names: seq<string>, rounds: seq<Round>, rate: real, payouts: seq<PayoutRow>, minPayout: real)
  {
    && (forall i, j :: 0 <= i < j < |workers| ==> workers[i].workerId != workers[j].workerId)
    && (forall w :: w in names && PendingOf(rounds, rate, payouts, w) > 0.0 <==> exists p :: p in workers && p.workerId == w)
    && (forall p :: p in workers ==> HasFigures(p, p.workerId, rounds, rate, payouts, minPayout))
  }

  lemma LineFigures(w: string, line: Line, rounds: seq<Round>, rate: real, payouts: seq<PayoutRow>, minPayout: real)
    requires LineOk(line, rounds, rate, payouts, w)
    ensures HasFigures(PayOfLine(w, line, minPayout), w, rounds, rate, payouts, minPayout)
    ensures PayOfLine(w, line, minPayout).workerId == w && line.pending == PendingOf(rounds, rate, payouts, w)
  {
    hide Cut8, GrossOf, PaidOf, PendingOf, SumInt;
  }

  /** The workers with something pending, in the dictionary's order. */
  method ListWorkers(b: Book, minPayout: real, ghost rounds: seq<Round>, ghost rate: real, ghost payouts: seq<PayoutRow>)
    returns (workers: seq<WorkerPay>, pending: real)
    requires BookHolds(b, rounds, rate, payouts)
    ensures ListsPending(workers, b.names, rounds, rate, payouts, minPayout)
    ensures pending == SumReal(b.names, DueFor(rounds, rate, payouts))
    ensures forall p :: p in workers ==> p.workerId in b.lines && p.address == b.lines[p.workerId].address
  {
    hide BookHolds, LineOk, PendingOf, ListsPending, Cut8;
    ListEmpty(rounds, rate, payouts, minPayout);
    workers, pending := [], 0.0;
    ghost var due := DueFor(rounds, rate, payouts);
    for i := 0 to |b.names|
      invariant ListsPending(workers, b.names[..i], rounds, rate, payouts, minPayout)
      invariant pending == SumReal(b.names[..i], due)
      invariant forall p :: p in workers ==> p.workerId in b.lines && p.address == b.lines[p.workerId].address
    {
      var w := b.names[i];
      LineDue(b, i, rounds, rate, payouts);
      LinePending(b.lines[w], rounds, rate, payouts, w);
      SumRealNext(b.names, i, due);
      pending := pending + b.lines[w].pending;
      if b.lines[w].pending > 0.0 {
        ListAdd(workers, b.names[..i], w, b.lines[w], rounds, rate, payouts, minPayout);
        workers := workers + [PayOfLine(w, b.lines[w], minPayout)];
      } else {
        ListSkip(workers, b.names[..i], w, b.lines[w], rounds, rate, payouts, minPayout);
      }
    }
    assert b.names[..|b.names|] == b.names;
  }

  lemma ListEmpty(rounds: seq<Round>, rate: real, payouts: seq<PayoutRow>, minPayout: real)
    ensures ListsPending([], [], rounds, rate, payouts, minPayout)
  {
  }

  lemma LinePending(line: Line, rounds: seq<Round>, rate: real, payouts: seq<PayoutRow>, w: string)
    requires LineOk(line, rounds, rate, payouts, w)
    ensures line.pending == PendingOf(rounds, rate, payouts, w)
  {
  }

  lemma LineDue(b: Book, i: nat, rounds: seq<Round>, rate: real, payouts: seq<PayoutRow>)
    requires BookHolds(b, rounds, rate, payouts) && i < |b.names|
    ensures var w := b.names[i];
            w in b.lines && w !in b.names[..i] && LineOk(b.lines[w], rounds, rate, payouts, w)
    ensures b.names[..i + 1] == b.names[..i] + [b.names[i]]
  {
  }

  /** The list without an entry for a worker with nothing pending. */
  lemma ListSkip(workers: seq<WorkerPay>, names: seq<string>, w: string, line: Line, rounds: seq<Round>, rate: real, payouts: seq<PayoutRow>, minPayout: real)
    requires ListsPending(workers, names, rounds, rate, payouts, minPayout)
    requires LineOk(line, rounds, rate, payouts, w) && line.pending <= 0.0
    ensures ListsPending(workers, names + [w], rounds, rate, payouts, minPayout)
  {
  }

  lemma ListAdd(workers: seq<WorkerPay>, names: seq<string>, w: string, line: Line, rounds: seq<Round>, rate: real, payouts: seq<PayoutRow>, minPayout: real)
    requires ListsPending(workers, names, rounds, rate, payouts, minPayout)
    requires LineOk(line, rounds, rate, payouts, w) && line.pending > 0.0 && w !in names
    ensures ListsPending(workers + [PayOfLine(w, line, minPayout)], names + [w], rounds, rate, payouts, minPayout)
  {
    hide HasFigures, PendingOf, LineOk, PayOfLine;
    LineFigures(w, line, rounds, rate, payouts, minPayout);
    var more := workers + [PayOfLine(w, line, minPayout)];
    assert more[|workers|] in more;
    forall i | 0 <= i < |workers| ensures workers[i].workerId != w { assert workers[i] in workers; }
    forall v | v in names + [w] && PendingOf(rounds, rate, payouts, v) > 0.0 ensures exists p :: p in more && p.workerId == v {
      if v != w {
        var p :| p in workers && p.workerId == v;
        assert p in more;
      }
    }
  }

  /** The largest pending amount first, then by id. */
  function PaidBefore(a: WorkerPay, b: WorkerPay): bool
  {
    a.pending > b.pending || (a.pending == b.pending && TextLe(a.workerId, b.workerId))
  }

  lemma PaidBeforeTotal()
    ensures TotalPreorder(PaidBefore)
  {
    TextLeTotal();
  }

  lemma LargestFirst(workers: seq<WorkerPay>)
    requires Sorted(PaidBefore, workers)
    ensures forall i, j :: 0 <= i < j < |workers| ==> workers[i].pending >= workers[j].pending
  {
    forall i, j | 0 <= i < j < |workers| ensures workers[i].pending >= workers[j].pending {
      assert PaidBefore(workers[i], workers[j]);
    }
  }

  function IdOf(p: WorkerPay): string { p.workerId }

  /** Sorting the list keeps what it says about the workers. */
  lemma ListSorted(workers: seq<WorkerPay>, names: seq<string>, rounds: seq<Round>, rate: real, payouts: seq<PayoutRow>, minPayout: real)
    requires ListsPending(workers, names, rounds, rate, payouts, minPayout)
    ensures ListsPending(Sort(PaidBefore, workers), names, rounds, rate, payouts, minPayout)
    ensures Sorted(PaidBefore, Sort(PaidBefore, workers))
    ensures forall p :: p in Sort(PaidBefore, workers) <==> p in workers
  {
    hide PendingOf, Cut8, PaidBefore, Sort;
    var sorted := Sort(PaidBefore, workers);
    PaidBeforeTotal();
    SortSorted(PaidBefore, workers);
    SameElements(workers, sorted);
    ColumnPermute(workers, sorted, IdOf);
    DistinctPermute(Column(workers, IdOf), Column(sorted, IdOf));
    forall i, j | 0 <= i < j < |sorted| ensures sorted[i].workerId != sorted[j].workerId {
      assert Column(sorted, IdOf)[i] != Column(sorted, IdOf)[j];
    }
  }

  function LastReversed<T>(s: seq<T>, n: nat): (r: seq<T>)
    ensures |r| == Min(n, |s|)
    ensures forall i :: 0 <= i < |r| ==> r[i] == s[|s| - 1 - i]
  {
    seq(Min(n, |s|), i requires 0 <= i < Min(n, |s|) => s[|s| - 1 - i])
  }

  function Workers(r: Round): set<string> { set s | s in r.shares :: s.workerId }

  function ViewOf(r: Round): RoundView { RoundView(r.reward, r.startTs, UnitsIn(r.shares), |Workers(r)|) }

  function Views(rounds: seq<Round>): (vs: seq<RoundView>)
    ensures |vs| == |rounds| && forall i :: 0 <= i < |rounds| ==> vs[i] == ViewOf(rounds[i])
  {
    seq(|rounds|, i requires 0 <= i < |rounds| => ViewOf(rounds[i]))
  }

  /** Distributes one round: collects the window's units, then pays its workers. */
  method DistributeRound(row: RewardRow, previous: int, shares: seq<ShareRow>, start: Book, rate: real, ghost done: seq<Round>)
    returns (b: Book, view: RoundView, amount: real, part: real)
    requires BookHolds(start, done, rate, []) && 0.0 <= rate <= 1.0
    requires forall s :: s in shares ==> IsValidShare(s)
    requires RoundsOk(done + [Round(row, previous, Window(shares, previous, row.completedTs))])
    ensures var r := Round(row, previous, Window(shares, previous, row.completedTs));
            && BookHolds(b, done + [r], rate, []) && KeepsAddresses(start, b)
            && view == ViewOf(r) && amount == Distributed(r) && part == FeeOf(amount, rate)
  {
    hide *;
    ghost var r := Round(row, previous, Window(shares, previous, row.completedTs));
    var names, units := RoundShares(shares, previous, row.completedTs);
    TallyTotals(names, units, r);
    var total := SumInt(names, (w: string) => if w in units then units[w] else 0);
    view := RoundView(row, previous, total, |names|);
    b, amount, part := start, 0.0, 0.0;
    FeeSplit(0.0, 0.0, rate);
    KeepsSelf(start);
    if total > 0 {
      b, amount, part := Distribute(b, names, units, total, row.reward, rate, done, r);
    } else {
      EmptyRound(b, done, r, rate);
    }
  }

  /** Distributes every round in turn. */
  method DistributeRounds(wins: seq<RewardRow>, shares: seq<ShareRow>, start: Book, rate: real)
    returns (b: Book, rounds: seq<RoundView>, gross: real, fee: real)
    requires BookHolds(start, [], rate, []) && 0.0 <= rate <= 1.0
    requires forall r :: r in wins ==> r.reward > 0.0
    requires forall s :: s in shares ==> IsValidShare(s)
    ensures var rs := Rounds(0, wins, shares);
            BookHolds(b, rs, rate, []) && rounds == Views(rs) && gross == GrossTotal(rs) && fee == FeeOf(gross, rate)
    ensures KeepsAddresses(start, b)
  {
    hide *;
    ghost var all := Rounds(0, wins, shares);
    WinRoundsOk(0, wins, shares);
    b, rounds, gross, fee := start, [], 0.0, 0.0;
    FeeSplit(0.0, 0.0, rate);
    KeepsSelf(start);
    NoRounds();
    var previous := 0;
    for k := 0 to |wins|
      invariant previous == if k == 0 then 0 else wins[k - 1].completedTs
      invariant BookHolds(b, all[..k], rate, []) && KeepsAddresses(start, b)
      invariant rounds == Views(all[..k])
      invariant gross == GrossTotal(all[..k]) && fee == FeeOf(gross, rate)
    {
      var row := wins[k];
      ghost var before := b;
      ViewsNext(all, k);
      RoundsOkPrefix(all, k);
      OneMoreRound(all[..k], all[k], "");
      RoundAt(wins, shares, k);
      var view, amount, part;
      b, view, amount, part := DistributeRound(row, previous, shares, b, rate, all[..k]);
      KeepsTwice(start, before, b);
      FeeSplit(gross, amount, rate);
      rounds := rounds + [view];
      gross, fee := gross + amount, fee + part;
      previous := row.completedTs;
    }
    assert all[..|wins|] == all;
  }

  lemma RoundAt(wins: seq<RewardRow>, shares: seq<ShareRow>, k: nat)
    requires k < |wins|
    ensures var previous := if k == 0 then 0 else wins[k - 1].completedTs;
            Rounds(0, wins, shares)[k] == Round(wins[k], previous, Window(shares, previous, wins[k].completedTs))
  {
  }

  lemma KeepsTwice(a: Book, b: Book, c: Book)
    requires KeepsAddresses(a, b) && KeepsAddresses(b, c)
    ensures KeepsAddresses(a, c)
  {
  }

  lemma NoRounds()
    ensures GrossTotal([]) == 0.0 && Views([]) == []
  {
  }

  lemma ViewsNext(rs: seq<Round>, k: nat)
    requires k < |rs|
    ensures rs[..k + 1] == rs[..k] + [rs[k]]
    ensures Views(rs[..k + 1]) == Views(rs[..k]) + [ViewOf(rs[k])]
  {
  }

  lemma WinRoundsOk(startTs: int, wins: seq<RewardRow>, shares: seq<ShareRow>)
    requires forall r :: r in wins ==> r.reward > 0.0
    ensures RoundsOk(Rounds(startTs, wins, shares))
  {
    var rs := Rounds(startTs, wins, shares);
    forall r | r in rs ensures r.reward.reward > 0.0 && forall s :: s in r.shares ==> s.units > 0 {
      var k :| 0 <= k < |rs| && rs[k] == r;
      assert wins[k] in wins;
    }
  }

  lemma RoundsOkPrefix(rs: seq<Round>, k: nat)
    requires RoundsOk(rs) && k < |rs|
    ensures RoundsOk(rs[..k]) && RoundsOk(rs[..k] + [rs[k]])
  {
    forall r | r in rs[..k] + [rs[k]] ensures r in rs {}
  }

  lemma TallyTotals(names: seq<string>, units: map<string, int>, r: Round)
    requires Tally(names, units, r.shares)
    ensures SumInt(names, (w: string) => if w in units then units[w] else 0) == UnitsIn(r.shares)
    ensures ViewOf(r) == RoundView(r.reward, r.startTs, UnitsIn(r.shares), |names|)
  {
    var f := (w: string) => UnitsBy(r.shares, w);
    SumIntEqual(names, (w: string) => if w in units then units[w] else 0, f);
    WorkerUnitsAddUp(r.shares, names);
    DistinctCount(names);
    assert Workers(r) == set w | w in names;
  }

  lemma {:induction false} DistinctCount(names: seq<string>)
    requires Distinct(names)
    ensures |set w | w in names| == |names|
  {
    if names != [] {
      DistinctCount(names[1..]);
      assert (set w | w in names) == {names[0]} + (set w | w in names[1..]);
    }
  }

  /** A round without shares changes nothing. */
  lemma EmptyRound(b: Book, rounds: seq<Round>, r: Round, rate: real)
    requires BookHolds(b, rounds, rate, []) && RoundsOk(rounds + [r]) && UnitsIn(r.shares) <= 0
    ensures BookHolds(b, rounds + [r], rate, []) && Distributed(r) == 0.0
  {
    assert r in rounds + [r];
    UnitsNonNegative(r.shares, "");
    forall w | w in b.lines ensures LineOk(b.lines[w], rounds + [r], rate, [], w) {
      IdleLine(b.lines[w], rounds, r, rate, w);
    }
  }

  /** The address of the last row of a worker. */
  function LastAddress(rows: seq<WorkerRow>, w: string): Option<string>
  {
    if rows == [] then None
    else if rows[|rows| - 1].workerId == w then rows[|rows| - 1].address
    else LastAddress(rows[..|rows| - 1], w)
  }

  predicate HasWorker(rows: seq<WorkerRow>, w: string) { exists row :: row in rows && row.workerId == w }

  ghost predicate Starts(b: Book, rows: seq<WorkerRow>)
  {
    && BookOk(b)
    && (forall w :: w in b.lines <==> HasWorker(rows, w))
    && (forall w :: w in b.lines ==> b.lines[w] == Blank(LastAddress(rows, w)))
  }

  /** Every worker row starts with an empty line; a repeated id keeps the last row. */
  method StartBook(workerRows: seq<WorkerRow>) returns (b: Book)
    ensures Starts(b, workerRows)
  {
    hide Starts, SetDefault;
    b := Book([], map[]);
    NoneStarted();
    for i := 0 to |workerRows|
      invariant Starts(b, workerRows[..i])
    {
      var row := workerRows[i];
      assert workerRows[..i + 1] == workerRows[..i] + [row];
      StartsNext(b, workerRows[..i], row);
      b := Put(SetDefault(b, row.workerId, row.address), row.workerId, Blank(row.address));
    }
    assert workerRows[..|workerRows|] == workerRows;
  }

  lemma NoneStarted()
    ensures Starts(Book([], map[]), [])
  {
  }

  lemma StartsNext(b: Book, rows: seq<WorkerRow>, row: WorkerRow)
    requires Starts(b, rows)
    ensures BookOk(b)
    ensures Starts(Put(SetDefault(b, row.workerId, row.address), row.workerId, Blank(row.address)), rows + [row])
  {
    var more := rows + [row];
    assert more[..|more| - 1] == rows && row in more;
    forall w ensures HasWorker(more, w) <==> w == row.workerId || HasWorker(rows, w) {
      if q :| q in rows && q.workerId == w { assert q in more; }
    }
  }

  lemma StartHolds(b: Book, rows: seq<WorkerRow>, rate: real)
    requires Starts(b, rows)
    ensures BookHolds(b, [], rate, [])
  {
  }

  /** The figures of the round-window payout summary. */
  method SummarizeRoundWindowPayouts(
    taskRewards: seq<RewardRow>, shareRows: seq<ShareRow>, workerRows: seq<WorkerRow>, payoutRows: seq<PayoutRow>,
    feePercent: real, minPayoutAmount: real)
    returns (summary: Summary)
    ensures var rounds, rate := AllRounds(taskRewards, Filter(shareRows, IsValidShare)), FeeRate(feePercent);
            && Covers(summary.names, rounds)
            && (forall p :: p in payoutRows && IsCounted(p) ==> p.workerId in summary.names)
            && ListsPending(summary.workers, summary.names, rounds, rate, payoutRows, Max0(minPayoutAmount))
            && Sorted(PaidBefore, summary.workers)
            && (forall i, j :: 0 <= i < j < |summary.workers| ==> summary.workers[i].pending >= summary.workers[j].pending)
            && summary.rounds == LastReversed(Views(rounds), 20)
            && summary.grossTotal == Cut8(GrossTotal(rounds))
            && summary.feeTotal == Cut8(FeeOf(GrossTotal(rounds), rate))
            && summary.netTotal == Cut8(GrossTotal(rounds) - FeeOf(GrossTotal(rounds), rate))
            && summary.payoutFeeTotal == Cut8(SumReal(payoutRows, PayoutFeeColumn()))
            && summary.paidTotal == Cut8(SumReal(payoutRows, PaidColumn()))
            && summary.pendingTotal == Cut8(SumReal(summary.names, DueFor(rounds, rate, payoutRows)))
            && summary.workerTopUp == Cut8(SumReal(summary.names, OverpaidFor(rounds, rate, payoutRows)))
            && summary.operatorTopUp == Cut8(Max0(SumReal(payoutRows, PaidColumn()) + SumReal(payoutRows, PayoutFeeColumn())
                 + SumReal(summary.names, DueFor(rounds, rate, payoutRows)) - GrossTotal(rounds)))
    ensures forall p, row :: p in summary.workers && row in workerRows && p.workerId == row.workerId
                             ==> p.address == LastAddress(workerRows, p.workerId)
    ensures (forall row :: row in workerRows ==> row.workerId != "")
              ==> forall p :: p in summary.workers && p.address.Some? ==> p.workerId != ""
  {
    hide *;
    var wins := Wins(taskRewards);
    var shares := Filter(shareRows, IsValidShare);
    RoundsOfRows(taskRewards, shareRows);
    var rate := FeeRate(feePercent);
    FeeRateIs(feePercent);
    ghost var rs := AllRounds(taskRewards, shares);
    var b := StartBook(workerRows);
    StartHolds(b, workerRows, rate);
    ghost var start := b;
    var views, gross, fee;
    b, views, gross, fee := DistributeRounds(wins, shares, b, rate);
    WinRoundsOk(0, wins, shares);
    ghost var earned := b;
    var paid, fees;
    b, paid, fees := SubtractPayouts(b, payoutRows, rs, rate);
    KeepsTwice(start, earned, b);
    var minPayout := Max0(minPayoutAmount);
    var listed, pending := ListWorkers(b, minPayout, rs, rate, payoutRows);
    var workers := Sort(PaidBefore, listed);
    ListSorted(listed, b.names, rs, rate, payoutRows, minPayout);
    LargestFirst(workers);
    var net := gross - fee;
    HoldsCovers(b, rs, rate, payoutRows);
    TopUpIsOverpayment(rs, rate, payoutRows, b.names);
    StartAddresses(start, b, workerRows);
    NamelessHasNoAddress(start, b, workerRows);
    summary := Summary(
      b.names, workers, LastReversed(views, 20),
      Cut8(gross), Cut8(fee), Cut8(net), Cut8(paid), Cut8(fees),
      Cut8(pending), Cut8(Max0(paid + pending - net)), Cut8(Max0(paid + fees + pending - gross)));
  }

  lemma RoundsOfRows(rewards: seq<RewardRow>, rows: seq<ShareRow>)
    ensures forall r :: r in Wins(rewards) ==> r.reward > 0.0
    ensures forall s :: s in Filter(rows, IsValidShare) ==> IsValidShare(s)
    ensures AllRounds(rewards, Filter(rows, IsValidShare)) == Rounds(0, Wins(rewards), Filter(rows, IsValidShare))
  {
    WinsAscend(rewards);
  }

  /** The clamp around the workers' top-up never acts. */
  lemma TopUpIsOverpayment(rounds: seq<Round>, rate: real, payouts: seq<PayoutRow>, names: seq<string>)
    requires Covers(names, rounds) && forall p :: p in payouts && IsCounted(p) ==> p.workerId in names
    ensures Max0(SumReal(payouts, PaidColumn()) + SumReal(names, DueFor(rounds, rate, payouts))
                 - (GrossTotal(rounds) - FeeOf(GrossTotal(rounds), rate)))
            == SumReal(names, OverpaidFor(rounds, rate, payouts))
  {
    hide SumReal, GrossTotal, FeeOf, Covers;
    OverpaymentIdentity(rounds, rate, payouts, names);
  }

  lemma StartAddresses(start: Book, b: Book, rows: seq<WorkerRow>)
    requires Starts(start, rows) && KeepsAddresses(start, b)
    ensures forall row :: row in rows ==> row.workerId in b.lines && b.lines[row.workerId].address == LastAddress(rows, row.workerId)
  {
  }

  lemma NamelessHasNoAddress(start: Book, b: Book, rows: seq<WorkerRow>)
    requires Starts(start, rows) && KeepsAddresses(start, b)
    ensures (forall row :: row in rows ==> row.workerId != "") ==> NamelessUnpaid(b)
  {
  }

  /** The fee is the asked percentage, within 0 and 100. */
  lemma FeeRateIs(percent: real)
    ensures 0.0 <= FeeRate(percent) <= 1.0
    ensures 0.0 <= percent <= 100.0 ==> FeeRate(percent) * 100.0 == percent
    ensures percent < 0.0 ==> FeeRate(percent) == 0.0
    ensures percent > 100.0 ==> FeeRate(percent) == 1.0
  {
  }

  lemma HoldsCovers(b: Book, rounds: seq<Round>, rate: real, payouts: seq<PayoutRow>)
    requires BookHolds(b, rounds, rate, payouts)
    ensures Covers(b.names, rounds) && forall p :: p in payouts && IsCounted(p) ==> p.workerId in b.names
  {
  }
}