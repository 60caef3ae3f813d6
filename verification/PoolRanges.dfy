/** Cutting a task range into chunks and putting the computed segments back together. */
module PoolRanges {
  import opened Prelude
  import opened StableSort

  datatype Range = Range(start: int, end: int)
  {
    function Units(): int { end - start + 1 }
  }

  /** A worker's answer for one range. */
  datatype Piece = Piece(start: int, end: int, segment: string)

  datatype SplitError = BadStart | BadEnd | BadSize

  datatype AssembleError = MissingAt(position: int) | BadPiece(start: int, end: int) | BadLength(start: int, end: int)

  /** Non-empty ranges that follow one another and cover lo..hi exactly. */
  predicate Tiles(lo: int, hi: int, rs: seq<Range>)
    decreases |rs|
  {
    if rs == [] then lo == hi + 1
    else rs[0].start == lo && lo <= rs[0].end && Tiles(rs[0].end + 1, hi, rs[1..])
  }

  /** A tiling is in strictly ascending order and stays inside its range. */
  lemma {:induction false} TilesAscend(lo: int, hi: int, rs: seq<Range>)
    requires Tiles(lo, hi, rs)
    ensures lo <= hi + 1
    ensures forall i :: 0 <= i < |rs| ==> lo <= rs[i].start <= rs[i].end <= hi
    ensures forall i, j :: 0 <= i < j < |rs| ==> rs[i].end < rs[j].start
    decreases |rs|
  {
    if rs != [] {
      TilesAscend(rs[0].end + 1, hi, rs[1..]);
      assert forall i :: 1 <= i < |rs| ==> rs[i] == rs[1..][i - 1];
    }
  }

  /** Sizes of the ranges in a sequence. */
  function UnitsOf(rs: seq<Range>): (total: int)
  {
    if rs == [] then 0 else rs[0].Units() + UnitsOf(rs[1..])
  }

  lemma {:induction false} TilesUnits(lo: int, hi: int, rs: seq<Range>)
    requires Tiles(lo, hi, rs)
    ensures UnitsOf(rs) == hi - lo + 1
    decreases |rs|
  {
    if rs != [] { TilesUnits(rs[0].end + 1, hi, rs[1..]); }
  }

  // ----- splitting

  /** Chunks of a fixed size; the last one may be shorter. */
  function FixedChunks(lo: int, hi: int, size: int): seq<Range>
    requires size >= 1
    decreases hi - lo
  {
    if lo > hi then []
    else
      var end := Min(hi, lo + size - 1);
      [Range(lo, end)] + FixedChunks(end + 1, hi, size)
  }

  lemma {:induction false} FixedChunksTile(lo: int, hi: int, size: int)
    requires size >= 1 && lo <= hi + 1
    ensures Tiles(lo, hi, FixedChunks(lo, hi, size))
    decreases hi - lo
  {
    if lo <= hi {
      var end := Min(hi, lo + size - 1);
      FixedChunksTile(end + 1, hi, size);
      assert FixedChunks(lo, hi, size)[1..] == FixedChunks(end + 1, hi, size);
    }
  }

  /** Every chunk but the last has the asked size; the last is no longer. */
  lemma {:induction false} FixedChunkSizes(lo: int, hi: int, size: int, i: nat)
    requires size >= 1 && i < |FixedChunks(lo, hi, size)|
    ensures var rs := FixedChunks(lo, hi, size);
            if i < |rs| - 1 then rs[i].Units() == size else 1 <= rs[i].Units() <= size
    decreases i
  {
    var end := Min(hi, lo + size - 1);
    var rest := FixedChunks(end + 1, hi, size);
    assert FixedChunks(lo, hi, size) == [Range(lo, end)] + rest;
    if i == 0 {
      assert rest == [] || end == lo + size - 1;
    } else {
      FixedChunkSizes(end + 1, hi, size, i - 1);
    }
  }

  method SplitRange(lo: int, hi: int, size: int) returns (r: Result<seq<Range>, SplitError>)
    ensures r.Success? <==> 1 <= lo <= hi && size >= 1
    ensures r.Success? ==> r.value == FixedChunks(lo, hi, size)
    ensures r.Failure? ==> r.error == if lo < 1 then BadStart else if hi < lo then BadEnd else BadSize
  {
    if lo < 1 { return Failure(BadStart); }
    if hi < lo { return Failure(BadEnd); }
    if size < 1 { return Failure(BadSize); }
    var chunks: seq<Range> := [];
    var current := lo;
    while current <= hi
      invariant lo <= current <= hi + 1
      invariant chunks + FixedChunks(current, hi, size) == FixedChunks(lo, hi, size)
    {
      var end := Min(hi, current + size - 1);
      chunks := chunks + [Range(current, end)];
      current := end + 1;
    }
    return Success(chunks);
  }

  function BalancedCount(lo: int, hi: int, target: int): int
  {
    Max(1, Min(if target == 0 then 1 else target, hi - lo + 1))
  }

  /** Chunks from position index on: the first `extra` of them are one unit longer than `base`. */
  function BalancedFrom(current: int, index: nat, count: nat, base: int, extra: int): (rs: seq<Range>)
    requires index <= count
    ensures |rs| == count - index
    decreases count - index
  {
    if index == count then []
    else
      var end := current + (base + if index < extra then 1 else 0) - 1;
      [Range(current, end)] + BalancedFrom(end + 1, index + 1, count, base, extra)
  }

  function BalancedChunks(lo: int, hi: int, target: int): seq<Range>
    requires lo <= hi
  {
    var count := BalancedCount(lo, hi, target);
    BalancedFrom(lo, 0, count, (hi - lo + 1) / count, (hi - lo + 1) % count)
  }

  lemma {:induction false} BalancedFromTiles(current: int, index: nat, count: nat, base: int, extra: int, hi: int)
    requires index <= count && base >= 1 && 0 <= extra
    requires hi + 1 == current + (count - index) * base + Max(0, Min(extra, count) - index)
    ensures Tiles(current, hi, BalancedFrom(current, index, count, base, extra))
    ensures forall r :: r in BalancedFrom(current, index, count, base, extra) ==> base <= r.Units() <= base + 1
    decreases count - index
  {
    if index < count {
      var end := current + (base + if index < extra then 1 else 0) - 1;
      assert (count - index) * base == (count - (index + 1)) * base + base;
      BalancedFromTiles(end + 1, index + 1, count, base, extra, hi);
      assert BalancedFrom(current, index, count, base, extra)[1..] == BalancedFrom(end + 1, index + 1, count, base, extra);
    }
  }

  /** Balanced splitting covers the range with min(max(1, target), units) chunks whose sizes differ by at most one. */
  lemma BalancedChunksTile(lo: int, hi: int, target: int)
    requires lo <= hi
    ensures Tiles(lo, hi, BalancedChunks(lo, hi, target))
    ensures |BalancedChunks(lo, hi, target)| == Min(Max(1, target), hi - lo + 1)
    ensures forall r, q :: r in BalancedChunks(lo, hi, target) && q in BalancedChunks(lo, hi, target)
                           ==> r.Units() <= q.Units() + 1
    ensures forall i, j :: 0 <= i < j < |BalancedChunks(lo, hi, target)|
                           ==> BalancedChunks(lo, hi, target)[j].Units() <= BalancedChunks(lo, hi, target)[i].Units()
  {
    var units := hi - lo + 1;
    var count := BalancedCount(lo, hi, target);
    assert 1 <= count <= units;
    DivisionAtLeastOne(units, count);
    BalancedFromTiles(lo, 0, count, units / count, units % count, hi);
    BalancedFromDescends(lo, 0, count, units / count, units % count);
  }

  /** The larger chunks come first. */
  lemma {:induction false} BalancedFromDescends(current: int, index: nat, count: nat, base: int, extra: int)
    requires index <= count
    ensures var rs := BalancedFrom(current, index, count, base, extra);
            |rs| == count - index && forall i :: 0 <= i < |rs| ==> rs[i].Units() == base + if index + i < extra then 1 else 0
    decreases count - index
  {
    if index < count {
      var end := current + (base + if index < extra then 1 else 0) - 1;
      BalancedFromDescends(end + 1, index + 1, count, base, extra);
      assert BalancedFrom(current, index, count, base, extra) == [Range(current, end)] + BalancedFrom(end + 1, index + 1, count, base, extra);
    }
  }

  /** Ranges of at least one unit that hold as many units as there are ranges hold one each. */
  lemma {:induction false} AtLeastOneEach(lo: int, hi: int, rs: seq<Range>)
    requires Tiles(lo, hi, rs)
    ensures UnitsOf(rs) >= |rs|
    ensures UnitsOf(rs) == |rs| ==> forall i :: 0 <= i < |rs| ==> rs[i].Units() == 1
    decreases |rs|
  {
    if rs != [] {
      AtLeastOneEach(rs[0].end + 1, hi, rs[1..]);
      assert forall i :: 1 <= i < |rs| ==> rs[i] == rs[1..][i - 1];
    }
  }

  lemma DivisionAtLeastOne(units: int, count: int)
    requires 1 <= count <= units
    ensures units / count >= 1
    ensures units == count * (units / count) + units % count && 0 <= units % count < count
  {
    assert units / count < 1 ==> units < count;
  }

  method SplitRangeBalanced(lo: int, hi: int, target: int) returns (r: Result<seq<Range>, SplitError>)
    ensures r.Success? <==> 1 <= lo <= hi
    ensures r.Success? ==> r.value == BalancedChunks(lo, hi, target)
    ensures r.Failure? ==> r.error == if lo < 1 then BadStart else BadEnd
  {
    if lo < 1 { return Failure(BadStart); }
    if hi < lo { return Failure(BadEnd); }
    var units := hi - lo + 1;
    var count := BalancedCount(lo, hi, target);
    var base, extra := units / count, units % count;
    ghost var all := BalancedFrom(lo, 0, count, base, extra);
    assert all == BalancedChunks(lo, hi, target);
    var chunks: seq<Range> := [];
    var current := lo;
    for index := 0 to count
      invariant chunks + BalancedFrom(current, index, count, base, extra) == all
    {
      var size := base + (if index < extra then 1 else 0);
      var end := current + size - 1;
      chunks := chunks + [Range(current, end)];
      current := end + 1;
    }
    return Success(chunks);
  }

  // ----- reassembly

  function RangesOf(ps: seq<Piece>): (rs: seq<Range>)
    ensures |rs| == |ps|
    ensures forall i :: 0 <= i < |ps| ==> rs[i] == Range(ps[i].start, ps[i].end)
  {
    if ps == [] then [] else [Range(ps[0].start, ps[0].end)] + RangesOf(ps[1..])
  }

  predicate LengthsMatch(ps: seq<Piece>)
  {
    forall i :: 0 <= i < |ps| ==> |ps[i].segment| == ps[i].end - ps[i].start + 1
  }

  /** Pieces that follow one another over lo..hi, each with a segment of its own length. */
  predicate PiecesTile(lo: int, hi: int, ps: seq<Piece>)
  {
    Tiles(lo, hi, RangesOf(ps)) && LengthsMatch(ps)
  }

  function Join(ps: seq<Piece>): string
  {
    if ps == [] then "" else ps[0].segment + Join(ps[1..])
  }

  function ByStart(a: Piece, b: Piece): bool { a.start <= b.start }

  /** Checks pieces one by one and joins them, or names the first problem. */
  function Walk(expected: int, hi: int, ps: seq<Piece>): Result<string, AssembleError>
    decreases |ps|
  {
    if ps == [] then
      if expected == hi + 1 then Success("") else Failure(MissingAt(expected))
    else if ps[0].start != expected then Failure(MissingAt(expected))
    else if ps[0].end < ps[0].start then Failure(BadPiece(ps[0].start, ps[0].end))
    else if |ps[0].segment| != ps[0].end - ps[0].start + 1 then Failure(BadLength(ps[0].start, ps[0].end))
    else
      match Walk(ps[0].end + 1, hi, ps[1..])
      case Success(rest) => Success(ps[0].segment + rest)
      case Failure(e) => Failure(e)
  }

  function Assemble(lo: int, hi: int, ps: seq<Piece>): Result<string, AssembleError>
  {
    Walk(lo, hi, Sort(ByStart, ps))
  }

  method AssembleSegment(lo: int, hi: int, pieces: seq<Piece>) returns (r: Result<string, AssembleError>)
    ensures r == Assemble(lo, hi, pieces)
    ensures r.Success? <==> PiecesTile(lo, hi, Sort(ByStart, pieces))
    ensures r.Success? ==> r.value == Join(Sort(ByStart, pieces))
    ensures r.Failure? ==> exists n :: 0 <= n <= |pieces| && FailsAfter(lo, hi, Sort(ByStart, pieces), n, r.error)
  {
    hide FailsAfter, PiecesTile, Join, Sort;
    WalkIff(lo, hi, Sort(ByStart, pieces));
    if Walk(lo, hi, Sort(ByStart, pieces)).Failure? {
      ghost var n := WalkFails(lo, hi, Sort(ByStart, pieces));
    }
    var ordered := Sort(ByStart, pieces);
    var expected := lo;
    var text := "";
    assert ordered[0..] == ordered;
    assert forall s: string :: "" + s == s;
    for i := 0 to |ordered|
      invariant Walk(lo, hi, ordered) == match Walk(expected, hi, ordered[i..])
                                         case Success(rest) => Success(text + rest)
                                         case Failure(e) => Failure(e)
    {
      var piece := ordered[i];
      assert ordered[i..][1..] == ordered[i + 1..];
      if piece.start != expected { return Failure(MissingAt(expected)); }
      if piece.end < piece.start { return Failure(BadPiece(piece.start, piece.end)); }
      if |piece.segment| != piece.end - piece.start + 1 { return Failure(BadLength(piece.start, piece.end)); }
      ghost var before := text;
      text := text + piece.segment;
      expected := piece.end + 1;
      ghost var tail := Walk(expected, hi, ordered[i + 1..]);
      if tail.Success? {
        assert before + (piece.segment + tail.value) == text + tail.value;
      }
    }
    assert ordered[|ordered|..] == [];
    if expected != hi + 1 { return Failure(MissingAt(expected)); }
    assert text + "" == text;
    return Success(text);
  }

  /** Where the first n pieces leave off. */
  function NextPosition(lo: int, ps: seq<Piece>, n: nat): int
    requires n <= |ps|
  {
    if n == 0 then lo else ps[n - 1].end + 1
  }

  /** The first n pieces are sound, and the error is what is wrong right after them. */
  predicate FailsAfter(lo: int, hi: int, ps: seq<Piece>, n: nat, e: AssembleError)
  {
    && n <= |ps|
    && var p := NextPosition(lo, ps, n);
       && PiecesTile(lo, p - 1, ps[..n])
       && match e
          case MissingAt(at) => at == p && (if n == |ps| then p != hi + 1 else ps[n].start != p)
          case BadPiece(start, end) => n < |ps| && start == ps[n].start == p && end == ps[n].end < start
          case BadLength(start, end) =>
            n < |ps| && start == ps[n].start == p && end == ps[n].end >= start && |ps[n].segment| != end - start + 1
  }

  /** A failure names the first position without a piece, the first piece that ends before it starts, or the first segment of
      another length than its range. */
  lemma {:induction false} WalkFails(lo: int, hi: int, ps: seq<Piece>) returns (n: nat)
    requires Walk(lo, hi, ps).Failure?
    ensures n <= |ps| && FailsAfter(lo, hi, ps, n, Walk(lo, hi, ps).error)
    decreases |ps|
  {
    n := 0;
    assert ps[..0] == [];
    if ps != [] && ps[0].start == lo && ps[0].start <= ps[0].end && |ps[0].segment| == ps[0].end - ps[0].start + 1 {
      var m := WalkFails(ps[0].end + 1, hi, ps[1..]);
      n := m + 1;
      assert ps[..n][1..] == ps[1..][..m] && ps[..n][0] == ps[0];
      assert RangesOf(ps[..n]) == [Range(ps[0].start, ps[0].end)] + RangesOf(ps[1..][..m]);
      assert RangesOf(ps[..n])[1..] == RangesOf(ps[1..][..m]);
      assert forall i :: 1 <= i < n ==> ps[..n][i] == ps[1..][..m][i - 1];
    }
  }

  lemma {:induction false} WalkIff(lo: int, hi: int, ps: seq<Piece>)
    ensures Walk(lo, hi, ps).Success? <==> PiecesTile(lo, hi, ps)
    ensures Walk(lo, hi, ps).Success? ==> Walk(lo, hi, ps).value == Join(ps)
    decreases |ps|
  {
    if ps != [] {
      WalkIff(ps[0].end + 1, hi, ps[1..]);
      assert RangesOf(ps)[1..] == RangesOf(ps[1..]);
      if PiecesTile(lo, hi, ps) {
        assert LengthsMatch(ps[1..]);
      }
      if Walk(lo, hi, ps).Success? {
        assert forall i :: 1 <= i < |ps| ==> ps[i] == ps[1..][i - 1];
        assert LengthsMatch(ps);
      }
    }
  }

  lemma StartsAscend(lo: int, hi: int, ps: seq<Piece>)
    requires PiecesTile(lo, hi, ps)
    ensures Sorted(ByStart, ps)
    ensures forall p, q :: p in ps && q in ps && p.start == q.start ==> p == q
  {
    TilesAscend(lo, hi, RangesOf(ps));
  }

  lemma ByStartTotal()
    ensures TotalPreorder(ByStart)
  {
  }

  /** Whatever order pieces of a tiling arrive in, they are put back in place. */
  lemma AssemblePermuted(lo: int, hi: int, tiling: seq<Piece>, ps: seq<Piece>)
    requires PiecesTile(lo, hi, tiling)
    requires multiset(ps) == multiset(tiling)
    ensures Assemble(lo, hi, ps) == Success(Join(tiling))
  {
    StartsAscend(lo, hi, tiling);
    ByStartTotal();
    SortSorted(ByStart, ps);
    SortedUnique(ByStart, tiling, Sort(ByStart, ps));
    WalkIff(lo, hi, tiling);
  }

  /** Reassembly succeeds exactly on the rearrangements of an exact tiling with matching lengths. */
  lemma AssembleSucceedsIff(lo: int, hi: int, ps: seq<Piece>)
    ensures Assemble(lo, hi, ps).Success?
            <==> exists tiling :: multiset(tiling) == multiset(ps) && PiecesTile(lo, hi, tiling)
  {
    var sorted := Sort(ByStart, ps);
    WalkIff(lo, hi, sorted);
    if tiling :| multiset(tiling) == multiset(ps) && PiecesTile(lo, hi, tiling) {
      AssemblePermuted(lo, hi, tiling, ps);
    }
  }

  /** Cuts a text whose first character sits at position lo. */
  function Cut(text: string, lo: int, rs: seq<Range>): (ps: seq<Piece>)
    requires Tiles(lo, lo + |text| - 1, rs)
    ensures PiecesTile(lo, lo + |text| - 1, ps)
    ensures RangesOf(ps) == rs
    decreases |rs|
  {
    if rs == [] then []
    else
      TilesAscend(lo, lo + |text| - 1, rs);
      var n := rs[0].Units();
      var rest := Cut(text[n..], rs[0].end + 1, rs[1..]);
      var ps := [Piece(rs[0].start, rs[0].end, text[..n])] + rest;
      assert RangesOf(ps) == [rs[0]] + RangesOf(rest);
      assert rs == [rs[0]] + rs[1..];
      assert ps[1..] == rest;
      ps
  }

  lemma JoinCons(p: Piece, rest: seq<Piece>)
    ensures Join([p] + rest) == p.segment + Join(rest)
  {
    assert ([p] + rest)[1..] == rest;
  }

  lemma {:induction false} CutJoin(text: string, lo: int, rs: seq<Range>)
    requires Tiles(lo, lo + |text| - 1, rs)
    ensures Join(Cut(text, lo, rs)) == text
    decreases |rs|
  {
    if rs != [] {
      TilesAscend(lo, lo + |text| - 1, rs);
      var n := rs[0].Units();
      CutJoin(text[n..], rs[0].end + 1, rs[1..]);
      JoinCons(Piece(rs[0].start, rs[0].end, text[..n]), Cut(text[n..], rs[0].end + 1, rs[1..]));
      assert text == text[..n] + text[n..];
    }
  }

  /** Cutting a text by either split and reassembling the pieces in any order returns the text. */
  lemma SplitThenAssemble(text: string, lo: int, hi: int, size: int, target: int, ps: seq<Piece>)
    requires lo <= hi && |text| == hi - lo + 1 && size >= 1
    ensures Tiles(lo, lo + |text| - 1, FixedChunks(lo, hi, size))
    ensures Tiles(lo, lo + |text| - 1, BalancedChunks(lo, hi, target))
    ensures multiset(ps) == multiset(Cut(text, lo, FixedChunks(lo, hi, size))) ==> Assemble(lo, hi, ps) == Success(text)
    ensures multiset(ps) == multiset(Cut(text, lo, BalancedChunks(lo, hi, target))) ==> Assemble(lo, hi, ps) == Success(text)
  {
    FixedChunksTile(lo, hi, size);
    BalancedChunksTile(lo, hi, target);
    CutJoin(text, lo, FixedChunks(lo, hi, size));
    CutJoin(text, lo, BalancedChunks(lo, hi, target));
    if multiset(ps) == multiset(Cut(text, lo, FixedChunks(lo, hi, size))) {
      AssemblePermuted(lo, hi, Cut(text, lo, FixedChunks(lo, hi, size)), ps);
    }
    if multiset(ps) == multiset(Cut(text, lo, BalancedChunks(lo, hi, target))) {
      AssemblePermuted(lo, hi, Cut(text, lo, BalancedChunks(lo, hi, target)), ps);
    }
  }
}
