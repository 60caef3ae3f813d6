/** How the per-task views of a table follow edits of single rows. */
module PoolTableFacts {
  import opened PoolRanges
  import opened PoolTables
  import opened PoolInvariants

  lemma {:induction false} RowsAppend(a: seq<Chunk>, b: seq<Chunk>, t: nat)
    ensures RowsOf(a + b, t) == RowsOf(a, t) + RowsOf(b, t)
    decreases |b|
  {
    if b == [] {
      assert a + b == a;
    } else {
      RowsAppend(a, b[..|b| - 1], t);
      assert (a + b)[..|a + b| - 1] == a + b[..|b| - 1];
    }
  }

  lemma {:induction false} RowsOfBatch(b: seq<Chunk>, u: nat, t: nat)
    requires forall i :: 0 <= i < |b| ==> b[i].task == u
    ensures RowsOf(b, t) == if t == u then b else []
  {
    if b != [] {
      RowsOfBatch(b[..|b| - 1], u, t);
      assert b == b[..|b| - 1] + [b[|b| - 1]];
    }
  }

  lemma {:induction false} RowsOfNone(chunks: seq<Chunk>, t: nat)
    requires forall c :: 0 <= c < |chunks| ==> chunks[c].task != t
    ensures RowsOf(chunks, t) == []
  {
    if chunks != [] { RowsOfNone(chunks[..|chunks| - 1], t); }
  }

  /** Rows of a task come from the table. */
  lemma {:induction false} RowsAreRows(chunks: seq<Chunk>, t: nat)
    ensures forall r :: r in RowsOf(chunks, t) ==> r in chunks && r.task == t
  {
    if chunks != [] {
      RowsAreRows(chunks[..|chunks| - 1], t);
    }
  }

  lemma {:induction false} RowsContain(chunks: seq<Chunk>, t: nat, c: nat)
    requires c < |chunks| && chunks[c].task == t
    ensures chunks[c] in RowsOf(chunks, t)
  {
    if c < |chunks| - 1 { RowsContain(chunks[..|chunks| - 1], t, c); }
  }

  lemma {:induction false} RangesFrame(a: seq<Chunk>, b: seq<Chunk>, t: nat)
    requires |a| == |b| && forall c :: 0 <= c < |a| ==> SameShape(a[c], b[c])
    ensures RowRanges(RowsOf(a, t)) == RowRanges(RowsOf(b, t))
  {
    if a != [] {
      var a', b' := a[..|a| - 1], b[..|b| - 1];
      assert forall c :: 0 <= c < |a'| ==> a'[c] == a[c] && b'[c] == b[c];
      RangesFrame(a', b', t);
      RowRangesAppend(RowsOf(a', t), a[|a| - 1]);
      RowRangesAppend(RowsOf(b', t), b[|b| - 1]);
      assert RowsOf(a', t) + [] == RowsOf(a', t);
      assert RowsOf(b', t) + [] == RowsOf(b', t);
    }
  }

  lemma RowRangesAppend(rows: seq<Chunk>, c: Chunk)
    ensures RowRanges(rows + [c]) == RowRanges(rows) + [Range(c.rangeStart, c.rangeEnd)]
  {
  }

  lemma {:induction false} RowsFrame(a: seq<Chunk>, b: seq<Chunk>, t: nat)
    requires |a| == |b|
    requires forall c :: 0 <= c < |a| ==> a[c].task == b[c].task
    requires forall c :: 0 <= c < |a| && a[c].task == t ==> a[c] == b[c]
    ensures RowsOf(a, t) == RowsOf(b, t)
  {
    if a != [] {
      RowsFrame(a[..|a| - 1], b[..|b| - 1], t);
    }
  }

  function Weight(c: Chunk, t: nat): int { if c.task == t && c.status == Completed then c.units else 0 }

  lemma {:induction false} DoneUnitsFrame(a: seq<Chunk>, b: seq<Chunk>, t: nat)
    requires |a| == |b| && forall c :: 0 <= c < |a| ==> Weight(a[c], t) == Weight(b[c], t)
    ensures DoneUnits(a, t) == DoneUnits(b, t)
  {
    if a != [] {
      assert Weight(a[|a| - 1], t) == Weight(b[|b| - 1], t);
      DoneUnitsFrame(a[..|a| - 1], b[..|b| - 1], t);
    }
  }

  lemma {:induction false} DoneUnitsUpdate(a: seq<Chunk>, c: nat, x: Chunk, t: nat)
    requires c < |a|
    ensures DoneUnits(a[c := x], t) == DoneUnits(a, t) - Weight(a[c], t) + Weight(x, t)
  {
    var b := a[c := x];
    if c == |a| - 1 {
      assert b[..|b| - 1] == a[..|a| - 1];
    } else {
      DoneUnitsUpdate(a[..|a| - 1], c, x, t);
      assert b[..|b| - 1] == a[..|a| - 1][c := x];
    }
  }

  lemma {:induction false} DoneUnitsAppend(a: seq<Chunk>, b: seq<Chunk>, t: nat)
    requires forall c :: 0 <= c < |b| ==> Weight(b[c], t) == 0
    ensures DoneUnits(a + b, t) == DoneUnits(a, t)
    decreases |b|
  {
    if b == [] {
      assert a + b == a;
    } else {
      assert Weight(b[|b| - 1], t) == 0;
      DoneUnitsAppend(a, b[..|b| - 1], t);
      assert (a + b)[..|a + b| - 1] == a + b[..|b| - 1];
    }
  }

  lemma {:induction false} DoneUnitsNone(a: seq<Chunk>, t: nat)
    requires forall c :: 0 <= c < |a| ==> a[c].task != t
    ensures DoneUnits(a, t) == 0
  {
    if a != [] { DoneUnitsNone(a[..|a| - 1], t); }
  }

  lemma ShareUnitsAppend(shares: seq<Share>, s: Share, t: nat)
    ensures ShareUnits(shares + [s], t) == ShareUnits(shares, t) + if s.task == t then s.units else 0
  {
    assert (shares + [s])[..|shares|] == shares;
  }

  lemma {:induction false} ShareUnitsFrame(a: seq<Share>, b: seq<Share>, t: nat)
    requires |a| == |b| && forall i :: 0 <= i < |a| ==> a[i].task == b[i].task && a[i].units == b[i].units
    ensures ShareUnits(a, t) == ShareUnits(b, t)
  {
    if a != [] { ShareUnitsFrame(a[..|a| - 1], b[..|b| - 1], t); }
  }

  lemma {:induction false} ShareUnitsNone(a: seq<Share>, t: nat)
    requires forall i :: 0 <= i < |a| ==> a[i].task != t
    ensures ShareUnits(a, t) == 0
  {
    if a != [] { ShareUnitsNone(a[..|a| - 1], t); }
  }
}
