module HistoryUpdates {

  // The stamped blocks of inductors and capacitors, and the updates that they stand for.

  import opened LinearAlgebra
  import opened StateSpace
  import opened StateSpaceContributors

  function InductorBlocks(g: Matrix, k: seq<Vec>, m: nat): (r: Blocks)
    requires IsMatrix(g, |g|, |g|) && |k| == |g| && Columns(k, m)
    ensures BlocksSized(r, m) && |r.a| == |g|
  {
    HistoryBlocks(1.0, g, k, m)
  }

  function CapacitorBlocks(g: Matrix, k: seq<Vec>, m: nat): (r: Blocks)
    requires IsMatrix(g, |g|, |g|) && |k| == |g| && Columns(k, m)
    ensures BlocksSized(r, m) && |r.a| == |g|
  {
    HistoryBlocks(-1.0, g, k, m)
  }

  /** The inductor's history current: h' = h + 2 G v, with v the voltages K x. */
  lemma InductorUpdates(g: Matrix, k: seq<Vec>, h: Vec, x: Vec, p: nat)
    requires IsMatrix(g, |g|, |g|) && |k| == |g| == |h| && Columns(k, |x|) && p < |g|
    ensures Dot(InductorBlocks(g, k, |x|).a[p], h) + Dot(InductorBlocks(g, k, |x|).b[p], x) ==
            h[p] + 2.0 * Dot(g[p], Dots(k, x))
  {
    hide HistoryBlocks, InductorBlocks, CapacitorBlocks, Dot, Dots;
    SameBlocks(g, k, |x|);
    BlocksUpdateHistory(1.0, g, k, h, x, p);
  }

  /** The capacitor's history current: h' = -h - 2 G v. */
  lemma CapacitorUpdates(g: Matrix, k: seq<Vec>, h: Vec, x: Vec, p: nat)
    requires IsMatrix(g, |g|, |g|) && |k| == |g| == |h| && Columns(k, |x|) && p < |g|
    ensures Dot(CapacitorBlocks(g, k, |x|).a[p], h) + Dot(CapacitorBlocks(g, k, |x|).b[p], x) ==
            -h[p] - 2.0 * Dot(g[p], Dots(k, x))
  {
    hide HistoryBlocks, InductorBlocks, CapacitorBlocks, Dot, Dots;
    SameBlocks(g, k, |x|);
    BlocksUpdateHistory(-1.0, g, k, h, x, p);
  }

  lemma SameBlocks(g: Matrix, k: seq<Vec>, m: nat)
    requires IsMatrix(g, |g|, |g|) && |k| == |g| && Columns(k, m)
    ensures InductorBlocks(g, k, m) == HistoryBlocks(1.0, g, k, m)
    ensures CapacitorBlocks(g, k, m) == HistoryBlocks(-1.0, g, k, m)
  {
    hide HistoryBlocks;
  }

  /** Phase p of v: the potential of terminal 1 less that of terminal 0, where ground is at zero;
      unless both terminals are at the same unknown, whose entry is then overwritten. */
  lemma {:induction false} VoltageAcross(t1: Terminal, t0: Terminal, n: nat, x: Vec, p: nat)
    requires (forall q :: 0 <= q < n ==> HasPhase(t1, q, |x|) && HasPhase(t0, q, |x|)) && p < n
    ensures HasPhase(t1, p, |x|) && HasPhase(t0, p, |x|) && |Dots(Mapping(t1, t0, n, |x|), x)| == n
    ensures Dots(Mapping(t1, t0, n, |x|), x)[p] ==
            (if t1.Node? && !(t0.Node? && t1.index[p] == t0.index[p]) then x[t1.index[p]] else 0.0) -
            (if t0.Node? then x[t0.index[p]] else 0.0)
  {
    hide Dot, MappingRow;
    RowTimes(t1, t0, p, x);
    DotCommutes(MappingRow(t1, t0, p, |x|), x);
  }

  /** A product with a vector, entry by entry. */
  lemma {:induction false} DotCountsEach(a: Vec, b: Vec, k: nat, d: real)
    requires |a| == |b| && k < |a|
    ensures Dot(a[k := a[k] + d], b) == Dot(a, b) + d * b[k] && Dot(a, Zeros(|a|)) == 0.0
  {
    DotUpdated(a, k, a[k] + d, b);
    DotZeros(a);
  }
}
