module JacobianLayout {

  // Where the blocks of the Jacobian stand: [[J1, J2], [J3, J4]], with a row and a column for the angle
  // of every bus of the list, and then for the voltage of every PQ bus.

  import opened Jacobian
  import SparseMatrices

  /** The entry for the a-th and the b-th bus of a block. */
  function Local(net: Network, u: Unknowns, block: Block, a: nat, b: nat): real
    requires a < |u.buses| && b < |u.buses|
  {
    if a == b then Diagonal(net, block, u.buses[a]) else OffDiagonal(net, block, u.buses[a], u.buses[b])
  }

  lemma {:induction false} EntriesOfBlocks(net: Network, u: Unknowns, a: nat, b: nat)
    requires Proper(u) && a < |u.buses| && b < |u.buses|
    ensures Entry(net, u, a, b) == Local(net, u, J1, a, b)
    ensures b < u.pq ==> Entry(net, u, a, |u.buses| + b) == Local(net, u, J2, a, b)
    ensures a < u.pq ==> Entry(net, u, |u.buses| + a, b) == Local(net, u, J3, a, b)
    ensures a < u.pq && b < u.pq ==> Entry(net, u, |u.buses| + a, |u.buses| + b) == Local(net, u, J4, a, b)
  {
    hide Diagonal, OffDiagonal;
  }

  /** A position is stored exactly if it is on the diagonal of a block or the two buses are connected. */
  lemma {:induction false} PatternOfBlocks(net: Network, u: Unknowns, a: nat, b: nat)
    requires Proper(u) && a < |u.buses| && b < |u.buses|
    ensures var stored := a == b || net.g(u.buses[a], u.buses[b]) != 0.0 || net.b(u.buses[a], u.buses[b]) != 0.0;
            && InPattern(net, u, a, b) == stored
            && (b < u.pq ==> InPattern(net, u, a, |u.buses| + b) == stored)
            && (a < u.pq ==> InPattern(net, u, |u.buses| + a, b) == stored)
            && (a < u.pq && b < u.pq ==> InPattern(net, u, |u.buses| + a, |u.buses| + b) == stored)
  {
  }

  /** What both Jacobians are, by blocks. */
  method JacobianBlocks(net: Network, u: Unknowns) returns (dense: array2<real>, sparse: SparseMatrices.Sparse)
    requires Proper(u)
    ensures fresh(dense) && dense.Length0 == dense.Length1 == |u.buses| + u.pq
    ensures forall a, b :: 0 <= a < |u.buses| && 0 <= b < |u.buses| ==>
              && dense[a, b] == Local(net, u, J1, a, b)
              && (b < u.pq ==> dense[a, |u.buses| + b] == Local(net, u, J2, a, b))
              && (a < u.pq ==> dense[|u.buses| + a, b] == Local(net, u, J3, a, b))
              && (a < u.pq && b < u.pq ==> dense[|u.buses| + a, |u.buses| + b] == Local(net, u, J4, a, b))
    ensures forall r: nat, c: nat :: r < |u.buses| + u.pq && c < |u.buses| + u.pq ==>
              SparseMatrices.Coefficient(sparse, r, c) == dense[r, c]
  {
    dense := new real[Size(u), Size(u)];
    CalculateDense(net, u, dense);
    var pattern := BuildPattern(net, u);
    sparse := CalculateSparse(net, u, pattern);
    forall a: nat, b: nat | a < |u.buses| && b < |u.buses|
      ensures dense[a, b] == Local(net, u, J1, a, b)
      ensures b < u.pq ==> dense[a, |u.buses| + b] == Local(net, u, J2, a, b)
      ensures a < u.pq ==> dense[|u.buses| + a, b] == Local(net, u, J3, a, b)
      ensures a < u.pq && b < u.pq ==> dense[|u.buses| + a, |u.buses| + b] == Local(net, u, J4, a, b)
    {
      EntriesOfBlocks(net, u, a, b);
      hide Entry, Local;
    }
  }
}
