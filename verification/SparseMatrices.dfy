/** Sparse real matrices: the stored coefficients by position. */
module SparseMatrices {

  /** Row and column. */
  type Position = (nat, nat)

  type Sparse = map<Position, real>

  /** An entry that is not stored is zero. */
  function Coefficient(m: Sparse, r: nat, c: nat): real {
    if (r, c) in m then m[(r, c)] else 0.0
  }

  /** coeffRef(r, c) += x, which stores the entry if it was not. */
  function AddAt(m: Sparse, r: nat, c: nat, x: real): Sparse {
    m[(r, c) := Coefficient(m, r, c) + x]
  }

  lemma AddAtMeans(m: Sparse, r: nat, c: nat, x: real, i: nat, j: nat)
    ensures Coefficient(AddAt(m, r, c, x), i, j) == Coefficient(m, i, j) + if i == r && j == c then x else 0.0
  {
  }
}
