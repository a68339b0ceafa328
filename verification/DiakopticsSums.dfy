module DiakopticsSums {

  // What the right sides, system matrices and tear voltages of the diakoptics solver add up: every
  // source, every stamp and every subnet, fully and once.

  import opened LinearAlgebra
  import opened Diakoptics

  /** The sum of sources: each of them counts, fully and once. */
  lemma {:induction false} SumCountsEach(vs: seq<Vec>, n: nat, k: nat, d: Vec)
    requires Columns(vs, n) && k < |vs| && |d| == n
    ensures SumVectors(vs[k := Plus(vs[k], d)], n) == Plus(SumVectors(vs, n), d)
  {
    var ws, last := vs[k := Plus(vs[k], d)], |vs| - 1;
    if k < last {
      assert ws[..last] == vs[..last][k := Plus(vs[..last][k], d)];
      SumCountsEach(vs[..last], n, k, d);
    } else {
      assert ws[..last] == vs[..last];
    }
    assert forall j :: 0 <= j < n ==> SumVectors(ws, n)[j] == SumVectors(vs, n)[j] + d[j];
  }

  lemma {:induction false} SumOfZeros(vs: seq<Vec>, n: nat)
    requires Columns(vs, n) && forall k :: 0 <= k < |vs| ==> vs[k] == Zeros(n)
    ensures SumVectors(vs, n) == Zeros(n)
  {
    if vs != [] { SumOfZeros(vs[..|vs| - 1], n); }
  }

  /** The same for the stamps of a system matrix. */
  lemma {:induction false} StampsCountEach(stamps: seq<Matrix>, n: nat, k: nat, d: Matrix)
    requires Square(stamps, n) && k < |stamps| && IsMatrix(d, n, n)
    ensures Square(stamps[k := PlusMatrix(stamps[k], d, n)], n)
    ensures forall r, c :: 0 <= r < n && 0 <= c < n ==>
              SumMatrices(stamps[k := PlusMatrix(stamps[k], d, n)], n)[r][c] == SumMatrices(stamps, n)[r][c] + d[r][c]
  {
    var ws, last := stamps[k := PlusMatrix(stamps[k], d, n)], |stamps| - 1;
    if k < last {
      assert ws[..last] == stamps[..last][k := PlusMatrix(stamps[..last][k], d, n)];
      StampsCountEach(stamps[..last], n, k, d);
    } else {
      assert ws[..last] == stamps[..last];
    }
  }

  lemma {:induction false} StampsOfZeros(stamps: seq<Matrix>, n: nat)
    requires Square(stamps, n) && forall k :: 0 <= k < |stamps| ==> stamps[k] == ZeroMatrix(n)
    ensures SumMatrices(stamps, n) == ZeroMatrix(n)
  {
    if stamps != [] {
      StampsOfZeros(stamps[..|stamps| - 1], n);
      assert forall r :: 0 <= r < n ==> SumMatrices(stamps, n)[r] == Zeros(n);
    }
  }

  /** C^T v: each subnet contributes its own part, once. */
  lemma {:induction false} TearCountsEach(topo: Topology, v: seq<Vec>, n: nat, c: nat, net: nat, d: Vec)
    requires n <= |topo| && n <= |v| && net < n && |d| == |v[net]|
    requires forall i :: 0 <= i < n ==> c < |topo[i]| && |topo[i][c]| == |v[i]|
    ensures TearDot(topo, v[net := Plus(v[net], d)], n, c) == TearDot(topo, v, n, c) + Dot(topo[net][c], d)
  {
    var w := v[net := Plus(v[net], d)];
    if net < n - 1 {
      TearCountsEach(topo, v, n - 1, c, net, d);
    } else {
      TearSame(topo, v, w, n - 1, c);
      DotPlus(topo[net][c], v[net], d);
    }
  }

  lemma {:induction false} TearSame(topo: Topology, v: seq<Vec>, w: seq<Vec>, n: nat, c: nat)
    requires n <= |topo| && n <= |v| == |w| && v[..n] == w[..n]
    requires forall i :: 0 <= i < n ==> c < |topo[i]| && |topo[i][c]| == |v[i]|
    ensures forall i :: 0 <= i < n ==> w[i] == v[i]
    ensures TearDot(topo, v, n, c) == TearDot(topo, w, n, c)
  {
    assert forall i :: 0 <= i < n ==> w[i] == w[..n][i] == v[..n][i] == v[i];
    if n > 0 {
      assert v[..n - 1] == v[..n][..n - 1] && w[..n - 1] == w[..n][..n - 1];
      TearSame(topo, v, w, n - 1, c);
    }
  }

  lemma {:induction false} TearOfZeros(topo: Topology, v: seq<Vec>, n: nat, c: nat)
    requires n <= |topo| && n <= |v| && forall i :: 0 <= i < n ==> c < |topo[i]| && |topo[i][c]| == |v[i]|
    requires forall i :: 0 <= i < n ==> v[i] == Zeros(|v[i]|)
    ensures TearDot(topo, v, n, c) == 0.0
  {
    if n > 0 {
      TearOfZeros(topo, v, n - 1, c);
      DotZeros(topo[n - 1][c]);
    }
  }
}
