module Diakoptics {

  // DiakopticsSolver: solving a network that has been torn into subnets, with the cached blocks of
  // Y^-1 C and the cached Schur complement of the tear currents.

  import opened LinearAlgebra

  /** For each subnet, its rows of the tear topology matrix C, by columns. */
  type Topology = seq<seq<Vec>>

  // ---------------------------------------------------------------- the torn system

  /** The sum over the first n subnets of column c times the block of v: entry c of C^T v. */
  function TearDot(topo: Topology, v: seq<Vec>, n: nat, c: nat): real
    requires n <= |topo| && n <= |v|
    requires forall net :: 0 <= net < n ==> c < |topo[net]| && |topo[net][c]| == |v[net]|
  {
    if n == 0 then 0.0 else TearDot(topo, v, n - 1, c) + Dot(topo[n - 1][c], v[n - 1])
  }

  /** Every subnet has k tear columns, as long as its block of v. */
  predicate Fits(topo: Topology, v: seq<Vec>, k: nat) {
    |topo| == |v| && forall net :: 0 <= net < |topo| ==> |topo[net]| == k && Columns(topo[net], |v[net]|)
  }

  /** C^T v. */
  function Transposed(topo: Topology, v: seq<Vec>, k: nat): (r: Vec)
    requires Fits(topo, v, k)
    ensures |r| == k
  {
    seq(k, c requires 0 <= c < k => TearDot(topo, v, |topo|, c))
  }

  /** Row c of C^T Y^-1 C, from the first n subnets. */
  function Coupling(topo: Topology, inverse: Topology, n: nat, c: nat, k: nat): (r: Vec)
    requires n <= |topo| && n <= |inverse|
    requires forall net :: 0 <= net < n ==>
               c < |topo[net]| && |inverse[net]| == k && Columns(inverse[net], |topo[net][c]|)
    ensures |r| == k
  {
    if n == 0 then Zeros(k) else Plus(Coupling(topo, inverse, n - 1, c, k), Dots(inverse[n - 1], topo[n - 1][c]))
  }

  /** Both have k columns, of the same length in each subnet. */
  predicate SameShape(topo: Topology, inverse: Topology, k: nat) {
    && |topo| == |inverse|
    && (forall net :: 0 <= net < |topo| ==> |topo[net]| == |inverse[net]| == k)
    && forall net, c, d :: 0 <= net < |topo| && 0 <= c < k && 0 <= d < k ==> |topo[net][c]| == |inverse[net][d]|
  }

  /** Z + C^T Y^-1 C. */
  function Schur(z: Matrix, topo: Topology, inverse: Topology): (r: Matrix)
    requires IsMatrix(z, |z|, |z|) && SameShape(topo, inverse, |z|)
    ensures IsMatrix(r, |z|, |z|)
  {
    seq(|z|, c requires 0 <= c < |z| => Plus(z[c], Coupling(topo, inverse, |topo|, c, |z|)))
  }

  /** The cached block of a subnet with matrix y is Y^-1 C. */
  ghost predicate IsInverse(solve: Solver, y: Matrix, columns: seq<Vec>, inverse: seq<Vec>) {
    && |inverse| == |columns| && Columns(columns, |y|) && Columns(inverse, |y|)
    && forall c :: 0 <= c < |columns| ==> inverse[c] == solve(y, columns[c])
  }

  /** Y^-1 (C i) is (Y^-1 C) i. */
  lemma {:induction false} InverseOfCombination(solve: Solver, y: Matrix, columns: seq<Vec>, inverse: seq<Vec>, i: Vec)
    requires Solves(solve) && Regular(y) && IsInverse(solve, y, columns, inverse) && |i| == |columns|
    ensures solve(y, Combine(columns, i, |y|)) == Combine(inverse, i, |y|)
  {
    TimesCombine(y, inverse, columns, i);
    SolutionUnique(solve, y, Combine(columns, i, |y|), Combine(inverse, i, |y|));
  }

  lemma {:induction false} CouplingDot(topo: Topology, inverse: Topology, x: seq<Vec>, n: nat, c: nat, k: nat, i: Vec)
    requires SameShape(topo, inverse, k) && Fits(topo, x, k) && |i| == k && n <= |topo| && c < k
    requires forall net :: 0 <= net < |x| ==>
               Columns(inverse[net], |x[net]|) && x[net] == Combine(inverse[net], i, |x[net]|)
    ensures Dot(Coupling(topo, inverse, n, c, k), i) == TearDot(topo, x, n, c)
  {
    if n == 0 {
      DotCommutes(Zeros(k), i);
      DotZeros(i);
    } else {
      CouplingDot(topo, inverse, x, n - 1, c, k, i);
      DotPlusLeft(Coupling(topo, inverse, n - 1, c, k), Dots(inverse[n - 1], topo[n - 1][c]), i);
      DotCombine(topo[n - 1][c], inverse[n - 1], i);
    }
  }

  lemma {:induction false} TearDotPlus(topo: Topology, v: seq<Vec>, x: seq<Vec>, w: seq<Vec>, n: nat, c: nat, k: nat)
    requires Fits(topo, v, k) && Fits(topo, x, k) && Fits(topo, w, k) && n <= |topo| && c < k
    requires forall net :: 0 <= net < |w| ==> |v[net]| == |x[net]| && w[net] == Plus(v[net], x[net])
    ensures TearDot(topo, w, n, c) == TearDot(topo, v, n, c) + TearDot(topo, x, n, c)
  {
    if n > 0 {
      TearDotPlus(topo, v, x, w, n - 1, c, k);
      DotPlus(topo[n - 1][c], v[n - 1], x[n - 1]);
    }
  }

  /** The subnet part of the solution: x solves Y x = C i. */
  ghost predicate Corrected(solve: Solver, y: Matrix, columns: seq<Vec>, inverse: seq<Vec>, i: Vec, x: Vec) {
    && Regular(y) && IsInverse(solve, y, columns, inverse) && |i| == |columns| && |x| == |y|
    && x == solve(y, Combine(columns, i, |y|))
  }

  /** The tear currents that solve the Schur system for the uncoupled voltages v solve the tear
      equation for the corrected voltages w = v + x. */
  lemma {:induction false} TornSolution(solve: Solver, y: seq<Matrix>, z: Matrix, topo: Topology, inverse: Topology,
                                        e: Vec, i: Vec, v: seq<Vec>, x: seq<Vec>, w: seq<Vec>)
    requires Solves(solve) && IsMatrix(z, |z|, |z|) && SameShape(topo, inverse, |z|) && |e| == |i| == |z| &&
             |y| == |topo|
    requires Fits(topo, v, |z|) && Fits(topo, x, |z|) && Fits(topo, w, |z|)
    requires forall net :: 0 <= net < |y| ==> Corrected(solve, y[net], topo[net], inverse[net], i, x[net])
    requires forall net :: 0 <= net < |w| ==> |v[net]| == |x[net]| && w[net] == Plus(v[net], x[net])
    requires Times(Schur(z, topo, inverse), i) == Minus(e, Transposed(topo, v, |z|))
    ensures Times(z, i) == Minus(e, Transposed(topo, w, |z|))
  {
    var k := |z|;
    forall net | 0 <= net < |x|
      ensures Columns(inverse[net], |x[net]|) && x[net] == Combine(inverse[net], i, |x[net]|)
    {
      assert Corrected(solve, y[net], topo[net], inverse[net], i, x[net]);
      InverseOfCombination(solve, y[net], topo[net], inverse[net], i);
    }
    forall c | 0 <= c < k ensures Times(z, i)[c] == Minus(e, Transposed(topo, w, k))[c] {
      CouplingDot(topo, inverse, x, |topo|, c, k, i);
      TearDotPlus(topo, v, x, w, |topo|, c, k);
      DotPlusLeft(z[c], Coupling(topo, inverse, |topo|, c, k), i);
      assert Times(Schur(z, topo, inverse), i)[c] == Minus(e, Transposed(topo, v, k))[c];
    }
  }

  // ---------------------------------------------------------------- the incremental cache

  function PlusMatrix(a: Matrix, b: Matrix, n: nat): (r: Matrix)
    requires IsMatrix(a, n, n) && IsMatrix(b, n, n)
    ensures IsMatrix(r, n, n)
  {
    seq(n, r requires 0 <= r < n => Plus(a[r], b[r]))
  }

  function ZeroMatrix(n: nat): (r: Matrix)
    ensures IsMatrix(r, n, n)
  {
    seq(n, r => Zeros(n))
  }

  predicate Square(ms: seq<Matrix>, n: nat) {
    forall k :: 0 <= k < |ms| ==> IsMatrix(ms[k], n, n)
  }

  /** The sum of the components' stamps. */
  function SumMatrices(stamps: seq<Matrix>, n: nat): (r: Matrix)
    requires Square(stamps, n)
    ensures IsMatrix(r, n, n)
  {
    if stamps == [] then ZeroMatrix(n) else PlusMatrix(SumMatrices(stamps[..|stamps| - 1], n), stamps[|stamps| - 1], n)
  }

  function SumVectors(vs: seq<Vec>, n: nat): (r: Vec)
    requires Columns(vs, n)
    ensures |r| == n
  {
    if vs == [] then Zeros(n) else Plus(SumVectors(vs[..|vs| - 1], n), vs[|vs| - 1])
  }

  method AddMatrices(stamps: seq<Matrix>, n: nat) returns (m: Matrix)
    requires Square(stamps, n)
    ensures m == SumMatrices(stamps, n)
  {
    m := ZeroMatrix(n);
    for k := 0 to |stamps|
      invariant m == SumMatrices(stamps[..k], n)
    {
      assert stamps[..k + 1][..k] == stamps[..k];
      m := PlusMatrix(m, stamps[k], n);
    }
    assert stamps[..|stamps|] == stamps;
  }

  method AddVectors(vs: seq<Vec>, n: nat) returns (v: Vec)
    requires Columns(vs, n)
    ensures v == SumVectors(vs, n)
  {
    v := Zeros(n);
    for k := 0 to |vs|
      invariant v == SumVectors(vs[..k], n)
    {
      assert vs[..k + 1][..k] == vs[..k];
      v := Plus(v, vs[k]);
    }
    assert vs[..|vs|] == vs;
  }

  /** The tear columns that couple to a subnet: those that are not zero there. */
  ghost predicate IsTearColumns(cols: seq<nat>, columns: seq<Vec>, n: nat) {
    forall c: nat :: c in cols <==> c < |columns| && columns[c] != Zeros(n)
  }

  method FindTearColumns(columns: seq<Vec>, n: nat) returns (cols: seq<nat>)
    ensures IsTearColumns(cols, columns, n)
  {
    cols := [];
    for c := 0 to |columns|
      invariant forall d: nat :: d in cols <==> d < c && columns[d] != Zeros(n)
    {
      if columns[c] != Zeros(n) {
        cols := cols + [c];
      }
    }
  }

  /** The columns of a subnet's block that have been solved again, the first n of cols. */
  ghost predicate Resolved(solve: Solver, y: Matrix, columns: seq<Vec>, inverse: seq<Vec>, inverse': seq<Vec>,
                           cols: seq<nat>, n: nat)
    requires n <= |cols|
  {
    && |inverse'| == |inverse| == |columns|
    && forall c :: 0 <= c < |columns| ==> inverse'[c] == if c in cols[..n] then solve(y, columns[c]) else inverse[c]
  }

  /** Solving the coupled columns again with a new matrix brings the whole block up to date. */
  lemma {:induction false} ResolvedIsInverse(solve: Solver, y: Matrix, y': Matrix, columns: seq<Vec>, inverse: seq<Vec>,
                                             inverse': seq<Vec>, cols: seq<nat>)
    requires Solves(solve) && Regular(y) && Regular(y') && |y| == |y'|
    requires IsInverse(solve, y, columns, inverse) && IsTearColumns(cols, columns, |y|)
    requires Resolved(solve, y', columns, inverse, inverse', cols, |cols|)
    ensures IsInverse(solve, y', columns, inverse')
  {
    assert cols[..|cols|] == cols;
    SolveZeros(solve, y);
    SolveZeros(solve, y');
    forall c | 0 <= c < |columns| ensures |inverse'[c]| == |y'| && inverse'[c] == solve(y', columns[c]) {
      assert |columns[c]| == |y'| && Times(y', solve(y', columns[c])) == columns[c];
    }
  }

  method SolveColumns(solve: Solver, y: Matrix, columns: seq<Vec>, inverse: seq<Vec>, cols: seq<nat>)
    returns (inverse': seq<Vec>)
    requires |inverse| == |columns| && forall c: nat :: c in cols ==> c < |columns|
    ensures Resolved(solve, y, columns, inverse, inverse', cols, |cols|)
  {
    inverse' := inverse;
    for k := 0 to |cols|
      invariant Resolved(solve, y, columns, inverse, inverse', cols, k)
    {
      assert cols[..k + 1] == cols[..k] + [cols[k]] && cols[k] in cols;
      inverse' := inverse'[cols[k] := solve(y, columns[cols[k]])];
    }
  }

  /** What holds of one subnet between any two tasks. */
  ghost predicate SubnetOk(solve: Solver, matrix: Matrix, factored: Matrix, columns: seq<Vec>, inverse: seq<Vec>,
                           cols: seq<nat>, k: nat) {
    && Regular(matrix) && factored == matrix && |columns| == k
    && IsInverse(solve, matrix, columns, inverse) && IsTearColumns(cols, columns, |matrix|)
  }

  predicate IsSum(m: Matrix, stamps: seq<Matrix>, n: nat) {
    Square(stamps, n) && m == SumMatrices(stamps, n)
  }

  lemma SubnetShape(solve: Solver, y: Matrix, factored: Matrix, columns: seq<Vec>, inverse: seq<Vec>, cols: seq<nat>,
                    k: nat)
    requires SubnetOk(solve, y, factored, columns, inverse, cols, k)
    ensures |inverse| == |columns| == k && forall c: nat :: c in cols ==> c < |columns|
    ensures Columns(inverse, |y|)
  {
  }

  lemma SubnetRecomputed(solve: Solver, y: Matrix, factored: Matrix, y': Matrix, columns: seq<Vec>, inverse: seq<Vec>,
                         inverse': seq<Vec>, cols: seq<nat>, k: nat)
    requires Solves(solve) && SubnetOk(solve, y, factored, columns, inverse, cols, k) && Regular(y') && |y'| == |y|
    requires Resolved(solve, y', columns, inverse, inverse', cols, |cols|)
    ensures SubnetOk(solve, y', y', columns, inverse', cols, k) && |inverse'| == k && Columns(inverse', |y|)
    ensures cols == [] ==> inverse' == inverse
  {
    ResolvedIsInverse(solve, y, y', columns, inverse, inverse', cols);
  }

  /** A subnet as it is set up: its stamps, tear columns and size. */
  ghost predicate Stamped(stamps: seq<Matrix>, columns: seq<Vec>, n: nat, k: nat) {
    Square(stamps, n) && Regular(SumMatrices(stamps, n)) && |columns| == k && Columns(columns, n)
  }

  method InitSubnets(solve: Solver, topo: Topology, stamps: seq<seq<Matrix>>, sizes: seq<nat>, k: nat)
    returns (matrices: seq<Matrix>, inverse: Topology, cols: seq<seq<nat>>)
    requires Solves(solve) && |topo| == |stamps| == |sizes|
    requires forall net :: 0 <= net < |stamps| ==> Stamped(stamps[net], topo[net], sizes[net], k)
    ensures |matrices| == |inverse| == |cols| == |topo|
    ensures forall net :: 0 <= net < |topo| ==>
              IsSum(matrices[net], stamps[net], sizes[net]) &&
              SubnetOk(solve, matrices[net], matrices[net], topo[net], inverse[net], cols[net], k)
  {
    hide SubnetOk, IsSum, SumMatrices, IsTearColumns, Solves, Regular;
    matrices, inverse, cols := [], [], [];
    for net := 0 to |topo|
      invariant |matrices| == |inverse| == |cols| == net
      invariant forall m :: 0 <= m < net ==>
                  IsSum(matrices[m], stamps[m], sizes[m]) &&
                  SubnetOk(solve, matrices[m], matrices[m], topo[m], inverse[m], cols[m], k)
    {
      var y := AddMatrices(stamps[net], sizes[net]);
      var block := seq(|topo[net]|, c requires 0 <= c < |topo[net]| => solve(y, topo[net][c]));
      var coupled := FindTearColumns(topo[net], sizes[net]);
      matrices, inverse, cols := matrices + [y], inverse + [block], cols + [coupled];
      SubnetStarts(solve, stamps[net], y, topo[net], block, coupled, sizes[net], k);
    }
  }

  lemma {:induction false} SubnetStarts(solve: Solver, stamps: seq<Matrix>, y: Matrix, columns: seq<Vec>,
                                        block: seq<Vec>, coupled: seq<nat>, n: nat, k: nat)
    requires Solves(solve) && Stamped(stamps, columns, n, k) && y == SumMatrices(stamps, n)
    requires |block| == |columns| && forall c :: 0 <= c < |columns| ==> block[c] == solve(y, columns[c])
    requires IsTearColumns(coupled, columns, n)
    ensures IsSum(y, stamps, n) && SubnetOk(solve, y, y, columns, block, coupled, k)
  {
    hide SumMatrices, IsTearColumns;
    forall c | 0 <= c < k ensures |columns[c]| == |y| && Times(y, solve(y, columns[c])) == columns[c] {
      SolvesOne(solve, y, columns[c]);
    }
  }

  lemma InitShape(topo: Topology, inverse: Topology, matrices: seq<Matrix>, k: nat)
    requires |topo| == |inverse| == |matrices|
    requires forall net :: 0 <= net < |topo| ==>
               |topo[net]| == |inverse[net]| == k && Columns(topo[net], |matrices[net]|) &&
               Columns(inverse[net], |matrices[net]|)
    ensures SameShape(topo, inverse, k)
  {
  }

  ghost predicate IsCombination(v: Vec, columns: seq<Vec>, i: Vec, n: nat) {
    |columns| == |i| && Columns(columns, n) && v == Combine(columns, i, n)
  }

  lemma TopologyFits(solve: Solver, y: seq<Matrix>, factored: seq<Matrix>, topo: Topology, inverse: Topology,
                     cols: seq<seq<nat>>, v: seq<Vec>, k: nat)
    requires |y| == |factored| == |topo| == |inverse| == |cols| == |v|
    requires forall net :: 0 <= net < |y| ==>
               SubnetOk(solve, y[net], factored[net], topo[net], inverse[net], cols[net], k) && |v[net]| == |y[net]|
    ensures Fits(topo, v, k) && forall net :: 0 <= net < |y| ==> |topo[net]| == k && Columns(topo[net], |y[net]|)
  {
  }

  /** C i, by subnets. */
  method MapCurrents(topo: Topology, i: Vec, v: seq<Vec>) returns (mapped: seq<Vec>)
    requires Fits(topo, v, |i|)
    ensures |mapped| == |topo| && forall net :: 0 <= net < |topo| ==> IsCombination(mapped[net], topo[net], i, |v[net]|)
  {
    mapped := [];
    for net := 0 to |topo|
      invariant |mapped| == net && forall m :: 0 <= m < net ==> IsCombination(mapped[m], topo[m], i, |v[m]|)
    {
      mapped := mapped + [Combine(topo[net], i, |v[net]|)];
    }
  }

  /** The inputs of one step for a subnet: its sources, the change flags of its variable
      components, which report every change, and what all its components stamp now. */
  datatype SubnetInput = SubnetInput(sources: seq<Vec>, changed: seq<bool>, stamps: seq<Matrix>)

  ghost predicate InputOk(input: SubnetInput, matrix: Matrix) {
    && Columns(input.sources, |matrix|) && Square(input.stamps, |matrix|) &&
       Regular(SumMatrices(input.stamps, |matrix|))
    && (true !in input.changed ==> matrix == SumMatrices(input.stamps, |matrix|))
  }

  /** Y v' = I, for the matrix and the sources of this step. */
  ghost predicate Uncoupled(input: SubnetInput, matrix: Matrix, v: Vec, right: Vec) {
    && IsSum(matrix, input.stamps, |matrix|) && IsMatrix(matrix, |matrix|, |matrix|) && |v| == |matrix|
    && Columns(input.sources, |matrix|) && right == SumVectors(input.sources, |matrix|) && Times(matrix, v) == right
  }

  /** Y v = I + C i, for the matrix and the sources of this step. */
  ghost predicate Coupled(input: SubnetInput, matrix: Matrix, v: Vec, columns: seq<Vec>, i: Vec) {
    && IsSum(matrix, input.stamps, |matrix|) && IsMatrix(matrix, |matrix|, |matrix|) && |v| == |matrix|
    && Columns(input.sources, |matrix|) && |columns| == |i| && Columns(columns, |matrix|)
    && Times(matrix, v) == Plus(SumVectors(input.sources, |matrix|), Combine(columns, i, |matrix|))
  }

  predicate IsSumOf(w: Vec, v: Vec, x: Vec) {
    |v| == |x| && w == Plus(v, x)
  }

  lemma {:induction false} AddCorrection(solve: Solver, input: SubnetInput, matrix: Matrix, v: Vec, right: Vec,
                                         columns: seq<Vec>, i: Vec, w: Vec)
    requires Solves(solve) && Regular(matrix) && Uncoupled(input, matrix, v, right)
    requires |columns| == |i| && Columns(columns, |matrix|)
    requires IsSumOf(w, v, solve(matrix, Combine(columns, i, |matrix|)))
    ensures Coupled(input, matrix, w, columns, i)
  {
    SolvesOne(solve, matrix, Combine(columns, i, |matrix|));
    TimesPlus(matrix, v, solve(matrix, Combine(columns, i, |matrix|)));
  }

  /** The solution of the torn network: every subnet's equations, and those of the tear components. */
  lemma {:induction false} StepSolves(solve: Solver, inputs: seq<SubnetInput>, y: seq<Matrix>, factored: seq<Matrix>,
                                      cols: seq<seq<nat>>, z: Matrix, topo: Topology, inverse: Topology, e: Vec, i: Vec,
                                      v: seq<Vec>, right: seq<Vec>, mapped: seq<Vec>, w: seq<Vec>)
    requires Solves(solve) && IsMatrix(z, |z|, |z|) && SameShape(topo, inverse, |z|) && |e| == |i| == |z|
    requires |inputs| == |y| == |factored| == |topo| == |cols| == |v| == |right| == |mapped| == |w|
    requires forall net :: 0 <= net < |y| ==>
               SubnetOk(solve, y[net], factored[net], topo[net], inverse[net], cols[net], |z|)
    requires forall net :: 0 <= net < |y| ==> Uncoupled(inputs[net], y[net], v[net], right[net])
    requires forall net :: 0 <= net < |y| ==> IsCombination(mapped[net], topo[net], i, |y[net]|)
    requires forall net :: 0 <= net < |y| ==> IsSumOf(w[net], v[net], solve(y[net], mapped[net]))
    requires Fits(topo, v, |z|) && Times(Schur(z, topo, inverse), i) == Minus(e, Transposed(topo, v, |z|))
    ensures forall net :: 0 <= net < |y| ==> Coupled(inputs[net], y[net], w[net], topo[net], i)
    ensures Fits(topo, w, |z|) && Times(z, i) == Minus(e, Transposed(topo, w, |z|))
  {
    hide Solves, Regular, Schur, Transposed, IsTearColumns;
    forall net | 0 <= net < |y| ensures Coupled(inputs[net], y[net], w[net], topo[net], i) {
      AddCorrection(solve, inputs[net], y[net], v[net], right[net], topo[net], i, w[net]);
    }
    var x := seq(|y|, net requires 0 <= net < |y| => solve(y[net], mapped[net]));
    forall net | 0 <= net < |y|
      ensures Corrected(solve, y[net], topo[net], inverse[net], i, x[net]) && |w[net]| == |v[net]|
    {
      assert IsSumOf(w[net], v[net], x[net]);
      assert Uncoupled(inputs[net], y[net], v[net], right[net]);
    }
    TornSolution(solve, y, z, topo, inverse, e, i, v, x, w);
  }

  ghost predicate IsCurrent(solve: Solver, input: SubnetInput, y: Matrix, columns: seq<Vec>, inverse: seq<Vec>) {
    IsSum(y, input.stamps, |y|) && IsInverse(solve, y, columns, inverse)
  }

  /** The tear system for these stamps can be factorised. */
  ghost predicate TearRegular(solve: Solver, inputs: seq<SubnetInput>, z: Matrix, topo: Topology)
    requires IsMatrix(z, |z|, |z|)
  {
    forall y: seq<Matrix>, inverse: Topology :: (
      && |y| == |inputs| && SameShape(topo, inverse, |z|) && |topo| == |inputs|
      && forall net :: 0 <= net < |y| ==> IsCurrent(solve, inputs[net], y[net], topo[net], inverse[net])
    ) ==> Regular(Schur(z, topo, inverse))
  }

  lemma ApplyTearRegular(solve: Solver, inputs: seq<SubnetInput>, y: seq<Matrix>, factored: seq<Matrix>,
                         cols: seq<seq<nat>>, z: Matrix, topo: Topology, inverse: Topology, v: seq<Vec>,
                         right: seq<Vec>)
    requires IsMatrix(z, |z|, |z|) && TearRegular(solve, inputs, z, topo) && SameShape(topo, inverse, |z|)
    requires |inputs| == |y| == |factored| == |topo| == |cols| == |v| == |right|
    requires forall net :: 0 <= net < |y| ==>
               SubnetOk(solve, y[net], factored[net], topo[net], inverse[net], cols[net], |z|)
    requires forall net :: 0 <= net < |y| ==> Uncoupled(inputs[net], y[net], v[net], right[net])
    ensures Regular(Schur(z, topo, inverse))
  {
    assert |inverse| == |topo|;
    hide Schur, Regular, IsInverse, IsTearColumns, SameShape;
    forall net | 0 <= net < |y| ensures IsCurrent(solve, inputs[net], y[net], topo[net], inverse[net]) {
      assert Uncoupled(inputs[net], y[net], v[net], right[net]);
    }
  }

  /** All components are asked, even after one has reported a change. */
  method AnyChanged(flags: seq<bool>) returns (changed: bool)
    ensures changed <==> true in flags
  {
    changed := false;
    for k := 0 to |flags|
      invariant changed <==> true in flags[..k]
    {
      assert flags[..k + 1] == flags[..k] + [flags[k]];
      if flags[k] { changed := true; }
    }
    assert flags[..|flags|] == flags;
  }

  class DiakopticsSolver {
    const solve: Solver
    const tearTopology: Topology
    const tearImpedance: Matrix
    const tearColumns: seq<seq<nat>>
    var systemMatrix: seq<Matrix>
    /** What the linear solver of each subnet has factorised. */
    var factored: seq<Matrix>
    var inverseTopology: Topology
    var tearSchur: Matrix
    /** What the LU decomposition of the tear system was computed from. */
    var totalTearImpedance: Matrix
    var needsRebuild: bool
    var rightSide: seq<Vec>
    var origLeftSide: seq<Vec>
    var mappedTearCurrents: seq<Vec>
    var tearVoltages: Vec
    var tearCurrents: Vec
    var leftSide: seq<Vec>

    ghost predicate Shaped()
      reads this
    {
      && |systemMatrix| == |factored| == |tearTopology| == |tearColumns| == |inverseTopology|
      && |rightSide| == |origLeftSide| == |mappedTearCurrents| == |leftSide| == |tearTopology|
      && IsMatrix(tearImpedance, |tearImpedance|, |tearImpedance|)
      && |tearCurrents| == |tearVoltages| == |tearImpedance|
      && SameShape(tearTopology, inverseTopology, |tearImpedance|)
      && forall net :: 0 <= net < |systemMatrix| ==>
           BlocksOk(|systemMatrix[net]|, rightSide[net], origLeftSide[net], mappedTearCurrents[net], leftSide[net])
    }

    static predicate BlocksOk(n: nat, a: Vec, b: Vec, c: Vec, d: Vec) {
      |a| == |b| == |c| == |d| == n
    }

    /** Every block of Y^-1 C belongs to the current matrix of its subnet, and so does the Schur
        complement unless its rebuild has been requested. */
    ghost predicate Valid()
      reads this
    {
      && Solves(solve) && Shaped()
      && (forall net :: 0 <= net < |systemMatrix| ==>
            SubnetOk(solve, systemMatrix[net], factored[net], tearTopology[net], inverseTopology[net], tearColumns[net],
                     |tearImpedance|))
      && (!needsRebuild ==> tearSchur == Schur(tearImpedance, tearTopology, inverseTopology))
      && totalTearImpedance == tearSchur
    }

    /** initMatrices: stamps, factorises and solves every subnet. */
    constructor (solve: Solver, tearTopology: Topology, tearImpedance: Matrix, stamps: seq<seq<Matrix>>,
                 sizes: seq<nat>)
      requires Solves(solve) && IsMatrix(tearImpedance, |tearImpedance|, |tearImpedance|) &&
               |tearTopology| == |stamps| == |sizes|
      requires forall net :: 0 <= net < |stamps| ==>
                 Stamped(stamps[net], tearTopology[net], sizes[net], |tearImpedance|)
      ensures Valid() && !needsRebuild
      ensures this.solve == solve && this.tearTopology == tearTopology && this.tearImpedance == tearImpedance
      ensures |systemMatrix| == |stamps| && forall net :: 0 <= net < |stamps| ==>
                IsSum(systemMatrix[net], stamps[net], sizes[net])
    {
      var matrices, inverse, cols := InitSubnets(solve, tearTopology, stamps, sizes, |tearImpedance|);
      this.solve := solve;
      this.tearTopology := tearTopology;
      this.tearImpedance := tearImpedance;
      tearColumns := cols;
      systemMatrix, factored, inverseTopology := matrices, matrices, inverse;
      InitShape(tearTopology, inverse, matrices, |tearImpedance|);
      tearSchur := Schur(tearImpedance, tearTopology, inverse);
      totalTearImpedance := Schur(tearImpedance, tearTopology, inverse);
      needsRebuild := false;
      var zeros := seq(|sizes|, net requires 0 <= net < |sizes| => Zeros(sizes[net]));
      rightSide, origLeftSide, mappedTearCurrents, leftSide := zeros, zeros, zeros, zeros;
      tearVoltages, tearCurrents := Zeros(|tearImpedance|), Zeros(|tearImpedance|);
    }

    /** SubnetSolveTask::recomputeSubnetMatrix. */
    method RecomputeSubnetMatrix(net: nat, stamps: seq<Matrix>)
      requires Valid() && net < |systemMatrix|
      requires Square(stamps, |systemMatrix[net]|) && Regular(SumMatrices(stamps, |systemMatrix[net]|))
      modifies `systemMatrix, `factored, `inverseTopology, `needsRebuild
      ensures Valid()
      ensures systemMatrix == old(systemMatrix)[net := SumMatrices(stamps, |old(systemMatrix)[net]|)]
    {
      hide Regular, Solves, Schur, SumMatrices, Times, SubnetOk, Resolved, IsTearColumns, IsInverse;
      var y := AddMatrices(stamps, |systemMatrix[net]|);
      SubnetShape(solve, systemMatrix[net], factored[net], tearTopology[net], inverseTopology[net], tearColumns[net],
                  |tearImpedance|);
      var inverse := SolveColumns(solve, y, tearTopology[net], inverseTopology[net], tearColumns[net]);
      SubnetRecomputed(solve, systemMatrix[net], factored[net], y, tearTopology[net], inverseTopology[net], inverse,
                       tearColumns[net], |tearImpedance|);
      systemMatrix, factored := systemMatrix[net := y], factored[net := y];
      if |tearColumns[net]| == 0 {
        return;
      }
      inverseTopology := inverseTopology[net := inverse];
      needsRebuild := true;
    }

    /** SubnetSolveTask::execute: Y v' = I. The components' flags report every change. */
    method SubnetSolve(net: nat, sources: seq<Vec>, changed: seq<bool>, stamps: seq<Matrix>)
      requires Valid() && net < |systemMatrix| && Columns(sources, |systemMatrix[net]|)
      requires Square(stamps, |systemMatrix[net]|) && Regular(SumMatrices(stamps, |systemMatrix[net]|))
      requires true !in changed ==> systemMatrix[net] == SumMatrices(stamps, |systemMatrix[net]|)
      modifies `systemMatrix, `factored, `inverseTopology, `needsRebuild, `rightSide, `origLeftSide
      ensures Valid()
      ensures systemMatrix == old(systemMatrix)[net := SumMatrices(stamps, |old(systemMatrix)[net]|)]
      ensures rightSide == old(rightSide)[net := SumVectors(sources, |old(systemMatrix)[net]|)]
      ensures |origLeftSide| == |old(origLeftSide)| && origLeftSide == old(origLeftSide)[net := origLeftSide[net]]
      ensures Times(systemMatrix[net], origLeftSide[net]) == rightSide[net]
    {
      var block := AddVectors(sources, |systemMatrix[net]|);
      rightSide := rightSide[net := block];
      var any := AnyChanged(changed);
      if any {
        RecomputeSubnetMatrix(net, stamps);
      }
      assert SubnetOk(solve, systemMatrix[net], factored[net], tearTopology[net], inverseTopology[net],
                      tearColumns[net], |tearImpedance|);
      origLeftSide := origLeftSide[net := solve(factored[net], block)];
    }

    /** The rebuild of the Schur complement that a recomputed subnet has requested. */
    method RebuildSchur()
      requires Valid()
      modifies `tearSchur, `totalTearImpedance, `needsRebuild
      ensures Valid() && !needsRebuild && totalTearImpedance == Schur(tearImpedance, tearTopology, inverseTopology)
    {
      hide Schur, SubnetOk, Solves, SameShape;
      if needsRebuild {
        tearSchur := Schur(tearImpedance, tearTopology, inverseTopology);
        totalTearImpedance := tearSchur;
        needsRebuild := false;
      }
    }

    /** PreSolveTask::execute: (Z + C^T Y^-1 C) i = E - C^T v', for the current Y. */
    method PreSolve(sources: seq<Vec>)
      requires Valid() && Columns(sources, |tearImpedance|)
      requires Regular(Schur(tearImpedance, tearTopology, inverseTopology))
      modifies `tearSchur, `totalTearImpedance, `needsRebuild, `tearVoltages, `tearCurrents, `mappedTearCurrents,
               `leftSide
      ensures Valid() && !needsRebuild && leftSide == origLeftSide
      ensures Fits(tearTopology, origLeftSide, |tearImpedance|)
      ensures Times(Schur(tearImpedance, tearTopology, inverseTopology), tearCurrents) ==
              Minus(SumVectors(sources, |tearImpedance|), Transposed(tearTopology, origLeftSide, |tearImpedance|))
      ensures forall net :: 0 <= net < |tearTopology| ==>
                IsCombination(mappedTearCurrents[net], tearTopology[net], tearCurrents, |systemMatrix[net]|)
    {
      hide Regular, Schur, Transposed, Combine, SubnetOk, Solves, SameShape, SumVectors;
      RebuildSchur();
      TopologyFits(solve, systemMatrix, factored, tearTopology, inverseTopology, tearColumns, origLeftSide,
                   |tearImpedance|);
      tearVoltages := AddVectors(sources, |tearImpedance|);
      tearVoltages := Minus(tearVoltages, Transposed(tearTopology, origLeftSide, |tearImpedance|));
      SolvesOne(solve, totalTearImpedance, tearVoltages);
      tearCurrents := solve(totalTearImpedance, tearVoltages);
      mappedTearCurrents := MapCurrents(tearTopology, tearCurrents, origLeftSide);
      leftSide := origLeftSide;
    }

    /** SolveTask::execute: v = v' + x, where Y x = C i. */
    method Solve(net: nat)
      requires Valid() && net < |systemMatrix|
      modifies `leftSide
      ensures Valid()
      ensures |solve(systemMatrix[net], mappedTearCurrents[net])| == |old(leftSide)[net]|
      ensures leftSide == old(leftSide)[net := Plus(old(leftSide)[net],
                                                    solve(systemMatrix[net], mappedTearCurrents[net]))]
    {
      assert SubnetOk(solve, systemMatrix[net], factored[net], tearTopology[net], inverseTopology[net],
                      tearColumns[net], |tearImpedance|);
      leftSide := leftSide[net := Plus(leftSide[net], solve(factored[net], mappedTearCurrents[net]))];
    }

    /** All SubnetSolveTasks. */
    method SolveSubnets(inputs: seq<SubnetInput>)
      requires Valid() && |inputs| == |systemMatrix|
      requires forall net :: 0 <= net < |inputs| ==> InputOk(inputs[net], systemMatrix[net])
      modifies `systemMatrix, `factored, `inverseTopology, `needsRebuild, `rightSide, `origLeftSide
      ensures Valid()
      ensures forall net :: 0 <= net < |inputs| ==>
                Uncoupled(inputs[net], systemMatrix[net], origLeftSide[net], rightSide[net])
    {
      hide Regular, Solves, Times, SumVectors, SumMatrices, Schur, SubnetOk, SameShape;
      for net := 0 to |systemMatrix|
        invariant Valid() && |systemMatrix| == |inputs|
        invariant forall m :: 0 <= m < net ==> Uncoupled(inputs[m], systemMatrix[m], origLeftSide[m], rightSide[m])
        invariant forall m :: net <= m < |inputs| ==> InputOk(inputs[m], systemMatrix[m])
      {
        SubnetSolve(net, inputs[net].sources, inputs[net].changed, inputs[net].stamps);
      }
    }

    /** All SolveTasks. */
    method SolveAll()
      requires Valid() && leftSide == origLeftSide
      modifies `leftSide
      ensures Valid()
      ensures forall net :: 0 <= net < |leftSide| ==>
                IsSumOf(leftSide[net], origLeftSide[net], solve(systemMatrix[net], mappedTearCurrents[net]))
    {
      hide Regular, Solves, Schur, SubnetOk, SameShape;
      for net := 0 to |systemMatrix|
        invariant Valid() && |systemMatrix| == |leftSide|
        invariant forall m :: 0 <= m < net ==>
                    IsSumOf(leftSide[m], origLeftSide[m], solve(systemMatrix[m], mappedTearCurrents[m]))
        invariant forall m :: net <= m < |leftSide| ==> leftSide[m] == origLeftSide[m]
      {
        Solve(net);
      }
    }

    /** One time step, with the matrices and sources the components have now: the subnets' voltages
        v and the tear currents i solve Y v = I + C i and Z i = E - C^T v. */
    method Step(inputs: seq<SubnetInput>, tearSources: seq<Vec>)
      requires Valid() && |inputs| == |systemMatrix| && Columns(tearSources, |tearImpedance|)
      requires forall net :: 0 <= net < |inputs| ==> InputOk(inputs[net], systemMatrix[net])
      requires TearRegular(solve, inputs, tearImpedance, tearTopology)
      modifies this
      ensures Valid() && !needsRebuild
      ensures forall net :: 0 <= net < |inputs| ==>
                Coupled(inputs[net], systemMatrix[net], leftSide[net], tearTopology[net], tearCurrents)
      ensures Fits(tearTopology, leftSide, |tearImpedance|)
      ensures Times(tearImpedance, tearCurrents) ==
              Minus(SumVectors(tearSources, |tearImpedance|), Transposed(tearTopology, leftSide, |tearImpedance|))
    {
      hide Regular, Solves, SumVectors, SumMatrices, Schur, SubnetOk, SameShape, Transposed, Uncoupled, Coupled,
           Combine, InputOk;
      SolveSubnets(inputs);
      ApplyTearRegular(solve, inputs, systemMatrix, factored, tearColumns, tearImpedance, tearTopology, inverseTopology,
                       origLeftSide, rightSide);
      PreSolve(tearSources);
      SolveAll();
      StepSolves(solve, inputs, systemMatrix, factored, tearColumns, tearImpedance, tearTopology, inverseTopology,
                 SumVectors(tearSources, |tearImpedance|), tearCurrents, origLeftSide, rightSide, mappedTearCurrents,
                     leftSide);
    }
  }
}
