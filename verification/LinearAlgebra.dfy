/** Vectors and matrices of exact reals, the linearity of products and of combinations of columns, and
    the contract of a direct linear solver: it returns a solution of every regular system. */
module LinearAlgebra {

  type Vec = seq<real>

  /** A matrix as the list of its rows. */
  type Matrix = seq<Vec>

  predicate IsMatrix(m: Matrix, rows: nat, cols: nat) {
    |m| == rows && forall r :: 0 <= r < |m| ==> |m[r]| == cols
  }

  function Zeros(n: nat): (r: Vec)
    ensures |r| == n && forall k :: 0 <= k < n ==> r[k] == 0.0
  {
    seq(n, k => 0.0)
  }

  function Plus(a: Vec, b: Vec): (r: Vec)
    requires |a| == |b|
    ensures |r| == |a| && forall k :: 0 <= k < |r| ==> r[k] == a[k] + b[k]
  {
    seq(|a|, k requires 0 <= k < |a| => a[k] + b[k])
  }

  function Minus(a: Vec, b: Vec): (r: Vec)
    requires |a| == |b|
    ensures |r| == |a| && forall k :: 0 <= k < |r| ==> r[k] == a[k] - b[k]
  {
    seq(|a|, k requires 0 <= k < |a| => a[k] - b[k])
  }

  function Scale(t: real, a: Vec): (r: Vec)
    ensures |r| == |a|
  {
    seq(|a|, k requires 0 <= k < |a| => t * a[k])
  }

  function Dot(a: Vec, b: Vec): real
    requires |a| == |b|
  {
    if a == [] then 0.0 else a[0] * b[0] + Dot(a[1..], b[1..])
  }

  function Times(m: Matrix, x: Vec): (r: Vec)
    requires IsMatrix(m, |m|, |x|)
    ensures |r| == |m| && forall k :: 0 <= k < |r| ==> r[k] == Dot(m[k], x)
  {
    seq(|m|, k requires 0 <= k < |m| => Dot(m[k], x))
  }

  lemma {:induction false} DotPlus(a: Vec, b: Vec, c: Vec)
    requires |a| == |b| == |c|
    ensures Dot(a, Plus(b, c)) == Dot(a, b) + Dot(a, c)
  {
    if a != [] {
      assert Plus(b, c)[1..] == Plus(b[1..], c[1..]);
      DotPlus(a[1..], b[1..], c[1..]);
      Spread(a[0], b[0], c[0]);
    }
  }

  lemma Spread(x: real, y: real, z: real)
    ensures x * (y + z) == x * y + x * z && (y + z) * x == y * x + z * x
  {
  }

  lemma {:induction false} DotCommutes(a: Vec, b: Vec)
    requires |a| == |b|
    ensures Dot(a, b) == Dot(b, a)
  {
    if a != [] { DotCommutes(a[1..], b[1..]); }
  }

  lemma ScaleTail(t: real, b: Vec)
    requires b != []
    ensures Scale(t, b)[0] == t * b[0] && Scale(t, b)[1..] == Scale(t, b[1..])
  {
    forall k | 0 <= k < |b| - 1 ensures Scale(t, b)[1..][k] == Scale(t, b[1..])[k] {
      assert Scale(t, b)[k + 1] == t * b[k + 1] && b[1..][k] == b[k + 1];
    }
  }

  lemma DotPlusLeft(a: Vec, b: Vec, c: Vec)
    requires |a| == |b| == |c|
    ensures Dot(Plus(a, b), c) == Dot(a, c) + Dot(b, c)
  {
    DotCommutes(Plus(a, b), c);
    DotCommutes(a, c);
    DotCommutes(b, c);
    DotPlus(c, a, b);
  }

  lemma {:induction false} DotScale(a: Vec, t: real, b: Vec)
    requires |a| == |b|
    ensures Dot(a, Scale(t, b)) == t * Dot(a, b)
  {
    if a != [] {
      ScaleTail(t, b);
      DotScale(a[1..], t, b[1..]);
      Factor(a[0], t, b[0], Dot(a[1..], b[1..]));
    }
  }

  lemma Factor(x: real, t: real, y: real, d: real)
    ensures x * (t * y) + t * d == t * (x * y + d)
  {
    assert x * (t * y) == t * (x * y);
  }

  lemma {:induction false} DotZeros(a: Vec)
    ensures Dot(a, Zeros(|a|)) == 0.0
  {
    if a != [] {
      assert Zeros(|a|)[1..] == Zeros(|a[1..]|);
      DotZeros(a[1..]);
    }
  }

  lemma TimesPlus(m: Matrix, x: Vec, y: Vec)
    requires |x| == |y| && IsMatrix(m, |m|, |x|)
    ensures Times(m, Plus(x, y)) == Plus(Times(m, x), Times(m, y))
  {
    forall r | 0 <= r < |m| ensures Dot(m[r], Plus(x, y)) == Dot(m[r], x) + Dot(m[r], y) { DotPlus(m[r], x, y); }
  }

  lemma TimesZeros(m: Matrix, n: nat)
    requires IsMatrix(m, |m|, n)
    ensures Times(m, Zeros(n)) == Zeros(|m|)
  {
    forall r | 0 <= r < |m| ensures Dot(m[r], Zeros(n)) == 0.0 { DotZeros(m[r]); }
  }

  lemma TimesScale(m: Matrix, t: real, x: Vec)
    requires IsMatrix(m, |m|, |x|)
    ensures Times(m, Scale(t, x)) == Scale(t, Times(m, x))
  {
    forall r | 0 <= r < |m| ensures Times(m, Scale(t, x))[r] == Scale(t, Times(m, x))[r] {
      DotScale(m[r], t, x);
      assert Times(m, x)[r] == Dot(m[r], x);
    }
  }

  // ---------------------------------------------------------------- matrices given by columns

  predicate Columns(cols: seq<Vec>, n: nat) {
    forall c :: 0 <= c < |cols| ==> |cols[c]| == n
  }

  /** The matrix with these columns times i. */
  function Combine(cols: seq<Vec>, i: Vec, n: nat): (r: Vec)
    requires |cols| == |i| && Columns(cols, n)
    ensures |r| == n
  {
    if cols == [] then Zeros(n) else Plus(Scale(i[0], cols[0]), Combine(cols[1..], i[1..], n))
  }

  /** If m maps each column of xs to that of ys, it maps the combinations to each other. */
  lemma {:induction false} TimesCombine(m: Matrix, xs: seq<Vec>, ys: seq<Vec>, i: Vec)
    requires |xs| == |ys| == |i| && Columns(xs, |m|) && Columns(ys, |m|) && IsMatrix(m, |m|, |m|)
    requires forall c :: 0 <= c < |xs| ==> Times(m, xs[c]) == ys[c]
    ensures Times(m, Combine(xs, i, |m|)) == Combine(ys, i, |m|)
  {
    if xs == [] {
      TimesZeros(m, |m|);
    } else {
      TimesCombine(m, xs[1..], ys[1..], i[1..]);
      TimesPlus(m, Scale(i[0], xs[0]), Combine(xs[1..], i[1..], |m|));
      TimesScale(m, i[0], xs[0]);
    }
  }

  /** The transposed matrix with these columns times a. */
  function Dots(cols: seq<Vec>, a: Vec): (r: Vec)
    requires Columns(cols, |a|)
    ensures |r| == |cols| && forall c :: 0 <= c < |r| ==> r[c] == Dot(a, cols[c])
  {
    seq(|cols|, c requires 0 <= c < |cols| => Dot(a, cols[c]))
  }

  lemma {:induction false} DotCombine(a: Vec, cols: seq<Vec>, i: Vec)
    requires |cols| == |i| && Columns(cols, |a|)
    ensures Dot(a, Combine(cols, i, |a|)) == Dot(Dots(cols, a), i)
  {
    if cols == [] {
      DotZeros(a);
    } else {
      var rest := Combine(cols[1..], i[1..], |a|);
      DotPlus(a, Scale(i[0], cols[0]), rest);
      DotScale(a, i[0], cols[0]);
      DotCombine(a, cols[1..], i[1..]);
      assert Dots(cols, a)[1..] == Dots(cols[1..], a);
    }
  }

  // ---------------------------------------------------------------- solving

  /** A square matrix that maps no two vectors to the same. */
  ghost predicate Regular(m: Matrix) {
    IsMatrix(m, |m|, |m|) && forall x: Vec, y: Vec :: |x| == |m| && |y| == |m| && Times(m, x) == Times(m, y) ==> x == y
  }

  /** A factorisation followed by a solve. */
  type Solver = (Matrix, Vec) -> Vec

  /** The contract: for a regular matrix, the solver returns the solution. */
  ghost predicate Solves(solve: Solver) {
    forall m: Matrix, b: Vec :: Regular(m) && |b| == |m| ==> |solve(m, b)| == |m| && Times(m, solve(m, b)) == b
  }

  lemma {:induction false} SolutionUnique(solve: Solver, m: Matrix, b: Vec, x: Vec)
    requires Solves(solve) && Regular(m) && |b| == |m| && |x| == |m| && Times(m, x) == b
    ensures solve(m, b) == x
  {
    assert Times(m, solve(m, b)) == b;
  }

  lemma SolvesOne(solve: Solver, m: Matrix, b: Vec)
    requires Solves(solve) && Regular(m) && |b| == |m|
    ensures |solve(m, b)| == |m| && Times(m, solve(m, b)) == b
  {
  }

  lemma {:induction false} SolveZeros(solve: Solver, m: Matrix)
    requires Solves(solve) && Regular(m)
    ensures solve(m, Zeros(|m|)) == Zeros(|m|)
  {
    TimesZeros(m, |m|);
    SolutionUnique(solve, m, Zeros(|m|), Zeros(|m|));
  }
}
