module PackedNetworks {

  // What the packed vectors and the stamps mean for a network: where an element stands, and which
  // currents a stamped component draws.

  import opened ComplexNumbers
  import opened SparseMatrices
  import opened Packing

  // ---------------------------------------------------------------- vectors

  /** Where setVectorElement writes: harmonic after harmonic, in each the real parts before the
      imaginary ones. */
  lemma {:induction false} SetElementPlaces(x: seq<real>, row: nat, value: Complex, maxFreq: nat, c: nat, f: nat,
                                            i: nat)
    requires maxFreq >= 1 && |x| == maxFreq * (2 * c) && row < c && f < maxFreq && i == f * (2 * c) + row
    ensures Inside(|x|, row, maxFreq, f) && i + c < |x|
    ensures SetElement(x, row, value, maxFreq, f) == x[i := value.re][i + c := value.im]
  {
    ElementInside(x, row, maxFreq, c, f);
    SetAt(x, row, value, maxFreq, c, f, i);
  }

  lemma SetAt(x: seq<real>, row: nat, value: Complex, maxFreq: nat, c: nat, f: nat, i: nat)
    requires Inside(|x|, row, maxFreq, f) && HarmonicOffset(|x|, maxFreq) / 2 == c > 0
    requires i == row + HarmonicOffset(|x|, maxFreq) * f
    ensures i + c < |x| && SetElement(x, row, value, maxFreq, f) == x[i := value.re][i + c := value.im]
  {
    hide HarmonicOffset;
  }

  function Replaced(v: (nat, nat) -> Complex, f0: nat, row: nat, value: Complex): (nat, nat) -> Complex {
    (f: nat, k: nat) => if f == f0 && k == row then value else v(f, k)
  }

  /** Setting an element of a packed vector sets that element of the complex one. */
  lemma {:induction false} PackedSet(x: seq<real>, maxFreq: nat, c: nat, v: (nat, nat) -> Complex, row: nat,
                                     value: Complex, f: nat)
    requires PackedVector(x, maxFreq, c, v) && row < c && f < maxFreq
    ensures Inside(|x|, row, maxFreq, f)
    ensures PackedVector(SetElement(x, row, value, maxFreq, f), maxFreq, c, Replaced(v, f, row, value))
  {
    SetElementPlaces(x, row, value, maxFreq, c, f, Index(c, f, row));
    var r := SetElement(x, row, value, maxFreq, f);
    hide SetElement;
    forall g: nat, k: nat | g < maxFreq && k < c ensures HasElement(r, c, g, k, Replaced(v, f, row, value)(g, k)) {
      assert HasElement(x, c, g, k, v(g, k));
      IndexUnique(c, f, row, g, k);
      IndexUnique(c, f, row, g, k + c);
      IndexUnique(c, f, row + c, g, k);
      IndexUnique(c, f, row + c, g, k + c);
    }
  }

  /** complexFromVectorElement reads the complex vector. */
  lemma {:induction false} PackedGet(x: seq<real>, maxFreq: nat, c: nat, v: (nat, nat) -> Complex, row: nat, f: nat)
    requires PackedVector(x, maxFreq, c, v) && row < c && f < maxFreq
    ensures Inside(|x|, row, maxFreq, f) && GetElement(x, row, maxFreq, f) == v(f, row)
  {
    ElementInside(x, row, maxFreq, c, f);
    assert HasElement(x, c, f, row, v(f, row));
  }

  /** The product of the real matrix with the packed vector. */
  function RealProduct(m: Sparse, x: seq<real>): (r: seq<real>)
    ensures |r| == |x|
  {
    seq(|x|, i requires 0 <= i < |x| => RealRow(m, i, x, 0, |x|))
  }

  /** Read back element by element, it is the complex nodal product. */
  lemma {:induction false} ProductRead(m: Sparse, maxFreq: nat, c: nat, y: Nodal, x: seq<real>,
                                       v: (nat, nat) -> Complex, f: nat, row: nat)
    requires Packed(m, maxFreq, c, y) && PackedVector(x, maxFreq, c, v) && f < maxFreq && row < c
    ensures Inside(|x|, row, maxFreq, f)
    ensures GetElement(RealProduct(m, x), row, maxFreq, f) == ComplexRow(y, f, row, v, c)
  {
    ElementInside(x, row, maxFreq, c, f);
    PackedProduct(m, maxFreq, c, y, x, v, f, row);
    hide RealRow, ComplexRow, Packed, PackedVector, HarmonicOffset, Index;
    ReadAt(RealProduct(m, x), row, maxFreq, c, f, Index(c, f, row));
  }

  lemma ReadAt(x: seq<real>, row: nat, maxFreq: nat, c: nat, f: nat, i: nat)
    requires Inside(|x|, row, maxFreq, f) && i + c < |x|
    requires row + HarmonicOffset(|x|, maxFreq) * f == i && HarmonicOffset(|x|, maxFreq) / 2 == c
    ensures GetElement(x, row, maxFreq, f) == Complex(x[i], x[i + c])
  {
  }

  /** Where addToMatrixElement adds: [[re, -im], [im, re]]. */
  lemma {:induction false} AddPackedPlaces(m: Sparse, maxFreq: nat, c: nat, row: nat, col: nat, value: Complex, f: nat,
                                           i: nat, j: nat)
    requires maxFreq >= 1
    ensures var a, b := f * (2 * c) + row, f * (2 * c) + col;
            Coefficient(AddPacked(m, maxFreq * (2 * c), row, col, value, maxFreq, f), i, j) ==
            Coefficient(m, i, j) + (if i == a && j == b then value.re else 0.0) +
              (if i == a + c && j == b + c then value.re else 0.0) +
              (if i == a && j == b + c then -value.im else 0.0) + (if i == a + c && j == b then value.im else 0.0)
  {
    Offsets(maxFreq, c, f, row);
    Offsets(maxFreq, c, f, col);
    FourAdds(m, Index(c, f, row), Index(c, f, col), c, value, i, j);
  }

  // ---------------------------------------------------------------- the currents of a stamped component

  /** The voltage across phase q of a component; a grounded terminal is at zero. */
  function Across(v: (nat, nat) -> Complex, f: nat, u1: bool, u2: bool, node1: nat, node2: nat, q: nat): Complex {
    Sub(if u1 then v(f, node1 + q) else ZERO, if u2 then v(f, node2 + q) else ZERO)
  }

  /** The current through phase p of a component with admittances a, from the first n phases. */
  function Current(a: Block, p: nat, v: (nat, nat) -> Complex, f: nat, u1: bool, u2: bool, node1: nat, node2: nat,
                   n: nat): Complex {
    if n == 0 then ZERO
    else Add(Current(a, p, v, f, u1, u2, node1, node2, n - 1),
             Mul(a(p, n - 1), Across(v, f, u1, u2, node1, node2, n - 1)))
  }

  /** How many columns of row p have been stamped before entry (i, j). */
  function Done(n: nat, i: nat, j: nat, p: nat): nat { if p < i then n else if p == i then j else 0 }

  /** What flows out of row r of the network: the current at terminal 1, its negative at terminal 2. */
  function Drawn(a: Block, v: (nat, nat) -> Complex, f: nat, n: nat, i: nat, j: nat, u1: bool, u2: bool, node1: nat,
                 node2: nat, r: nat): Complex {
    Sub(if u1 && node1 <= r < node1 + n then Current(a, r - node1, v, f, u1, u2, node1, node2, Done(n, i, j, r - node1))
        else ZERO,
        if u2 && node2 <= r < node2 + n then Current(a, r - node2, v, f, u1, u2, node1, node2, Done(n, i, j, r - node2))
        else ZERO)
  }

  lemma {:induction false} RowAlike(y: Nodal, y': Nodal, f: nat, r: nat, v: (nat, nat) -> Complex, n: nat)
    requires forall k: nat :: y(f, r, k) == y'(f, r, k)
    ensures ComplexRow(y, f, r, v, n) == ComplexRow(y', f, r, v, n)
  {
    if n > 0 { RowAlike(y, y', f, r, v, n - 1); }
  }

  lemma {:induction false} RowAdd(y: Nodal, f: nat, row: nat, col: nat, value: Complex, r: nat,
                                  v: (nat, nat) -> Complex, n: nat)
    ensures ComplexRow(NodalAdd(y, f, row, col, value), f, r, v, n) ==
            Add(ComplexRow(y, f, r, v, n), if r == row && col < n then Mul(value, v(f, col)) else ZERO)
  {
    if n > 0 {
      RowAdd(y, f, row, col, value, r, v, n - 1);
      NodalAddIs(y, f, row, col, value, f, r, n - 1);
      Distributes(v(f, n - 1), y(f, r, n - 1), value);
      hide NodalAdd, Mul;
    }
  }

  lemma {:induction false} RowFour(y: Nodal, f: nat, row1: nat, col1: nat, row2: nat, col2: nat, value: Complex, r: nat,
                                   v: (nat, nat) -> Complex, n: nat)
    requires col1 < n && col2 < n
    ensures var current := Mul(value, Sub(v(f, col1), v(f, col2)));
            ComplexRow(FourTimes(y, f, row1, col1, row2, col2, value), f, r, v, n) ==
            Add(ComplexRow(y, f, r, v, n),
                Sub(if r == row1 then current else ZERO, if r == row2 then current else ZERO))
  {
    var y1 := NodalAdd(y, f, row1, col1, value);
    var y2 := NodalAdd(y1, f, row1, col2, Neg(value));
    var y3 := NodalAdd(y2, f, row2, col1, Neg(value));
    RowAdd(y, f, row1, col1, value, r, v, n);
    RowAdd(y1, f, row1, col2, Neg(value), r, v, n);
    RowAdd(y2, f, row2, col1, Neg(value), r, v, n);
    RowAdd(y3, f, row2, col2, value, r, v, n);
    MulNeg(v(f, col1), value);
    MulNeg(v(f, col2), value);
    MulDifference(value, v(f, col1), v(f, col2));
    hide NodalAdd, Mul, ComplexRow;
  }

  lemma MulDifference(x: Complex, y: Complex, z: Complex)
    ensures Mul(x, Sub(y, z)) == Sub(Mul(x, y), Mul(x, z))
    ensures Sub(y, ZERO) == y && Sub(ZERO, z) == Neg(z) && Mul(x, Neg(z)) == Neg(Mul(x, z))
  {
  }

  /** One more entry of the block. */
  lemma {:induction false} DrawnNext(a: Block, v: (nat, nat) -> Complex, f: nat, n: nat, i: nat, j: nat, u1: bool,
                                     u2: bool, node1: nat, node2: nat, r: nat)
    requires i < n && j < n
    ensures var current := Mul(a(i, j), Across(v, f, u1, u2, node1, node2, j));
            Drawn(a, v, f, n, i, j + 1, u1, u2, node1, node2, r) ==
            Add(Drawn(a, v, f, n, i, j, u1, u2, node1, node2, r),
                Sub(if u1 && r == node1 + i then current else ZERO, if u2 && r == node2 + i then current else ZERO))
  {
    hide Mul, Across;
  }

  lemma {:induction false} DrawnRow(a: Block, v: (nat, nat) -> Complex, f: nat, n: nat, i: nat, u1: bool, u2: bool,
                                    node1: nat, node2: nat, r: nat)
    ensures Drawn(a, v, f, n, i, n, u1, u2, node1, node2, r) == Drawn(a, v, f, n, i + 1, 0, u1, u2, node1, node2, r)
  {
    hide Mul, Across;
  }

  /** With the stamp of a block, the rows of the network draw the currents of a component between the
      two nodes, in each case of grounded terminals; so they do at every point of the loops, for the
      entries stamped so far. */
  lemma {:induction false} StampDraws(y: Nodal, f: nat, a: Block, n: nat, i: nat, j: nat, u1: bool, u2: bool,
                                      node1: nat, node2: nat, v: (nat, nat) -> Complex, r: nat, c: nat)
    requires Placed(n, u1, u2, node1, node2, c) && j <= n && (i < n || (i == n && j == 0))
    ensures ComplexRow(Stamped(y, f, a, n, i, j, u1, u2, node1, node2), f, r, v, c) ==
            Add(ComplexRow(y, f, r, v, c), Drawn(a, v, f, n, i, j, u1, u2, node1, node2, r))
    decreases i, j
  {
    hide Stamped, FourTimes, NodalAdd, ComplexRow, Drawn, Mul, Across;
    var now := Stamped(y, f, a, n, i, j, u1, u2, node1, node2);
    if j > 0 {
      StampDraws(y, f, a, n, i, j - 1, u1, u2, node1, node2, v, r, c);
      EntryDraws(y, f, a, n, i, j - 1, u1, u2, node1, node2, v, r, c);
      DrawnNext(a, v, f, n, i, j - 1, u1, u2, node1, node2, r);
    } else if i > 0 {
      StampDraws(y, f, a, n, i - 1, n, u1, u2, node1, node2, v, r, c);
      DrawnRow(a, v, f, n, i - 1, u1, u2, node1, node2, r);
      forall k: nat { RowNext(y, f, a, n, i - 1, u1, u2, node1, node2, f, r, k); }
      RowAlike(Stamped(y, f, a, n, i - 1, n, u1, u2, node1, node2), now, f, r, v, c);
    } else {
      forall k: nat { NothingStamped(y, f, a, n, u1, u2, node1, node2, f, r, k); }
      RowAlike(now, y, f, r, v, c);
      NothingDrawn(a, v, f, n, u1, u2, node1, node2, r);
    }
  }

  lemma NothingDrawn(a: Block, v: (nat, nat) -> Complex, f: nat, n: nat, u1: bool, u2: bool, node1: nat, node2: nat,
                     r: nat)
    ensures Drawn(a, v, f, n, 0, 0, u1, u2, node1, node2, r) == ZERO
  {
  }

  lemma {:induction false} EntryDraws(y: Nodal, f: nat, a: Block, n: nat, i: nat, j: nat, u1: bool, u2: bool,
                                      node1: nat, node2: nat, v: (nat, nat) -> Complex, r: nat, c: nat)
    requires Placed(n, u1, u2, node1, node2, c) && i < n && j < n
    ensures var current := Mul(a(i, j), Across(v, f, u1, u2, node1, node2, j));
            ComplexRow(Stamped(y, f, a, n, i, j + 1, u1, u2, node1, node2), f, r, v, c) ==
            Add(ComplexRow(Stamped(y, f, a, n, i, j, u1, u2, node1, node2), f, r, v, c),
                Sub(if u1 && r == node1 + i then current else ZERO, if u2 && r == node2 + i then current else ZERO))
  {
    hide Stamped, FourTimes, NodalAdd, ComplexRow, Mul;
    var before, after := Stamped(y, f, a, n, i, j, u1, u2, node1, node2),
        Stamped(y, f, a, n, i, j + 1, u1, u2, node1, node2);
    if u1 && u2 {
      forall k: nat { StampNext(y, f, a, n, i, j, node1, node2, f, r, k); }
      RowAlike(FourTimes(before, f, node1 + i, node1 + j, node2 + i, node2 + j, a(i, j)), after, f, r, v, c);
      RowFour(before, f, node1 + i, node1 + j, node2 + i, node2 + j, a(i, j), r, v, c);
    } else if u1 || u2 {
      var node := if u1 then node1 else node2;
      forall k: nat { GroundNext(y, f, a, n, i, j, u1, node1, node2, f, r, k); }
      RowAlike(NodalAdd(before, f, node + i, node + j, a(i, j)), after, f, r, v, c);
      RowAdd(before, f, node + i, node + j, a(i, j), r, v, c);
      MulDifference(a(i, j), v(f, node + j), v(f, node + j));
    } else {
      forall k: nat ensures before(f, r, k) == after(f, r, k) {
        StampedIs(y, f, a, n, i, j, u1, u2, node1, node2, f, r, k);
        StampedIs(y, f, a, n, i, j + 1, u1, u2, node1, node2, f, r, k);
      }
      RowAlike(before, after, f, r, v, c);
    }
  }

  /** The block of a value on the diagonal. */
  lemma ScalarBlockIs(value: Complex)
    ensures forall p: nat, q: nat :: ScalarBlock(value)(p, q) == if q == p then value else ZERO
  {
  }

  /** It couples no phases. */
  lemma {:induction false} ScalarCurrent(a: Block, value: Complex, p: nat, v: (nat, nat) -> Complex, f: nat, u1: bool,
                                         u2: bool, node1: nat, node2: nat, n: nat)
    requires forall q: nat :: a(p, q) == if q == p then value else ZERO
    ensures Current(a, p, v, f, u1, u2, node1, node2, n) ==
            if p < n then Mul(value, Across(v, f, u1, u2, node1, node2, p)) else ZERO
  {
    hide Across, Mul;
    if n > 0 {
      ScalarCurrent(a, value, p, v, f, u1, u2, node1, node2, n - 1);
      ZeroTimes(Across(v, f, u1, u2, node1, node2, n - 1));
    }
  }

  lemma ZeroTimes(x: Complex)
    ensures Mul(ZERO, x) == ZERO
  {
  }
}
