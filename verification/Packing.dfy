/** MathUtils and MNAStampUtils: complex nodal matrices and vectors of several harmonics, packed into
    real ones, and the stamps of two-terminal elements. */
module Packing {

  import opened ComplexNumbers
  import opened SparseMatrices
  import opened BitReversal

  /** A nodal admittance matrix for each harmonic: harmonic, row, column. */
  type Nodal = (nat, nat, nat) -> Complex

  /** The index of element r of harmonic f, where each harmonic has 2 * c elements: c real parts
      followed by c imaginary parts. */
  function Index(c: nat, f: nat, r: nat): nat { f * (2 * c) + r }

  lemma {:induction false} IndexUnique(c: nat, f: nat, r: nat, f': nat, r': nat)
    requires r < 2 * c && r' < 2 * c
    ensures Index(c, f, r) == Index(c, f', r') <==> f == f' && r == r'
  {
    DivUnique(Index(c, f, r), 2 * c, f, r);
    DivUnique(Index(c, f', r'), 2 * c, f', r');
  }

  function HarmonicOffset(rows: nat, maxFreq: nat): nat
    requires maxFreq >= 1
  {
    rows / maxFreq
  }

  /** The offsets that the code computes from the size are those of the index. */
  lemma {:induction false} Offsets(maxFreq: nat, c: nat, f: nat, r: nat)
    requires maxFreq >= 1
    ensures HarmonicOffset(maxFreq * (2 * c), maxFreq) == 2 * c && HarmonicOffset(maxFreq * (2 * c), maxFreq) / 2 == c
    ensures r + HarmonicOffset(maxFreq * (2 * c), maxFreq) * f == Index(c, f, r)
  {
    DivUnique(maxFreq * (2 * c), maxFreq, 2 * c, 0);
  }

  lemma {:induction false} IndexBound(maxFreq: nat, c: nat, f: nat, r: nat)
    requires f < maxFreq && r < 2 * c
    ensures Index(c, f, r) < maxFreq * (2 * c)
  {
    assert maxFreq * (2 * c) == f * (2 * c) + (maxFreq - f) * (2 * c);
    MulAtLeast(2 * c, maxFreq - f);
  }

  // ---------------------------------------------------------------- vectors

  predicate Inside(size: nat, row: nat, maxFreq: nat, f: nat) {
    maxFreq >= 1 && row + HarmonicOffset(size, maxFreq) * f + HarmonicOffset(size, maxFreq) / 2 < size
  }

  /** setVectorElement. */
  function SetElement(x: seq<real>, row: nat, value: Complex, maxFreq: nat, f: nat): (r: seq<real>)
    requires Inside(|x|, row, maxFreq, f)
    ensures |r| == |x|
  {
    var h := HarmonicOffset(|x|, maxFreq);
    x[row + h * f := value.re][row + h * f + h / 2 := value.im]
  }

  /** complexFromVectorElement. */
  function GetElement(x: seq<real>, row: nat, maxFreq: nat, f: nat): Complex
    requires Inside(|x|, row, maxFreq, f)
  {
    var h := HarmonicOffset(|x|, maxFreq);
    Complex(x[row + h * f], x[row + h * f + h / 2])
  }

  /** The elements of a vector whose size is a multiple of 2 * maxFreq lie inside it. */
  lemma {:induction false} ElementInside(x: seq<real>, row: nat, maxFreq: nat, c: nat, f: nat)
    requires maxFreq >= 1 && |x| == maxFreq * (2 * c) && row < c && f < maxFreq
    ensures row + HarmonicOffset(|x|, maxFreq) * f == Index(c, f, row) && HarmonicOffset(|x|, maxFreq) / 2 == c
    ensures Index(c, f, row) + c == Index(c, f, row + c) < |x|
  {
    Offsets(maxFreq, c, f, row);
    IndexBound(maxFreq, c, f, row + c);
  }

  /** Reading an element returns what was last set there and nothing that was set elsewhere. */
  lemma {:induction false} SetThenGet(x: seq<real>, row: nat, value: Complex, maxFreq: nat, c: nat, f: nat, row': nat,
                                      f': nat)
    requires maxFreq >= 1 && |x| == maxFreq * (2 * c) && row < c && f < maxFreq && row' < c && f' < maxFreq
    ensures Inside(|x|, row, maxFreq, f) && Inside(|x|, row', maxFreq, f')
    ensures GetElement(SetElement(x, row, value, maxFreq, f), row', maxFreq, f') ==
            if row == row' && f == f' then value else GetElement(x, row', maxFreq, f')
  {
    ElementInside(x, row, maxFreq, c, f);
    ElementInside(x, row', maxFreq, c, f');
    IndexUnique(c, f, row, f', row');
    IndexUnique(c, f, row, f', row' + c);
    IndexUnique(c, f, row + c, f', row');
    IndexUnique(c, f, row + c, f', row' + c);
  }

  // ---------------------------------------------------------------- matrices

  /** addToMatrixElement for a complex value. */
  function AddPacked(m: Sparse, size: nat, row: nat, col: nat, value: Complex, maxFreq: nat, f: nat): Sparse
    requires maxFreq >= 1
  {
    var h := HarmonicOffset(size, maxFreq);
    var r, k, c := row + h * f, col + h * f, h / 2;
    AddAt(AddAt(AddAt(AddAt(m, r, k, value.re), r + c, k + c, value.re), r, k + c, -value.im), r + c, k, value.im)
  }

  /** The real entry that stands for row r and column k of harmonic f. */
  function PackedEntry(y: Nodal, c: nat, f: nat, r: nat, k: nat): real
    requires r < 2 * c && k < 2 * c
  {
    if r < c then (if k < c then y(f, r, k).re else -y(f, r, k - c).im)
    else (if k < c then y(f, r - c, k).im else y(f, r - c, k - c).re)
  }

  /** m is the packed form of y: each harmonic in its own block, nothing between harmonics. */
  ghost predicate Packed(m: Sparse, maxFreq: nat, c: nat, y: Nodal) {
    forall f: nat, f': nat, r: nat, k: nat :: f < maxFreq && f' < maxFreq && r < 2 * c && k < 2 * c ==>
      Coefficient(m, Index(c, f, r), Index(c, f', k)) == if f == f' then PackedEntry(y, c, f, r, k) else 0.0
  }

  function NodalAdd(y: Nodal, f0: nat, row: nat, col: nat, value: Complex): Nodal {
    (f: nat, r: nat, k: nat) => if f == f0 && r == row && k == col then Add(y(f, r, k), value) else y(f, r, k)
  }

  /** What adding a value at (row, col) of a harmonic adds at real row r and column k of it. */
  function Added(c: nat, row: nat, col: nat, value: Complex, r: nat, k: nat): real {
    if r == row && k == col then value.re
    else if r == row + c && k == col + c then value.re
    else if r == row && k == col + c then -value.im
    else if r == row + c && k == col then value.im
    else 0.0
  }

  lemma PackedEntryAdd(y: Nodal, c: nat, f0: nat, row: nat, col: nat, value: Complex, f: nat, r: nat, k: nat)
    requires row < c && col < c && r < 2 * c && k < 2 * c
    ensures PackedEntry(NodalAdd(y, f0, row, col, value), c, f, r, k) ==
            PackedEntry(y, c, f, r, k) + if f == f0 then Added(c, row, col, value, r, k) else 0.0
  {
  }

  lemma {:induction false} AddPackedAt(m: Sparse, maxFreq: nat, c: nat, row: nat, col: nat, value: Complex, f0: nat,
                                       f: nat, f': nat, r: nat, k: nat)
    requires maxFreq >= 1 && row < c && col < c && f0 < maxFreq && r < 2 * c && k < 2 * c
    ensures Coefficient(AddPacked(m, maxFreq * (2 * c), row, col, value, maxFreq, f0), Index(c, f, r),
                        Index(c, f', k)) ==
            Coefficient(m, Index(c, f, r), Index(c, f', k)) +
              if f != f0 || f' != f0 then 0.0 else Added(c, row, col, value, r, k)
  {
    var i, j := Index(c, f, r), Index(c, f', k);
    var a, b := Index(c, f0, row), Index(c, f0, col);
    Offsets(maxFreq, c, f0, row);
    Offsets(maxFreq, c, f0, col);
    IndexUnique(c, f, r, f0, row);
    IndexUnique(c, f, r, f0, row + c);
    IndexUnique(c, f', k, f0, col);
    IndexUnique(c, f', k, f0, col + c);
    FourAdds(m, a, b, c, value, i, j);
  }

  lemma FourAdds(m: Sparse, a: nat, b: nat, c: nat, value: Complex, i: nat, j: nat)
    ensures Coefficient(AddAt(AddAt(AddAt(AddAt(m, a, b, value.re), a + c, b + c, value.re), a, b + c, -value.im),
                              a + c, b, value.im), i, j) ==
            Coefficient(m, i, j) + (if i == a && j == b then value.re else 0.0) +
                (if i == a + c && j == b + c then value.re else 0.0)
            + (if i == a && j == b + c then -value.im else 0.0) + (if i == a + c && j == b then value.im else 0.0)
  {
    hide AddAt, Coefficient;
    var m1 := AddAt(m, a, b, value.re);
    var m2 := AddAt(m1, a + c, b + c, value.re);
    var m3 := AddAt(m2, a, b + c, -value.im);
    AddAtMeans(m, a, b, value.re, i, j);
    AddAtMeans(m1, a + c, b + c, value.re, i, j);
    AddAtMeans(m2, a, b + c, -value.im, i, j);
    AddAtMeans(m3, a + c, b, value.im, i, j);
  }

  /** Adding to the packed matrix adds to the nodal one. */
  lemma {:induction false} PackedAdd(m: Sparse, maxFreq: nat, c: nat, y: Nodal, row: nat, col: nat, value: Complex,
                                     f0: nat)
    requires Packed(m, maxFreq, c, y) && row < c && col < c && f0 < maxFreq
    ensures Packed(AddPacked(m, maxFreq * (2 * c), row, col, value, maxFreq, f0), maxFreq, c,
                   NodalAdd(y, f0, row, col, value))
  {
    hide AddPacked, Index, Coefficient, PackedEntry, NodalAdd, Added;
    forall f: nat, f': nat, r: nat, k: nat | f < maxFreq && f' < maxFreq && r < 2 * c && k < 2 * c
      ensures Coefficient(AddPacked(m, maxFreq * (2 * c), row, col, value, maxFreq, f0), Index(c, f, r),
                          Index(c, f', k)) ==
              if f == f' then PackedEntry(NodalAdd(y, f0, row, col, value), c, f, r, k) else 0.0
    {
      AddPackedAt(m, maxFreq, c, row, col, value, f0, f, f', r, k);
      PackedEntryAdd(y, c, f0, row, col, value, f, r, k);
    }
  }

  // ---------------------------------------------------------------- stamps

  /** A block of admittances, one row and column for each phase. */
  type Block = (nat, nat) -> Complex

  /** The entries of an n by n block up to row i and column j, placed at (row, col). */
  function BlockAt(a: Block, n: nat, i: nat, j: nat, row: nat, col: nat, r: nat, k: nat): Complex {
    if row <= r < row + n && col <= k < col + n &&
       (r - row < i || (r - row == i && k - col < j)) then a(r - row, k - col) else ZERO
  }

  /** What the stamp of a block between two nodes adds at (r, k): the block at both diagonal places
      and its negative at the mixed ones; only one diagonal place when the other node is grounded. */
  function StampAt(a: Block, n: nat, i: nat, j: nat, ungrounded1: bool, ungrounded2: bool, node1: nat, node2: nat,
                   r: nat, k: nat): Complex {
    if ungrounded1 && ungrounded2 then
      Sub(Add(BlockAt(a, n, i, j, node1, node1, r, k), BlockAt(a, n, i, j, node2, node2, r, k)),
          Add(BlockAt(a, n, i, j, node1, node2, r, k), BlockAt(a, n, i, j, node2, node1, r, k)))
    else if ungrounded1 then BlockAt(a, n, i, j, node1, node1, r, k)
    else if ungrounded2 then BlockAt(a, n, i, j, node2, node2, r, k)
    else ZERO
  }

  function Stamped(y: Nodal, f0: nat, a: Block, n: nat, i: nat, j: nat, ungrounded1: bool, ungrounded2: bool,
                   node1: nat, node2: nat): Nodal {
    (f: nat, r: nat, k: nat) => if f == f0 then Add(y(f, r, k),
        StampAt(a, n, i, j, ungrounded1, ungrounded2, node1, node2, r, k)) else y(f, r, k)
  }

  lemma StampedIs(y: Nodal, f0: nat, a: Block, n: nat, i: nat, j: nat, u1: bool, u2: bool, node1: nat, node2: nat,
                  f: nat, r: nat, k: nat)
    ensures Stamped(y, f0, a, n, i, j, u1, u2, node1, node2)(f, r, k) ==
            if f == f0 then Add(y(f, r, k), StampAt(a, n, i, j, u1, u2, node1, node2, r, k)) else y(f, r, k)
  {
  }

  /** The nodal matrix enters the packed one only through its entries. */
  lemma {:induction false} PackedSame(m: Sparse, maxFreq: nat, c: nat, y: Nodal, y': Nodal)
    requires Packed(m, maxFreq, c, y) && forall f: nat, r: nat, k: nat :: y(f, r, k) == y'(f, r, k)
    ensures Packed(m, maxFreq, c, y')
  {
    hide Index, Coefficient;
    forall f: nat, f': nat, r: nat, k: nat | f < maxFreq && f' < maxFreq && r < 2 * c && k < 2 * c
      ensures Coefficient(m, Index(c, f, r), Index(c, f', k)) == if f == f' then PackedEntry(y', c, f, r, k) else 0.0
    {
      var r', k' := if r < c then r else r - c, if k < c then k else k - c;
      assert y(f, r', k') == y'(f, r', k');
    }
  }

  function When(condition: bool, value: Complex): Complex {
    if condition then value else ZERO
  }

  /** Advancing over entry (i, j) of the block. */
  lemma BlockNext(a: Block, n: nat, i: nat, j: nat, row: nat, col: nat, r: nat, k: nat)
    requires i < n && j < n
    ensures BlockAt(a, n, i, j + 1, row, col, r, k) ==
            Add(BlockAt(a, n, i, j, row, col, r, k), When(r == row + i && k == col + j, a(i, j)))
  {
  }

  lemma BlockRow(a: Block, n: nat, i: nat, row: nat, col: nat, r: nat, k: nat)
    ensures BlockAt(a, n, i, n, row, col, r, k) == BlockAt(a, n, i + 1, 0, row, col, r, k)
  {
  }

  function FourTimes(y: Nodal, f0: nat, row1: nat, col1: nat, row2: nat, col2: nat, value: Complex): Nodal {
    NodalAdd(NodalAdd(NodalAdd(NodalAdd(y, f0, row1, col1, value), f0, row1, col2, Neg(value)), f0, row2, col1,
                      Neg(value)), f0, row2, col2, value)
  }

  lemma NodalAddIs(y: Nodal, f0: nat, row: nat, col: nat, value: Complex, f: nat, r: nat, k: nat)
    ensures NodalAdd(y, f0, row, col, value)(f, r, k) ==
              if f != f0 then y(f, r, k) else Add(y(f, r, k), When(r == row && k == col, value))
  {
  }

  lemma FourTimesIs(y: Nodal, f0: nat, row1: nat, col1: nat, row2: nat, col2: nat, value: Complex, f: nat, r: nat,
                    k: nat)
    ensures FourTimes(y, f0, row1, col1, row2, col2, value)(f, r, k) ==
            if f != f0 then y(f, r, k) else
            Add(Add(Add(Add(y(f, r, k), When(r == row1 && k == col1, value)), Neg(When(r == row1 && k == col2, value))),
                    Neg(When(r == row2 && k == col1, value))), When(r == row2 && k == col2, value))
  {
    var y1 := NodalAdd(y, f0, row1, col1, value);
    var y2 := NodalAdd(y1, f0, row1, col2, Neg(value));
    var y3 := NodalAdd(y2, f0, row2, col1, Neg(value));
    NodalAddIs(y, f0, row1, col1, value, f, r, k);
    NodalAddIs(y1, f0, row1, col2, Neg(value), f, r, k);
    NodalAddIs(y2, f0, row2, col1, Neg(value), f, r, k);
    NodalAddIs(y3, f0, row2, col2, value, f, r, k);
    AddLaws(y(f, r, k), ZERO, ZERO);
    assert Neg(ZERO) == ZERO && Neg(value) == When(true, Neg(value));
    hide NodalAdd, Add, Neg;
  }

  /** Adding the four parts one by one is adding their signed sum. */
  lemma FourParts(y: Complex, b11: Complex, b12: Complex, b21: Complex, b22: Complex, e11: Complex, e12: Complex,
                  e21: Complex, e22: Complex)
    ensures Add(Add(Add(Add(Add(y, Sub(Add(b11, b22), Add(b12, b21))), e11), Neg(e12)), Neg(e21)), e22) ==
            Add(y, Sub(Add(Add(b11, e11), Add(b22, e22)), Add(Add(b12, e12), Add(b21, e21))))
  {
  }

  /** Wherever a block is placed, the later of two block values is the earlier one plus one entry. */
  ghost predicate Grows(a: Block, n: nat, i: nat, j: nat, b: Block, i': nat, j': nat, value: Complex, di: nat, dj: nat,
                        r: nat, k: nat) {
    forall row: nat, col: nat ::
           BlockAt(b, n, i', j', row, col, r, k) == Add(BlockAt(a, n, i, j, row, col, r, k),
                                                        When(r == row + di && k == col + dj, value))
  }

  /** Block values before and after, and what is added at the four places, combine to the stamp. */
  lemma {:induction false} StampParts(y: Nodal, f0: nat, a: Block, n: nat, i: nat, j: nat, b: Block, i': nat, j': nat,
                                      value: Complex, node1: nat, node2: nat, di: nat, dj: nat, f: nat, r: nat, k: nat)
    requires f == f0 && Grows(a, n, i, j, b, i', j', value, di, dj, r, k)
    ensures FourTimes(Stamped(y, f0, a, n, i, j, true, true, node1, node2), f0, node1 + di, node1 + dj, node2 + di,
                      node2 + dj, value)(f, r, k) ==
            Stamped(y, f0, b, n, i', j', true, true, node1, node2)(f, r, k)
  {
    hide BlockAt, FourTimes, Stamped, Add, Sub, Neg, When;
    StampedIs(y, f0, a, n, i, j, true, true, node1, node2, f, r, k);
    StampedIs(y, f0, b, n, i', j', true, true, node1, node2, f, r, k);
    FourTimesIs(Stamped(y, f0, a, n, i, j, true, true, node1, node2), f0, node1 + di, node1 + dj, node2 + di,
                node2 + dj, value, f, r, k);
    FourParts(y(f, r, k), BlockAt(a, n, i, j, node1, node1, r, k), BlockAt(a, n, i, j, node1, node2, r, k),
              BlockAt(a, n, i, j, node2, node1, r, k), BlockAt(a, n, i, j, node2, node2, r, k),
              When(r == node1 + di && k == node1 + dj, value), When(r == node1 + di && k == node2 + dj, value),
              When(r == node2 + di && k == node1 + dj, value), When(r == node2 + di && k == node2 + dj, value));
  }

  lemma {:induction false} GroundParts(y: Nodal, f0: nat, a: Block, n: nat, i: nat, j: nat, b: Block, i': nat, j': nat,
                                       value: Complex, first: bool, node1: nat, node2: nat, di: nat, dj: nat, f: nat,
                                       r: nat, k: nat)
    requires f == f0 && Grows(a, n, i, j, b, i', j', value, di, dj, r, k)
    ensures var node := if first then node1 else node2;
            NodalAdd(Stamped(y, f0, a, n, i, j, first, !first, node1, node2), f0, node + di, node + dj,
                     value)(f, r, k) ==
            Stamped(y, f0, b, n, i', j', first, !first, node1, node2)(f, r, k)
  {
    hide BlockAt, NodalAdd, Stamped, Add, When;
    var node := if first then node1 else node2;
    StampedIs(y, f0, a, n, i, j, first, !first, node1, node2, f, r, k);
    StampedIs(y, f0, b, n, i', j', first, !first, node1, node2, f, r, k);
    NodalAddIs(Stamped(y, f0, a, n, i, j, first, !first, node1, node2), f0, node + di, node + dj, value, f, r, k);
    AddLaws(y(f, r, k), BlockAt(a, n, i, j, node, node, r, k), When(r == node + di && k == node + dj, value));
  }

  lemma OtherHarmonic(y: Nodal, f0: nat, a: Block, n: nat, i: nat, j: nat, u1: bool, u2: bool, node1: nat, node2: nat,
                      f: nat, r: nat, k: nat)
    requires f != f0
    ensures Stamped(y, f0, a, n, i, j, u1, u2, node1, node2)(f, r, k) == y(f, r, k)
  {
    StampedIs(y, f0, a, n, i, j, u1, u2, node1, node2, f, r, k);
    hide Stamped;
  }

  lemma {:induction false} StampNext(y: Nodal, f0: nat, a: Block, n: nat, i: nat, j: nat, node1: nat, node2: nat,
                                     f: nat, r: nat, k: nat)
    requires i < n && j < n
    ensures FourTimes(Stamped(y, f0, a, n, i, j, true, true, node1, node2), f0, node1 + i, node1 + j, node2 + i,
                      node2 + j, a(i, j))(f, r, k) ==
            Stamped(y, f0, a, n, i, j + 1, true, true, node1, node2)(f, r, k)
  {
    hide Stamped, FourTimes, Add, When;
    if f == f0 {
      forall row: nat, col: nat { BlockNext(a, n, i, j, row, col, r, k); }
      assert Grows(a, n, i, j, a, i, j + 1, a(i, j), i, j, r, k);
      StampParts(y, f0, a, n, i, j, a, i, j + 1, a(i, j), node1, node2, i, j, f, r, k);
    } else {
      OtherHarmonic(y, f0, a, n, i, j, true, true, node1, node2, f, r, k);
      OtherHarmonic(y, f0, a, n, i, j + 1, true, true, node1, node2, f, r, k);
      FourTimesIs(Stamped(y, f0, a, n, i, j, true, true, node1, node2), f0, node1 + i, node1 + j, node2 + i, node2 + j,
                  a(i, j), f, r, k);
    }
  }

  lemma {:induction false} GroundNext(y: Nodal, f0: nat, a: Block, n: nat, i: nat, j: nat, first: bool, node1: nat,
                                      node2: nat, f: nat, r: nat, k: nat)
    requires i < n && j < n
    ensures var node := if first then node1 else node2;
            NodalAdd(Stamped(y, f0, a, n, i, j, first, !first, node1, node2), f0, node + i, node + j,
                     a(i, j))(f, r, k) ==
            Stamped(y, f0, a, n, i, j + 1, first, !first, node1, node2)(f, r, k)
  {
    hide Stamped, Add, When;
    if f == f0 {
      forall row: nat, col: nat { BlockNext(a, n, i, j, row, col, r, k); }
      assert Grows(a, n, i, j, a, i, j + 1, a(i, j), i, j, r, k);
      GroundParts(y, f0, a, n, i, j, a, i, j + 1, a(i, j), first, node1, node2, i, j, f, r, k);
    } else {
      OtherHarmonic(y, f0, a, n, i, j, first, !first, node1, node2, f, r, k);
      OtherHarmonic(y, f0, a, n, i, j + 1, first, !first, node1, node2, f, r, k);
    }
  }

  lemma RowNext(y: Nodal, f0: nat, a: Block, n: nat, i: nat, u1: bool, u2: bool, node1: nat, node2: nat, f: nat, r: nat,
                k: nat)
    ensures Stamped(y, f0, a, n, i, n, u1, u2, node1, node2)(f, r, k) ==
            Stamped(y, f0, a, n, i + 1, 0, u1, u2, node1, node2)(f, r, k)
  {
    BlockRow(a, n, i, node1, node1, r, k);
    BlockRow(a, n, i, node1, node2, r, k);
    BlockRow(a, n, i, node2, node1, r, k);
    BlockRow(a, n, i, node2, node2, r, k);
    StampedIs(y, f0, a, n, i, n, u1, u2, node1, node2, f, r, k);
    StampedIs(y, f0, a, n, i + 1, 0, u1, u2, node1, node2, f, r, k);
    hide BlockAt;
  }

  lemma NothingStamped(y: Nodal, f0: nat, a: Block, n: nat, u1: bool, u2: bool, node1: nat, node2: nat, f: nat, r: nat,
                       k: nat)
    ensures Stamped(y, f0, a, n, 0, 0, u1, u2, node1, node2)(f, r, k) == y(f, r, k)
  {
    StampedIs(y, f0, a, n, 0, 0, u1, u2, node1, node2, f, r, k);
    hide Stamped;
  }

  /** A value on the diagonal of a block. */
  function ScalarBlock(value: Complex): Block {
    (p: nat, q: nat) => if p == q then value else ZERO
  }

  lemma ScalarNext(value: Complex, n: nat, i: nat, row: nat, col: nat, r: nat, k: nat)
    requires i < n
    ensures BlockAt(ScalarBlock(value), n, i + 1, 0, row, col, r, k) ==
            Add(BlockAt(ScalarBlock(value), n, i, 0, row, col, r, k), When(r == row + i && k == col + i, value))
  {
  }

  lemma {:induction false} ScalarStampNext(y: Nodal, f0: nat, value: Complex, n: nat, i: nat, node1: nat, node2: nat,
                                           f: nat, r: nat, k: nat)
    requires i < n
    ensures FourTimes(Stamped(y, f0, ScalarBlock(value), n, i, 0, true, true, node1, node2), f0, node1 + i, node1 + i,
                      node2 + i, node2 + i, value)(f, r, k) ==
            Stamped(y, f0, ScalarBlock(value), n, i + 1, 0, true, true, node1, node2)(f, r, k)
  {
    hide Stamped, FourTimes, Add, When, ScalarBlock;
    var a := ScalarBlock(value);
    if f == f0 {
      forall row: nat, col: nat { ScalarNext(value, n, i, row, col, r, k); }
      assert Grows(a, n, i, 0, a, i + 1, 0, value, i, i, r, k);
      StampParts(y, f0, a, n, i, 0, a, i + 1, 0, value, node1, node2, i, i, f, r, k);
    } else {
      OtherHarmonic(y, f0, a, n, i, 0, true, true, node1, node2, f, r, k);
      OtherHarmonic(y, f0, a, n, i + 1, 0, true, true, node1, node2, f, r, k);
      FourTimesIs(Stamped(y, f0, a, n, i, 0, true, true, node1, node2), f0, node1 + i, node1 + i, node2 + i, node2 + i,
                  value, f, r, k);
    }
  }

  lemma {:induction false} ScalarGroundNext(y: Nodal, f0: nat, value: Complex, n: nat, i: nat, first: bool, node1: nat,
                                            node2: nat, f: nat, r: nat, k: nat)
    requires i < n
    ensures var node := if first then node1 else node2;
            NodalAdd(Stamped(y, f0, ScalarBlock(value), n, i, 0, first, !first, node1, node2), f0, node + i, node + i,
                     value)(f, r, k) ==
            Stamped(y, f0, ScalarBlock(value), n, i + 1, 0, first, !first, node1, node2)(f, r, k)
  {
    hide Stamped, Add, When, ScalarBlock;
    var a := ScalarBlock(value);
    if f == f0 {
      forall row: nat, col: nat { ScalarNext(value, n, i, row, col, r, k); }
      assert Grows(a, n, i, 0, a, i + 1, 0, value, i, i, r, k);
      GroundParts(y, f0, a, n, i, 0, a, i + 1, 0, value, first, node1, node2, i, i, f, r, k);
    } else {
      OtherHarmonic(y, f0, a, n, i, 0, first, !first, node1, node2, f, r, k);
      OtherHarmonic(y, f0, a, n, i + 1, 0, first, !first, node1, node2, f, r, k);
    }
  }

  /** Both terminals, where they are not grounded, have n phases among the first c nodes. */
  predicate Placed(n: nat, u1: bool, u2: bool, node1: nat, node2: nat, c: nat) {
    (u1 ==> node1 + n <= c) && (u2 ==> node2 + n <= c)
  }

  class SystemMatrix {
    const size: nat
    var coeffs: Sparse

    /** The matrix holds the packed form of y. */
    ghost predicate Holds(maxFreq: nat, c: nat, y: Nodal)
      reads this
    {
      maxFreq >= 1 && size == maxFreq * (2 * c) && Packed(coeffs, maxFreq, c, y)
    }

    constructor (size: nat)
      ensures this.size == size && coeffs == map[]
    {
      this.size := size;
      coeffs := map[];
    }

    method AddToMatrixElement(row: nat, col: nat, value: Complex, maxFreq: nat, f: nat, ghost c: nat, ghost y: Nodal)
      requires Holds(maxFreq, c, y) && row < c && col < c && f < maxFreq
      modifies this
      ensures coeffs == AddPacked(old(coeffs), size, row, col, value, maxFreq, f) &&
              Holds(maxFreq, c, NodalAdd(y, f, row, col, value))
    {
      PackedAdd(coeffs, maxFreq, c, y, row, col, value, f);
      hide Packed;
      var harmonicOffset := size / maxFreq;
      var complexOffset := harmonicOffset / 2;
      var harmRow, harmCol := row + harmonicOffset * f, col + harmonicOffset * f;
      coeffs := AddAt(coeffs, harmRow, harmCol, value.re);
      coeffs := AddAt(coeffs, harmRow + complexOffset, harmCol + complexOffset, value.re);
      coeffs := AddAt(coeffs, harmRow, harmCol + complexOffset, -value.im);
      coeffs := AddAt(coeffs, harmRow + complexOffset, harmCol, value.im);
    }

    method StampToMatrix(value: Complex, row1: nat, column1: nat, row2: nat, column2: nat, maxFreq: nat, f: nat,
                         ghost c: nat, ghost y: Nodal)
      requires Holds(maxFreq, c, y) && row1 < c && column1 < c && row2 < c && column2 < c && f < maxFreq
      modifies this
      ensures Holds(maxFreq, c, FourTimes(y, f, row1, column1, row2, column2, value))
    {
      hide Packed, AddPacked, NodalAdd;
      ghost var y1 := NodalAdd(y, f, row1, column1, value);
      ghost var y2 := NodalAdd(y1, f, row1, column2, Neg(value));
      ghost var y3 := NodalAdd(y2, f, row2, column1, Neg(value));
      AddToMatrixElement(row1, column1, value, maxFreq, f, c, y);
      AddToMatrixElement(row1, column2, Neg(value), maxFreq, f, c, y1);
      AddToMatrixElement(row2, column1, Neg(value), maxFreq, f, c, y2);
      AddToMatrixElement(row2, column2, value, maxFreq, f, c, y3);
    }

    /** One entry of a block, wherever the terminals allow. */
    method StampEntry(a: Block, n: nat, i: nat, j: nat, node1: nat, node2: nat, u1: bool, u2: bool, maxFreq: nat,
                      f: nat, ghost c: nat, ghost y: Nodal)
      requires i < n && j < n && Placed(n, u1, u2, node1, node2, c) && f < maxFreq
      requires Holds(maxFreq, c, Stamped(y, f, a, n, i, j, u1, u2, node1, node2))
      modifies this
      ensures Holds(maxFreq, c, Stamped(y, f, a, n, i, j + 1, u1, u2, node1, node2))
    {
      hide Packed, AddPacked, NodalAdd, FourTimes;
      ghost var before, after := Stamped(y, f, a, n, i, j, u1, u2, node1, node2),
                Stamped(y, f, a, n, i, j + 1, u1, u2, node1, node2);
      hide Stamped;
      ghost var next := before;
      if u1 && u2 {
        StampToMatrix(a(i, j), node1 + i, node1 + j, node2 + i, node2 + j, maxFreq, f, c, before);
        next := FourTimes(before, f, node1 + i, node1 + j, node2 + i, node2 + j, a(i, j));
        forall g: nat, r: nat, k: nat
          ensures next(g, r, k) == after(g, r, k)
        {
          StampNext(y, f, a, n, i, j, node1, node2, g, r, k);
        }
      } else if u1 {
        AddToMatrixElement(node1 + i, node1 + j, a(i, j), maxFreq, f, c, before);
        next := NodalAdd(before, f, node1 + i, node1 + j, a(i, j));
        forall g: nat, r: nat, k: nat
          ensures next(g, r, k) == after(g, r, k)
        {
          GroundNext(y, f, a, n, i, j, true, node1, node2, g, r, k);
        }
      } else if u2 {
        AddToMatrixElement(node2 + i, node2 + j, a(i, j), maxFreq, f, c, before);
        next := NodalAdd(before, f, node2 + i, node2 + j, a(i, j));
        forall g: nat, r: nat, k: nat
          ensures next(g, r, k) == after(g, r, k)
        {
          GroundNext(y, f, a, n, i, j, false, node1, node2, g, r, k);
        }
      } else {
        forall g: nat, r: nat, k: nat ensures next(g, r, k) == after(g, r, k) {
          StampedIs(y, f, a, n, i, j, u1, u2, node1, node2, g, r, k);
          StampedIs(y, f, a, n, i, j + 1, u1, u2, node1, node2, g, r, k);
        }
      }
      PackedSame(coeffs, maxFreq, c, next, after);
    }

    lemma HoldsSame(maxFreq: nat, c: nat, y: Nodal, y': Nodal)
      requires Holds(maxFreq, c, y) && forall f: nat, r: nat, k: nat :: y(f, r, k) == y'(f, r, k)
      ensures Holds(maxFreq, c, y')
    {
      hide Packed;
      PackedSame(coeffs, maxFreq, c, y, y');
    }

    /** stampMatrix; a block that is not square is refused. */
    method StampMatrix(a: Block, rows: nat, cols: nat, node1: nat, node2: nat, u1: bool, u2: bool, maxFreq: nat, f: nat,
                       ghost c: nat, ghost y: Nodal)
      returns (ok: bool)
      requires Holds(maxFreq, c, y) && Placed(rows, u1, u2, node1, node2, c) && f < maxFreq
      modifies this
      ensures ok <==> rows == cols
      ensures ok ==> Holds(maxFreq, c, Stamped(y, f, a, rows, rows, 0, u1, u2, node1, node2))
      ensures !ok ==> coeffs == old(coeffs)
    {
      if rows != cols {
        return false;
      }
      hide *;
      var n := rows;
      forall g: nat, r: nat, k: nat ensures Stamped(y, f, a, n, 0, 0, u1, u2, node1, node2)(g, r, k) == y(g, r, k) {
        NothingStamped(y, f, a, n, u1, u2, node1, node2, g, r, k);
      }
      HoldsSame(maxFreq, c, y, Stamped(y, f, a, n, 0, 0, u1, u2, node1, node2));
      for i := 0 to n
        invariant Holds(maxFreq, c, Stamped(y, f, a, n, i, 0, u1, u2, node1, node2))
      {
        for j := 0 to n
          invariant Holds(maxFreq, c, Stamped(y, f, a, n, i, j, u1, u2, node1, node2))
        {
          StampEntry(a, n, i, j, node1, node2, u1, u2, maxFreq, f, c, y);
        }
        forall g: nat, r: nat, k: nat
          ensures Stamped(y, f, a, n, i, n, u1, u2, node1, node2)(g, r, k) ==
                  Stamped(y, f, a, n, i + 1, 0, u1, u2, node1, node2)(g, r, k)
        {
          RowNext(y, f, a, n, i, u1, u2, node1, node2, g, r, k);
        }
        HoldsSame(maxFreq, c, Stamped(y, f, a, n, i, n, u1, u2, node1, node2),
                  Stamped(y, f, a, n, i + 1, 0, u1, u2, node1, node2));
      }
      ok := true;
    }

    /** One phase of stampValueAsScalarMatrix. */
    method StampPhase(value: Complex, n: nat, i: nat, node1: nat, node2: nat, u1: bool, u2: bool, maxFreq: nat, f: nat,
                      ghost c: nat, ghost y: Nodal)
      requires i < n && Placed(n, u1, u2, node1, node2, c) && f < maxFreq
      requires Holds(maxFreq, c, Stamped(y, f, ScalarBlock(value), n, i, 0, u1, u2, node1, node2))
      modifies this
      ensures Holds(maxFreq, c, Stamped(y, f, ScalarBlock(value), n, i + 1, 0, u1, u2, node1, node2))
    {
      hide Packed, AddPacked, NodalAdd, FourTimes;
      ghost var a := ScalarBlock(value);
      ghost var before, after := Stamped(y, f, a, n, i, 0, u1, u2, node1, node2),
                Stamped(y, f, a, n, i + 1, 0, u1, u2, node1, node2);
      hide Stamped, ScalarBlock;
      ghost var next := before;
      if u1 && u2 {
        StampToMatrix(value, node1 + i, node1 + i, node2 + i, node2 + i, maxFreq, f, c, before);
        next := FourTimes(before, f, node1 + i, node1 + i, node2 + i, node2 + i, value);
        forall g: nat, r: nat, k: nat
          ensures next(g, r, k) == after(g, r, k)
        {
          ScalarStampNext(y, f, value, n, i, node1, node2, g, r, k);
        }
      } else if u1 {
        AddToMatrixElement(node1 + i, node1 + i, value, maxFreq, f, c, before);
        next := NodalAdd(before, f, node1 + i, node1 + i, value);
        forall g: nat, r: nat, k: nat
          ensures next(g, r, k) == after(g, r, k)
        {
          ScalarGroundNext(y, f, value, n, i, true, node1, node2, g, r, k);
        }
      } else if u2 {
        AddToMatrixElement(node2 + i, node2 + i, value, maxFreq, f, c, before);
        next := NodalAdd(before, f, node2 + i, node2 + i, value);
        forall g: nat, r: nat, k: nat
          ensures next(g, r, k) == after(g, r, k)
        {
          ScalarGroundNext(y, f, value, n, i, false, node1, node2, g, r, k);
        }
      } else {
        forall g: nat, r: nat, k: nat ensures next(g, r, k) == after(g, r, k) {
          StampedIs(y, f, a, n, i, 0, u1, u2, node1, node2, g, r, k);
          StampedIs(y, f, a, n, i + 1, 0, u1, u2, node1, node2, g, r, k);
        }
      }
      PackedSame(coeffs, maxFreq, c, next, after);
    }

    /** stampValueAsScalarMatrix; with one phase it is stampValue. */
    method StampScalar(value: Complex, n: nat, node1: nat, node2: nat, u1: bool, u2: bool, maxFreq: nat, f: nat,
                       ghost c: nat, ghost y: Nodal)
      requires Holds(maxFreq, c, y) && Placed(n, u1, u2, node1, node2, c) && f < maxFreq
      modifies this
      ensures Holds(maxFreq, c, Stamped(y, f, ScalarBlock(value), n, n, 0, u1, u2, node1, node2))
    {
      hide Packed, Stamped, BlockAt, ScalarBlock;
      ghost var a := ScalarBlock(value);
      forall g: nat, r: nat, k: nat ensures Stamped(y, f, a, n, 0, 0, u1, u2, node1, node2)(g, r, k) == y(g, r, k) {
        NothingStamped(y, f, a, n, u1, u2, node1, node2, g, r, k);
      }
      PackedSame(coeffs, maxFreq, c, y, Stamped(y, f, a, n, 0, 0, u1, u2, node1, node2));
      for i := 0 to n
        invariant Holds(maxFreq, c, Stamped(y, f, a, n, i, 0, u1, u2, node1, node2))
      {
        StampPhase(value, n, i, node1, node2, u1, u2, maxFreq, f, c, y);
      }
    }
  }

  // ---------------------------------------------------------------- what the packed matrix computes

  /** Row i of the real matrix times n elements of x, from element start on. */
  function RealRow(m: Sparse, i: nat, x: seq<real>, start: nat, n: nat): real
    requires start + n <= |x|
  {
    if n == 0 then 0.0 else RealRow(m, i, x, start, n - 1) + Term(m, i, x, start + n - 1)
  }

  function Term(m: Sparse, i: nat, x: seq<real>, j: nat): real
    requires j < |x|
  {
    Coefficient(m, i, j) * x[j]
  }

  /** Row r of the nodal matrix of harmonic f times the first n nodal values. */
  function ComplexRow(y: Nodal, f: nat, r: nat, v: (nat, nat) -> Complex, n: nat): Complex {
    if n == 0 then ZERO else Add(ComplexRow(y, f, r, v, n - 1), Mul(y(f, r, n - 1), v(f, n - 1)))
  }

  /** x is the packed form of v. */
  ghost predicate PackedVector(x: seq<real>, maxFreq: nat, c: nat, v: (nat, nat) -> Complex) {
    && |x| == maxFreq * (2 * c)
    && forall f: nat, k: nat :: f < maxFreq && k < c ==> HasElement(x, c, f, k, v(f, k))
  }

  predicate HasElement(x: seq<real>, c: nat, f: nat, k: nat, value: Complex) {
    var i, j := Index(c, f, k), Index(c, f, k + c);
    i < |x| && j < |x| && x[i] == value.re && x[j] == value.im
  }

  lemma {:induction false} RowSplits(m: Sparse, i: nat, x: seq<real>, start: nat, n: nat, n': nat)
    requires start + n + n' <= |x|
    ensures RealRow(m, i, x, start, n + n') == RealRow(m, i, x, start, n) + RealRow(m, i, x, start + n, n')
  {
    if n' > 0 { RowSplits(m, i, x, start, n, n' - 1); }
  }

  /** The part of a row that belongs to another harmonic. */
  lemma {:induction false} OtherHarmonicRow(m: Sparse, maxFreq: nat, c: nat, y: Nodal, x: seq<real>, f: nat, r: nat,
                                            f': nat, n: nat)
    requires Packed(m, maxFreq, c, y) && f < maxFreq && f' < maxFreq && f != f' && r < 2 * c && n <= 2 * c
    requires Index(c, f', 0) + n <= |x|
    ensures RealRow(m, Index(c, f, r), x, Index(c, f', 0), n) == 0.0
  {
    if n > 0 {
      OtherHarmonicRow(m, maxFreq, c, y, x, f, r, f', n - 1);
      assert Index(c, f', 0) + n - 1 == Index(c, f', n - 1);
      assert Coefficient(m, Index(c, f, r), Index(c, f', n - 1)) == 0.0;
    }
  }

  lemma RowLast(m: Sparse, i: nat, x: seq<real>, start: nat, n: nat)
    requires 0 < n && start + n <= |x|
    ensures RealRow(m, i, x, start, n) == RealRow(m, i, x, start, n - 1) + Term(m, i, x, start + n - 1)
  {
  }

  /** The elements k and k + c of a row of its own harmonic. */
  lemma {:induction false} OwnElement(m: Sparse, maxFreq: nat, c: nat, y: Nodal, x: seq<real>, v: (nat, nat) -> Complex,
                                      f: nat, r: nat, k: nat)
    requires Packed(m, maxFreq, c, y) && PackedVector(x, maxFreq, c, v) && f < maxFreq && r < c && k < c
    ensures var s, i, j := Index(c, f, 0), Index(c, f, r), Index(c, f, r + c);
            && s + k < |x| && s + c + k < |x|
            && Term(m, i, x, s + k) + Term(m, i, x, s + c + k) == Mul(y(f, r, k), v(f, k)).re
            && Term(m, j, x, s + k) + Term(m, j, x, s + c + k) == Mul(y(f, r, k), v(f, k)).im
  {
    assert HasElement(x, c, f, k, v(f, k));
    assert Index(c, f, 0) + k == Index(c, f, k) && Index(c, f, 0) + c + k == Index(c, f, k + c);
    assert Coefficient(m, Index(c, f, r), Index(c, f, k)) == PackedEntry(y, c, f, r, k);
    assert Coefficient(m, Index(c, f, r), Index(c, f, k + c)) == PackedEntry(y, c, f, r, k + c);
    assert Coefficient(m, Index(c, f, r + c), Index(c, f, k)) == PackedEntry(y, c, f, r + c, k);
    assert Coefficient(m, Index(c, f, r + c), Index(c, f, k + c)) == PackedEntry(y, c, f, r + c, k + c);
  }

  /** The part that belongs to its own harmonic, real and imaginary row. */
  lemma {:induction false} OwnHarmonicRow(m: Sparse, maxFreq: nat, c: nat, y: Nodal, x: seq<real>,
                                          v: (nat, nat) -> Complex, f: nat, r: nat, n: nat)
    requires Packed(m, maxFreq, c, y) && PackedVector(x, maxFreq, c, v) && f < maxFreq && r < c && n <= c
    requires Index(c, f, 0) + 2 * c <= |x|
    ensures RealRow(m, Index(c, f, r), x, Index(c, f, 0), n) + RealRow(m, Index(c, f, r), x, Index(c, f, 0) + c, n) ==
            ComplexRow(y, f, r, v, n).re
    ensures RealRow(m, Index(c, f, r + c), x, Index(c, f, 0), n) +
            RealRow(m, Index(c, f, r + c), x, Index(c, f, 0) + c, n) == ComplexRow(y, f, r, v, n).im
  {
    hide Packed, PackedVector, Index, Coefficient, Mul, Term;
    if n > 0 {
      OwnHarmonicRow(m, maxFreq, c, y, x, v, f, r, n - 1);
      OwnElement(m, maxFreq, c, y, x, v, f, r, n - 1);
      var s, i, j := Index(c, f, 0), Index(c, f, r), Index(c, f, r + c);
      RowLast(m, i, x, s, n);
      RowLast(m, i, x, s + c, n);
      RowLast(m, j, x, s, n);
      RowLast(m, j, x, s + c, n);
      hide RealRow;
    }
  }

  /** The row sum over the harmonics below f' covers that of f once it has been passed. */
  lemma {:induction false} HarmonicSum(m: Sparse, maxFreq: nat, c: nat, y: Nodal, x: seq<real>,
                                       v: (nat, nat) -> Complex, f: nat, r: nat, f': nat)
    requires Packed(m, maxFreq, c, y) && PackedVector(x, maxFreq, c, v) && f < maxFreq && r < c && f' <= maxFreq
    ensures Index(c, f', 0) <= |x|
    ensures RealRow(m, Index(c, f, r), x, 0, Index(c, f', 0)) == if f < f' then ComplexRow(y, f, r, v, c).re else 0.0
    ensures RealRow(m, Index(c, f, r + c), x, 0, Index(c, f', 0)) ==
              if f < f' then ComplexRow(y, f, r, v, c).im else 0.0
  {
    hide Packed, PackedVector, Coefficient, ComplexRow, RealRow;
    var i, j := Index(c, f, r), Index(c, f, r + c);
    if f' == 0 {
      assert Index(c, 0, 0) == 0;
      EmptyRow(m, i, x, 0);
      EmptyRow(m, j, x, 0);
    } else {
      var g := f' - 1;
      HarmonicSum(m, maxFreq, c, y, x, v, f, r, g);
      VectorSize(x, maxFreq, c, v);
      NextHarmonic(maxFreq, c, g);
      hide Index;
      OneHarmonic(m, maxFreq, c, y, x, v, f, r, g);
      RowSplits(m, i, x, 0, Index(c, g, 0), 2 * c);
      RowSplits(m, j, x, 0, Index(c, g, 0), 2 * c);
    }
  }

  lemma EmptyRow(m: Sparse, i: nat, x: seq<real>, start: nat)
    requires start <= |x|
    ensures RealRow(m, i, x, start, 0) == 0.0
  {
  }

  lemma VectorSize(x: seq<real>, maxFreq: nat, c: nat, v: (nat, nat) -> Complex)
    requires PackedVector(x, maxFreq, c, v)
    ensures |x| == maxFreq * (2 * c)
  {
  }

  /** The part of both rows that belongs to harmonic g. */
  lemma {:induction false} OneHarmonic(m: Sparse, maxFreq: nat, c: nat, y: Nodal, x: seq<real>,
                                       v: (nat, nat) -> Complex, f: nat, r: nat, g: nat)
    requires Packed(m, maxFreq, c, y) && PackedVector(x, maxFreq, c, v) && f < maxFreq && r < c && g < maxFreq &&
             Index(c, g, 0) + 2 * c <= |x|
    ensures RealRow(m, Index(c, f, r), x, Index(c, g, 0), 2 * c) == if f == g then ComplexRow(y, f, r, v, c).re else 0.0
    ensures RealRow(m, Index(c, f, r + c), x, Index(c, g, 0), 2 * c) ==
              if f == g then ComplexRow(y, f, r, v, c).im else 0.0
  {
    hide Packed, PackedVector, Coefficient, ComplexRow, RealRow, Index;
    var s, i, j := Index(c, g, 0), Index(c, f, r), Index(c, f, r + c);
    if f == g {
      OwnHarmonicRow(m, maxFreq, c, y, x, v, f, r, c);
      RowSplits(m, i, x, s, c, c);
      RowSplits(m, j, x, s, c, c);
    } else {
      OtherHarmonicRow(m, maxFreq, c, y, x, f, r, g, 2 * c);
      OtherHarmonicRow(m, maxFreq, c, y, x, f, r + c, g, 2 * c);
    }
  }

  lemma NextHarmonic(maxFreq: nat, c: nat, g: nat)
    requires g < maxFreq
    ensures Index(c, g + 1, 0) == Index(c, g, 0) + 2 * c && Index(c, g, 0) + 2 * c <= maxFreq * (2 * c)
  {
    assert maxFreq * (2 * c) == (g + 1) * (2 * c) + (maxFreq - g - 1) * (2 * c);
    if maxFreq - g - 1 >= 1 { MulAtLeast(2 * c, maxFreq - g - 1); }
  }

  /** The packed matrix times a packed vector is, for every harmonic and every row, the complex nodal
      matrix times the nodal values. */
  lemma {:induction false} PackedProduct(m: Sparse, maxFreq: nat, c: nat, y: Nodal, x: seq<real>,
                                         v: (nat, nat) -> Complex, f: nat, r: nat)
    requires Packed(m, maxFreq, c, y) && PackedVector(x, maxFreq, c, v) && f < maxFreq && r < c
    ensures Complex(RealRow(m, Index(c, f, r), x, 0, |x|), RealRow(m, Index(c, f, r + c), x, 0, |x|)) ==
            ComplexRow(y, f, r, v, c)
  {
    HarmonicSum(m, maxFreq, c, y, x, v, f, r, maxFreq);
    assert Index(c, maxFreq, 0) == maxFreq * (2 * c);
  }

  // ---------------------------------------------------------------- conservation

  function ColumnSum(y: Nodal, f: nat, k: nat, n: nat): Complex {
    if n == 0 then ZERO else Add(ColumnSum(y, f, k, n - 1), y(f, n - 1, k))
  }

  function RowSum(y: Nodal, f: nat, r: nat, n: nat): Complex {
    if n == 0 then ZERO else Add(RowSum(y, f, r, n - 1), y(f, r, n - 1))
  }

  lemma {:induction false} AddToSums(y: Nodal, f0: nat, row: nat, col: nat, value: Complex, f: nat, k: nat, n: nat)
    ensures ColumnSum(NodalAdd(y, f0, row, col, value), f, k, n) ==
            if f == f0 && k == col && row < n then Add(ColumnSum(y, f, k, n), value) else ColumnSum(y, f, k, n)
    ensures RowSum(NodalAdd(y, f0, row, col, value), f, k, n) ==
            if f == f0 && k == row && col < n then Add(RowSum(y, f, k, n), value) else RowSum(y, f, k, n)
  {
    hide NodalAdd;
    if n > 0 {
      AddToSums(y, f0, row, col, value, f, k, n - 1);
      NodalAddIs(y, f0, row, col, value, f, n - 1, k);
      NodalAddIs(y, f0, row, col, value, f, k, n - 1);
    }
  }

  /** A stamp between two nodes leaves every row sum and every column sum as it was. */
  lemma {:induction false} StampKeepsSums(y: Nodal, f0: nat, row1: nat, col1: nat, row2: nat, col2: nat, value: Complex,
                                          f: nat, k: nat, n: nat)
    requires row1 < n && col1 < n && row2 < n && col2 < n
    ensures ColumnSum(FourTimes(y, f0, row1, col1, row2, col2, value), f, k, n) == ColumnSum(y, f, k, n)
    ensures RowSum(FourTimes(y, f0, row1, col1, row2, col2, value), f, k, n) == RowSum(y, f, k, n)
  {
    hide NodalAdd, ColumnSum, RowSum;
    var y1 := NodalAdd(y, f0, row1, col1, value);
    var y2 := NodalAdd(y1, f0, row1, col2, Neg(value));
    var y3 := NodalAdd(y2, f0, row2, col1, Neg(value));
    AddToSums(y, f0, row1, col1, value, f, k, n);
    AddToSums(y1, f0, row1, col2, Neg(value), f, k, n);
    AddToSums(y2, f0, row2, col1, Neg(value), f, k, n);
    AddToSums(y3, f0, row2, col2, value, f, k, n);
  }

  lemma {:induction false} SumsAlike(y: Nodal, y': Nodal, f: nat, k: nat, n: nat)
    requires forall r: nat, c: nat :: y(f, r, c) == y'(f, r, c)
    ensures ColumnSum(y, f, k, n) == ColumnSum(y', f, k, n) && RowSum(y, f, k, n) == RowSum(y', f, k, n)
  {
    if n > 0 {
      SumsAlike(y, y', f, k, n - 1);
      assert y(f, n - 1, k) == y'(f, n - 1, k) && y(f, k, n - 1) == y'(f, k, n - 1);
    }
  }

  /** The stamp of a whole block between two nodes does so too, and so does every part of it that
      the loops have stamped so far; the values of the block are arbitrary. */
  lemma {:induction false} BlockKeepsSums(y: Nodal, f0: nat, a: Block, n: nat, i: nat, j: nat, node1: nat, node2: nat,
                                          f: nat, k: nat, c: nat)
    requires node1 + n <= c && node2 + n <= c && j <= n && (i < n || (i == n && j == 0))
    ensures ColumnSum(Stamped(y, f0, a, n, i, j, true, true, node1, node2), f, k, c) == ColumnSum(y, f, k, c)
    ensures RowSum(Stamped(y, f0, a, n, i, j, true, true, node1, node2), f, k, c) == RowSum(y, f, k, c)
    decreases i, j
  {
    hide Stamped, FourTimes, ColumnSum, RowSum;
    var now := Stamped(y, f0, a, n, i, j, true, true, node1, node2);
    if j > 0 {
      var before := Stamped(y, f0, a, n, i, j - 1, true, true, node1, node2);
      var next := FourTimes(before, f0, node1 + i, node1 + j - 1, node2 + i, node2 + j - 1, a(i, j - 1));
      forall r: nat, s: nat
        ensures next(f, r, s) == now(f, r, s)
      {
        StampNext(y, f0, a, n, i, j - 1, node1, node2, f, r, s);
      }
      SumsAlike(next, now, f, k, c);
      StampKeepsSums(before, f0, node1 + i, node1 + j - 1, node2 + i, node2 + j - 1, a(i, j - 1), f, k, c);
      BlockKeepsSums(y, f0, a, n, i, j - 1, node1, node2, f, k, c);
    } else if i > 0 {
      var before := Stamped(y, f0, a, n, i - 1, n, true, true, node1, node2);
      forall r: nat, s: nat
        ensures before(f, r, s) == now(f, r, s)
      {
        RowNext(y, f0, a, n, i - 1, true, true, node1, node2, f, r, s);
      }
      SumsAlike(before, now, f, k, c);
      BlockKeepsSums(y, f0, a, n, i - 1, n, node1, node2, f, k, c);
    } else {
      forall r: nat, s: nat
        ensures now(f, r, s) == y(f, r, s)
      {
        NothingStamped(y, f0, a, n, true, true, node1, node2, f, r, s);
      }
      SumsAlike(now, y, f, k, c);
    }
  }
}
