module StateSpaceContributors {

  // MNAStateSpaceContributor: what three-phase inductors and capacitors between two terminals stamp.

  import opened LinearAlgebra
  import opened StateSpace

  /** A terminal: grounded, or the index of its unknown for each phase. */
  datatype Terminal = Grounded | Node(index: seq<nat>)

  predicate HasPhase(t: Terminal, p: nat, m: nat) {
    t.Node? ==> p < |t.index| && t.index[p] < m
  }

  /** The voltage of a phase at a terminal. */
  function Voltage(t: Terminal, p: nat, x: Vec): real
    requires HasPhase(t, p, |x|)
  {
    if t.Node? then x[t.index[p]] else 0.0
  }

  /** A row of buildTwoTerminalInterfaceVoltageMapping: the entry of terminal 1 is written first, then
      that of terminal 0. */
  function MappingRow(t1: Terminal, t0: Terminal, p: nat, m: nat): (r: Vec)
    requires HasPhase(t1, p, m) && HasPhase(t0, p, m)
    ensures |r| == m
  {
    var row := if t1.Node? then Zeros(m)[t1.index[p] := 1.0] else Zeros(m);
    if t0.Node? then row[t0.index[p] := -1.0] else row
  }

  lemma {:induction false} DotUpdated(v: Vec, j: nat, value: real, x: Vec)
    requires j < |v| == |x|
    ensures Dot(v[j := value], x) == Dot(v, x) + (value - v[j]) * x[j]
  {
    if j == 0 {
      assert v[0 := value][1..] == v[1..];
      Expand(value, v[0], x[0]);
    } else {
      assert v[j := value][1..] == v[1..][j - 1 := value];
      DotUpdated(v[1..], j - 1, value, x[1..]);
    }
  }

  lemma Expand(a: real, b: real, x: real)
    ensures a * x == b * x + (a - b) * x
  {
  }

  /** Both terminals at the same unknown: the second entry overwrites the first. */
  predicate SameUnknown(t1: Terminal, t0: Terminal, p: nat, m: nat)
    requires HasPhase(t1, p, m) && HasPhase(t0, p, m)
  {
    t1.Node? && t0.Node? && t1.index[p] == t0.index[p]
  }

  /** A row of K times x: the voltage between the terminals, unless both are at the same unknown. */
  lemma {:induction false} RowTimes(t1: Terminal, t0: Terminal, p: nat, x: Vec)
    requires HasPhase(t1, p, |x|) && HasPhase(t0, p, |x|)
    ensures Dot(MappingRow(t1, t0, p, |x|), x) ==
            if SameUnknown(t1, t0, p, |x|) then -Voltage(t0, p, x) else Voltage(t1, p, x) - Voltage(t0, p, x)
  {
    var zeros := Zeros(|x|);
    DotCommutes(zeros, x);
    DotZeros(x);
    var row := if t1.Node? then zeros[t1.index[p] := 1.0] else zeros;
    if t1.Node? { DotUpdated(zeros, t1.index[p], 1.0, x); }
    if t0.Node? { DotUpdated(row, t0.index[p], -1.0, x); }
  }

  predicate RowIsVoltage(t1: Terminal, t0: Terminal, p: nat, x: Vec)
    requires HasPhase(t1, p, |x|) && HasPhase(t0, p, |x|)
  {
    Dot(MappingRow(t1, t0, p, |x|), x) == Voltage(t1, p, x) - Voltage(t0, p, x)
  }

  /** K x is the voltage between the terminals for every network solution x exactly unless both
      terminals are at the same unknown. */
  lemma {:induction false} MappingIsVoltage(t1: Terminal, t0: Terminal, p: nat, m: nat)
    requires HasPhase(t1, p, m) && HasPhase(t0, p, m)
    ensures (forall x: Vec :: |x| == m ==> RowIsVoltage(t1, t0, p, x)) <==> !SameUnknown(t1, t0, p, m)
  {
    if SameUnknown(t1, t0, p, m) {
      var x := Zeros(m)[t0.index[p] := 1.0];
      RowTimes(t1, t0, p, x);
      assert !RowIsVoltage(t1, t0, p, x);
    } else {
      forall x: Vec | |x| == m ensures RowIsVoltage(t1, t0, p, x) { RowTimes(t1, t0, p, x); }
    }
  }

  /** The rows of K. */
  function Mapping(t1: Terminal, t0: Terminal, n: nat, m: nat): (k: seq<Vec>)
    requires forall p :: 0 <= p < n ==> HasPhase(t1, p, m) && HasPhase(t0, p, m)
    ensures |k| == n && Columns(k, m)
  {
    seq(n, p requires 0 <= p < n => MappingRow(t1, t0, p, m))
  }

  /** Inductor: a = I, b = 2 G K, c = -K^T; capacitor: a = -I, b = -2 G K, c = -K^T. */
  function HistoryBlocks(sign: real, g: Matrix, k: seq<Vec>, m: nat): (r: Blocks)
    requires IsMatrix(g, |g|, |g|) && |k| == |g| && Columns(k, m)
    ensures BlocksSized(r, m) && |r.a| == |g|
  {
    Blocks(seq(|g|, p requires 0 <= p < |g| => Scale(sign, Padded([1.0], p, |g|))),
           seq(|g|, p requires 0 <= p < |g| => Scale(sign, Combine(k, Scale(2.0, g[p]), m))),
           seq(|g|, p requires 0 <= p < |g| => Scale(-1.0, k[p])))
  }

  lemma {:induction false} DotScaled(t: real, a: Vec, b: Vec)
    requires |a| == |b|
    ensures Dot(Scale(t, a), b) == t * Dot(a, b)
  {
    DotCommutes(Scale(t, a), b);
    DotScale(b, t, a);
    DotCommutes(a, b);
  }

  lemma {:induction false} DotUnit(p: nat, h: Vec)
    requires p < |h|
    ensures Dot(Padded([1.0], p, |h|), h) == h[p]
  {
    DotPadded([1.0], p, h);
    assert Dot([1.0], [h[p]]) == h[p] by { assert [1.0][1..] == [] && [h[p]][1..] == []; }
    assert h[p..p + 1] == [h[p]];
  }

  /** The stamped blocks perform the component's own trapezoidal update: for the inductor
      h' = h + 2 G v, for the capacitor h' = -h - 2 G v, with v the voltages K x. */
  lemma {:induction false} BlocksUpdateHistory(sign: real, g: Matrix, k: seq<Vec>, h: Vec, x: Vec, p: nat)
    requires IsMatrix(g, |g|, |g|) && |k| == |g| == |h| && Columns(k, |x|) && p < |g|
    ensures Dot(HistoryBlocks(sign, g, k, |x|).a[p], h) + Dot(HistoryBlocks(sign, g, k, |x|).b[p], x) ==
            sign * (h[p] + 2.0 * Dot(g[p], Dots(k, x)))
  {
    hide HistoryBlocks, Dot, Dots;
    OwnPart(sign, g, k, h, |x|, p);
    InputPart(sign, g, k, x, p);
    TakeOut(sign, h[p], 2.0 * Dot(g[p], Dots(k, x)));
  }

  lemma OwnPart(sign: real, g: Matrix, k: seq<Vec>, h: Vec, m: nat, p: nat)
    requires IsMatrix(g, |g|, |g|) && |k| == |g| == |h| && Columns(k, m) && p < |g|
    ensures Dot(HistoryBlocks(sign, g, k, m).a[p], h) == sign * h[p]
  {
    hide Dot, Padded, Scale, Combine;
    DotScaled(sign, Padded([1.0], p, |h|), h);
    DotUnit(p, h);
  }

  /** A product that the solver does not multiply out. */
  function Mul(x: real, y: real): real { x * y }

  lemma InputPart(sign: real, g: Matrix, k: seq<Vec>, x: Vec, p: nat)
    requires IsMatrix(g, |g|, |g|) && |k| == |g| && Columns(k, |x|) && p < |g|
    ensures Dot(HistoryBlocks(sign, g, k, |x|).b[p], x) == Mul(sign, Mul(2.0, Dot(g[p], Dots(k, x))))
  {
    InputBlock(sign, g, k, |x|, p);
    hide HistoryBlocks, Dot, Padded, Scale, Combine, Dots, Mul;
    InputRow(sign, g[p], k, x);
  }

  lemma InputBlock(sign: real, g: Matrix, k: seq<Vec>, m: nat, p: nat)
    requires IsMatrix(g, |g|, |g|) && |k| == |g| && Columns(k, m) && p < |g|
    ensures |HistoryBlocks(sign, g, k, m).b| == |g|
    ensures HistoryBlocks(sign, g, k, m).b[p] == Scale(sign, Combine(k, Scale(2.0, g[p]), m))
  {
    hide Dot, Padded, Combine;
  }

  lemma InputRow(sign: real, row: Vec, k: seq<Vec>, x: Vec)
    requires |row| == |k| && Columns(k, |x|)
    ensures Dot(Scale(sign, Combine(k, Scale(2.0, row), |x|)), x) == Mul(sign, Mul(2.0, Dot(row, Dots(k, x))))
  {
    hide Dot, Padded, Scale, Combine, Dots;
    DotScaled(sign, Combine(k, Scale(2.0, row), |x|), x);
    DoubledDot(row, k, x);
  }

  lemma DoubledDot(row: Vec, k: seq<Vec>, x: Vec)
    requires |row| == |k| && Columns(k, |x|)
    ensures Dot(Combine(k, Scale(2.0, row), |x|), x) == Mul(2.0, Dot(row, Dots(k, x)))
  {
    hide Dot, Padded, Scale, Combine, Dots;
    var i := Scale(2.0, row);
    DotCommutes(Combine(k, i, |x|), x);
    DotCombine(x, k, i);
    DotCommutes(Dots(k, x), i);
    DotScaled(2.0, row, Dots(k, x));
  }

  lemma TakeOut(s: real, x: real, y: real)
    ensures s * x + s * y == s * (x + y)
  {
  }

  /** Injecting the history currents: row by row of the network, -K^T h. */
  lemma {:induction false} BlocksInject(sign: real, g: Matrix, k: seq<Vec>, h: Vec, m: nat)
    requires IsMatrix(g, |g|, |g|) && |k| == |g| == |h| && Columns(k, m)
    ensures Combine(HistoryBlocks(sign, g, k, m).c, h, m) == Scale(-1.0, Combine(k, h, m))
  {
    NegatedColumns(HistoryBlocks(sign, g, k, m).c, k, h, m);
  }

  lemma {:induction false} NegatedColumns(c: seq<Vec>, k: seq<Vec>, h: Vec, m: nat)
    requires |c| == |k| == |h| && Columns(c, m) && Columns(k, m) && forall p :: 0 <= p < |c| ==>
               c[p] == Scale(-1.0, k[p])
    ensures Combine(c, h, m) == Scale(-1.0, Combine(k, h, m))
  {
    if c == [] {
      assert forall j :: 0 <= j < m ==> Scale(-1.0, Zeros(m))[j] == 0.0;
    } else {
      hide Combine, Scale;
      NegatedColumns(c[1..], k[1..], h[1..], m);
      forall j | 0 <= j < m ensures Combine(c, h, m)[j] == Scale(-1.0, Combine(k, h, m))[j] {
        CombineFirst(c, h, m, j);
        CombineFirst(k, h, m, j);
        ScaledAt(-1.0, k[0], j);
        ScaledAt(-1.0, Combine(k[1..], h[1..], m), j);
        ScaledAt(-1.0, Combine(k, h, m), j);
        Negate(h[0], k[0][j], Combine(k[1..], h[1..], m)[j]);
      }
    }
  }

  lemma ScaledAt(t: real, a: Vec, j: nat)
    requires j < |a|
    ensures Scale(t, a)[j] == t * a[j]
  {
  }

  lemma CombineFirst(cols: seq<Vec>, i: Vec, n: nat, j: nat)
    requires |cols| == |i| > 0 && Columns(cols, n) && j < n
    ensures Combine(cols, i, n)[j] == i[0] * cols[0][j] + Combine(cols[1..], i[1..], n)[j]
  {
  }

  lemma Negate(x: real, y: real, z: real)
    ensures x * (-1.0 * y) + -1.0 * z == -1.0 * (x * y + z)
  {
  }
}
