module Jacobian {

  // The Jacobian of the power flow equations in polar coordinates: the dense one of
  // PFSolverPowerPolar, and the one of PFSolverPowerPolarSparse with a fixed sparsity pattern.

  import opened SparseMatrices

  /** Conductances and susceptances of the admittance matrix, voltage magnitudes, and sine and cosine
      of the angle differences. */
  datatype Network = Network(nodes: nat, g: (nat, nat) -> real, b: (nat, nat) -> real, v: nat -> real,
                             sine: (nat, nat) -> real, cosine: (nat, nat) -> real)

  function InPhase(net: Network, k: nat, j: nat): real {
    net.g(k, j) * net.cosine(k, j) + net.b(k, j) * net.sine(k, j)
  }

  function Quadrature(net: Network, k: nat, j: nat): real {
    net.g(k, j) * net.sine(k, j) - net.b(k, j) * net.cosine(k, j)
  }

  function SumP(net: Network, k: nat, n: nat): real {
    if n == 0 then 0.0 else SumP(net, k, n - 1) + net.v(n - 1) * InPhase(net, k, n - 1)
  }

  function SumQ(net: Network, k: nat, n: nat): real {
    if n == 0 then 0.0 else SumQ(net, k, n - 1) + net.v(n - 1) * Quadrature(net, k, n - 1)
  }

  function P(net: Network, k: nat): real { net.v(k) * SumP(net, k, net.nodes) }

  function Q(net: Network, k: nat): real { net.v(k) * SumQ(net, k, net.nodes) }

  method ActivePower(net: Network, k: nat) returns (p: real)
    ensures p == P(net, k)
  {
    var val := 0.0;
    for j := 0 to net.nodes
      invariant val == SumP(net, k, j)
    {
      val := val + net.v(j) * (net.g(k, j) * net.cosine(k, j) + net.b(k, j) * net.sine(k, j));
    }
    p := net.v(k) * val;
  }

  method ReactivePower(net: Network, k: nat) returns (q: real)
    ensures q == Q(net, k)
  {
    var val := 0.0;
    for j := 0 to net.nodes
      invariant val == SumQ(net, k, j)
    {
      val := val + net.v(j) * (net.g(k, j) * net.sine(k, j) - net.b(k, j) * net.cosine(k, j));
    }
    q := net.v(k) * val;
  }

  // ---------------------------------------------------------------- the four blocks

  /** dP/dTheta, dP/dV, dQ/dTheta, dQ/dV. */
  datatype Block = J1 | J2 | J3 | J4

  /** The unknowns: an angle for every PQ and PV bus, then a voltage for every PQ bus. buses lists the
      PQ buses first. */
  datatype Unknowns = Unknowns(buses: seq<nat>, pq: nat)

  predicate Proper(u: Unknowns) { u.pq <= |u.buses| }

  function Size(u: Unknowns): nat { |u.buses| + u.pq }

  function Rows(u: Unknowns, block: Block): nat { if block.J1? || block.J2? then |u.buses| else u.pq }

  function Cols(u: Unknowns, block: Block): nat { if block.J1? || block.J3? then |u.buses| else u.pq }

  function RowStart(u: Unknowns, block: Block): nat { if block.J1? || block.J2? then 0 else |u.buses| }

  function ColStart(u: Unknowns, block: Block): nat { if block.J1? || block.J3? then 0 else |u.buses| }

  function Diagonal(net: Network, block: Block, k: nat): real {
    match block
    case J1 => -Q(net, k) - net.b(k, k) * net.v(k) * net.v(k)
    case J2 => P(net, k) + net.g(k, k) * net.v(k) * net.v(k)
    case J3 => P(net, k) - net.g(k, k) * net.v(k) * net.v(k)
    case J4 => Q(net, k) - net.b(k, k) * net.v(k) * net.v(k)
  }

  function OffDiagonal(net: Network, block: Block, k: nat, j: nat): real {
    match block
    case J1 => net.v(k) * net.v(j) * Quadrature(net, k, j)
    case J2 => net.v(k) * net.v(j) * InPhase(net, k, j)
    case J3 => -(net.v(k) * net.v(j) * InPhase(net, k, j))
    case J4 => net.v(k) * net.v(j) * Quadrature(net, k, j)
  }

  predicate InBlock(u: Unknowns, block: Block, r: nat, c: nat) {
    RowStart(u, block) <= r < RowStart(u, block) + Rows(u, block) &&
      ColStart(u, block) <= c < ColStart(u, block) + Cols(u, block)
  }

  /** The block that holds an entry. */
  function BlockOf(u: Unknowns, r: nat, c: nat): Block {
    if r < |u.buses| then (if c < |u.buses| then J1 else J2) else (if c < |u.buses| then J3 else J4)
  }

  /** The entry in row r and column c. */
  function Entry(net: Network, u: Unknowns, r: nat, c: nat): real
    requires Proper(u) && r < Size(u) && c < Size(u)
  {
    var block := BlockOf(u, r, c);
    var a, b := r - RowStart(u, block), c - ColStart(u, block);
    if a == b then Diagonal(net, block, u.buses[a]) else OffDiagonal(net, block, u.buses[a], u.buses[b])
  }

  predicate Connected(net: Network, k: nat, j: nat) {
    net.g(k, j) != 0.0 || net.b(k, j) != 0.0
  }

  /** The structural entries: diagonals, and pairs of connected buses. */
  predicate InPattern(net: Network, u: Unknowns, r: nat, c: nat)
    requires Proper(u) && r < Size(u) && c < Size(u)
  {
    var block := BlockOf(u, r, c);
    var a, b := r - RowStart(u, block), c - ColStart(u, block);
    a == b || Connected(net, u.buses[a], u.buses[b])
  }

  /** Entries outside the pattern are zero. */
  lemma {:induction false} OutsideIsZero(net: Network, u: Unknowns, r: nat, c: nat)
    requires Proper(u) && r < Size(u) && c < Size(u) && !InPattern(net, u, r, c)
    ensures Entry(net, u, r, c) == 0.0
  {
    var block := BlockOf(u, r, c);
    ZeroOffDiagonal(net, block, u.buses[r - RowStart(u, block)], u.buses[c - ColStart(u, block)]);
  }

  lemma ZeroOffDiagonal(net: Network, block: Block, k: nat, j: nat)
    requires !Connected(net, k, j)
    ensures OffDiagonal(net, block, k, j) == 0.0
  {
    assert InPhase(net, k, j) == 0.0 && Quadrature(net, k, j) == 0.0;
    assert net.v(k) * net.v(j) * 0.0 == 0.0;
  }

  /** The off-diagonal entries of bus k against all other buses below n, the slack bus included. */
  function OffSum(net: Network, block: Block, k: nat, n: nat): real {
    if n == 0 then 0.0 else OffSum(net, block, k, n - 1) + if n - 1 == k then 0.0 else OffDiagonal(net, block, k, n - 1)
  }

  /** An angle difference of zero. */
  predicate AngleZero(net: Network, k: nat) {
    net.sine(k, k) == 0.0 && net.cosine(k, k) == 1.0
  }

  function Squared(net: Network, k: nat, x: real): real { x * net.v(k) * net.v(k) }

  lemma {:induction false} OffSumsInPhase(net: Network, k: nat, n: nat)
    requires AngleZero(net, k)
    ensures OffSum(net, J2, k, n) == Mul(net.v(k), SumP(net, k, n)) -
              if k < n then Squared(net, k, net.g(k, k)) else 0.0
    ensures OffSum(net, J3, k, n) == -OffSum(net, J2, k, n)
  {
    if n > 0 {
      OffSumsInPhase(net, k, n - 1);
      InPhaseStep(net, k, n - 1);
      hide SumP, Squared, OffDiagonal, AngleZero, Mul;
    }
  }

  /** What bus j adds to both sides. */
  lemma InPhaseStep(net: Network, k: nat, j: nat)
    requires AngleZero(net, k)
    ensures Mul(net.v(k), SumP(net, k, j + 1)) == Mul(net.v(k), SumP(net, k, j)) +
              if j == k then Squared(net, k, net.g(k, k)) else OffDiagonal(net, J2, k, j)
    ensures OffDiagonal(net, J3, k, j) == -OffDiagonal(net, J2, k, j)
  {
    OwnTerms(net, k);
    Spread(net.v(k), SumP(net, k, j), net.v(j), InPhase(net, k, j));
    hide InPhase, Squared;
  }

  lemma {:induction false} OffSumsQuadrature(net: Network, k: nat, n: nat)
    requires AngleZero(net, k)
    ensures OffSum(net, J1, k, n) == Mul(net.v(k), SumQ(net, k, n)) +
              if k < n then Squared(net, k, net.b(k, k)) else 0.0
    ensures OffSum(net, J4, k, n) == OffSum(net, J1, k, n)
  {
    if n > 0 {
      OffSumsQuadrature(net, k, n - 1);
      QuadratureStep(net, k, n - 1);
      hide SumQ, Squared, OffDiagonal, AngleZero, Mul;
    }
  }

  lemma QuadratureStep(net: Network, k: nat, j: nat)
    requires AngleZero(net, k)
    ensures Mul(net.v(k), SumQ(net, k, j + 1)) == Mul(net.v(k), SumQ(net, k, j)) +
              if j == k then -Squared(net, k, net.b(k, k)) else OffDiagonal(net, J1, k, j)
    ensures OffDiagonal(net, J4, k, j) == OffDiagonal(net, J1, k, j)
  {
    OwnTerms(net, k);
    Spread(net.v(k), SumQ(net, k, j), net.v(j), Quadrature(net, k, j));
    hide Quadrature, Squared;
  }

  lemma Spread(x: real, s: real, y: real, z: real)
    ensures x * (s + y * z) == x * s + x * y * z
  {
  }

  lemma OwnTerms(net: Network, k: nat)
    requires AngleZero(net, k)
    ensures net.v(k) * net.v(k) * InPhase(net, k, k) == Squared(net, k, net.g(k, k))
    ensures net.v(k) * net.v(k) * Quadrature(net, k, k) == -Squared(net, k, net.b(k, k))
  {
    assert InPhase(net, k, k) == net.g(k, k) && Quadrature(net, k, k) == -net.b(k, k);
  }

  /** The angle derivatives of a bus add up to zero over all buses: turning all angles together
      changes no power. The relative voltage derivatives add up to twice the power: it grows with the
      square of a common factor on all voltages. */
  lemma {:induction false} DerivativesBalance(net: Network, k: nat)
    requires AngleZero(net, k) && k < net.nodes
    ensures Diagonal(net, J1, k) + OffSum(net, J1, k, net.nodes) == 0.0
    ensures Diagonal(net, J3, k) + OffSum(net, J3, k, net.nodes) == 0.0
    ensures Diagonal(net, J2, k) + OffSum(net, J2, k, net.nodes) == 2.0 * P(net, k)
    ensures Diagonal(net, J4, k) + OffSum(net, J4, k, net.nodes) == 2.0 * Q(net, k)
  {
    OffSumsInPhase(net, k, net.nodes);
    OffSumsQuadrature(net, k, net.nodes);
    PowersAre(net, k);
    hide OffSum, SumP, SumQ, P, Q, Squared, Diagonal, Mul;
  }

  // ---------------------------------------------------------------- every entry is a derivative

  /** The entry of a block for row bus k and column bus j. */
  function Derivative(net: Network, block: Block, k: nat, j: nat): real {
    if k == j then Diagonal(net, block, k) else OffDiagonal(net, block, k, j)
  }

  /** The matrix holds the derivatives for the row bus and the column bus of each entry. */
  lemma EntryIsDerivative(net: Network, u: Unknowns, r: nat, c: nat)
    requires Proper(u) && r < Size(u) && c < Size(u) && forall i, j :: 0 <= i < j < |u.buses| ==>
               u.buses[i] != u.buses[j]
    ensures var block := BlockOf(u, r, c);
            Entry(net, u, r, c) == Derivative(net, block, u.buses[r - RowStart(u, block)],
                                              u.buses[c - ColStart(u, block)])
  {
  }

  /** The network with the voltage of bus j multiplied by 1 + e. */
  function Raised(net: Network, j: nat, e: real): Network {
    net.(v := (i: nat) => if i == j then net.v(i) + e * net.v(i) else net.v(i))
  }

  /** The network with the angle of bus j increased by an angle of cosine c and sine s. */
  function Turned(net: Network, j: nat, c: real, s: real): Network {
    net.(sine := (a: nat, b: nat) => TurnedSine(net, j, c, s, a, b),
         cosine := (a: nat, b: nat) => TurnedCosine(net, j, c, s, a, b))
  }

  function TurnedSine(net: Network, j: nat, c: real, s: real, a: nat, b: nat): real {
    if a == j && b != j then net.sine(a, b) * c + net.cosine(a, b) * s
    else if a != j && b == j then net.sine(a, b) * c - net.cosine(a, b) * s
    else net.sine(a, b)
  }

  function TurnedCosine(net: Network, j: nat, c: real, s: real, a: nat, b: nat): real {
    if a == j && b != j then net.cosine(a, b) * c - net.sine(a, b) * s
    else if a != j && b == j then net.cosine(a, b) * c + net.sine(a, b) * s
    else net.cosine(a, b)
  }

  function TermP(net: Network, k: nat, j: nat): real { net.v(j) * InPhase(net, k, j) }

  function TermQ(net: Network, k: nat, j: nat): real { net.v(j) * Quadrature(net, k, j) }

  lemma SumStep(net: Network, k: nat, n: nat)
    ensures SumP(net, k, n + 1) == SumP(net, k, n) + TermP(net, k, n)
    ensures SumQ(net, k, n + 1) == SumQ(net, k, n) + TermQ(net, k, n)
  {
  }

  lemma RaisedTerm(net: Network, k: nat, j: nat, e: real, i: nat)
    ensures TermP(Raised(net, j, e), k, i) == TermP(net, k, i) + if i == j then Mul(e, TermP(net, k, j)) else 0.0
    ensures TermQ(Raised(net, j, e), k, i) == TermQ(net, k, i) + if i == j then Mul(e, TermQ(net, k, j)) else 0.0
  {
    assert InPhase(Raised(net, j, e), k, i) == InPhase(net, k, i);
    assert Quadrature(Raised(net, j, e), k, i) == Quadrature(net, k, i);
    hide InPhase, Quadrature;
  }

  lemma {:induction false} RaisedSums(net: Network, k: nat, j: nat, e: real, n: nat)
    ensures SumP(Raised(net, j, e), k, n) == SumP(net, k, n) + if j < n then Mul(e, TermP(net, k, j)) else 0.0
    ensures SumQ(Raised(net, j, e), k, n) == SumQ(net, k, n) + if j < n then Mul(e, TermQ(net, k, j)) else 0.0
  {
    if n > 0 {
      RaisedSums(net, k, j, e, n - 1);
      RaisedTerm(net, k, j, e, n - 1);
      SumStep(net, k, n - 1);
      SumStep(Raised(net, j, e), k, n - 1);
      hide SumP, SumQ, TermP, TermQ, Raised, Mul;
    }
  }

  /** A product that the solver does not multiply out. */
  function Mul(x: real, y: real): real { x * y }

  lemma MulSum(x: real, y: real, z: real)
    ensures Mul(x, y + z) == Mul(x, y) + Mul(x, z) && Mul(x, y - z) == Mul(x, y) - Mul(x, z)
    ensures Mul(x, -y) == -Mul(x, y) && Mul(-x, y) == -Mul(x, y)
  {
  }

  lemma MulSwap(x: real, y: real, z: real)
    ensures Mul(x, Mul(y, z)) == Mul(y, Mul(x, z))
  {
  }

  /** Turning bus j changes a term of bus k if exactly one of the two buses of the term is j. */
  lemma TurnedTerm(net: Network, k: nat, j: nat, c: real, s: real, i: nat)
    ensures var tp, tq, turned := TermP(net, k, i), TermQ(net, k, i), Turned(net, j, c, s);
            if (k == j) == (i == j) then TermP(turned, k, i) == tp && TermQ(turned, k, i) == tq
            else
              var sign := if k == j then -s else s;
              TermP(turned, k, i) == tp + Mul(c - 1.0, tp) + Mul(sign, tq) &&
                TermQ(turned, k, i) == tq + Mul(c - 1.0, tq) - Mul(sign, tp)
  {
    TurnedPhases(net, j, c, s, k, i);
    var sign := if k == j then -s else s;
    TwoParts(net.v(i), c, sign, InPhase(net, k, i), Quadrature(net, k, i));
    TwoParts(net.v(i), c, -sign, Quadrature(net, k, i), InPhase(net, k, i));
    hide InPhase, Quadrature;
  }

  lemma TurnedPhases(net: Network, j: nat, c: real, s: real, a: nat, b: nat)
    ensures var sign := if a == j then -s else s;
            if (a == j) == (b == j) then
              InPhase(Turned(net, j, c, s), a, b) == InPhase(net, a, b) &&
                Quadrature(Turned(net, j, c, s), a, b) == Quadrature(net, a, b)
            else
              && InPhase(Turned(net, j, c, s), a, b) == c * InPhase(net, a, b) + sign * Quadrature(net, a, b)
              && Quadrature(Turned(net, j, c, s), a, b) == c * Quadrature(net, a, b) + (-sign) * InPhase(net, a, b)
  {
    var sign, g, h, x, y := if a == j then -s else s, net.g(a, b), net.b(a, b), net.cosine(a, b), net.sine(a, b);
    Rotate(g, h, x, y, c, sign);
    if (a == j) != (b == j) {
      assert Turned(net, j, c, s).cosine(a, b) == x * c + y * sign &&
             Turned(net, j, c, s).sine(a, b) == y * c - x * sign;
    }
  }

  lemma Rotate(g: real, h: real, x: real, y: real, c: real, s: real)
    ensures g * (x * c + y * s) + h * (y * c - x * s) == c * (g * x + h * y) + s * (g * y - h * x)
    ensures g * (y * c - x * s) - h * (x * c + y * s) == c * (g * y - h * x) + (-s) * (g * x + h * y)
  {
  }

  lemma TwoParts(v: real, c: real, s: real, x: real, y: real)
    ensures v * (c * x + s * y) == v * x + ((c - 1.0) * (v * x) + s * (v * y))
    ensures (-s) * (v * y) == -(s * (v * y))
  {
  }

  /** Turning another bus. */
  lemma {:induction false} TurnedOther(net: Network, k: nat, j: nat, c: real, s: real, n: nat)
    requires k != j
    ensures SumP(Turned(net, j, c, s), k, n) == SumP(net, k, n) +
              if j < n then Mul(c - 1.0, TermP(net, k, j)) + Mul(s, TermQ(net, k, j)) else 0.0
    ensures SumQ(Turned(net, j, c, s), k, n) == SumQ(net, k, n) +
              if j < n then Mul(c - 1.0, TermQ(net, k, j)) - Mul(s, TermP(net, k, j)) else 0.0
  {
    if n > 0 {
      TurnedOther(net, k, j, c, s, n - 1);
      TurnedTerm(net, k, j, c, s, n - 1);
      SumStep(net, k, n - 1);
      SumStep(Turned(net, j, c, s), k, n - 1);
      hide SumP, SumQ, TermP, TermQ, Turned, Mul;
    }
  }

  /** The sums over all buses but k. */
  function OthersP(net: Network, k: nat, n: nat): real { SumP(net, k, n) - if k < n then TermP(net, k, k) else 0.0 }

  function OthersQ(net: Network, k: nat, n: nat): real { SumQ(net, k, n) - if k < n then TermQ(net, k, k) else 0.0 }

  lemma OthersStep(net: Network, k: nat, n: nat)
    ensures OthersP(net, k, n + 1) == OthersP(net, k, n) + if n == k then 0.0 else TermP(net, k, n)
    ensures OthersQ(net, k, n + 1) == OthersQ(net, k, n) + if n == k then 0.0 else TermQ(net, k, n)
  {
    SumStep(net, k, n);
    hide SumP, SumQ, TermP, TermQ;
  }

  /** Turning the bus itself: all terms but its own turn. */
  lemma {:induction false} TurnedOwn(net: Network, k: nat, c: real, s: real, n: nat)
    ensures SumP(Turned(net, k, c, s), k, n) == SumP(net, k, n) +
            Mul(c - 1.0, OthersP(net, k, n)) - Mul(s, OthersQ(net, k, n))
    ensures SumQ(Turned(net, k, c, s), k, n) == SumQ(net, k, n) + Mul(c - 1.0, OthersQ(net, k, n)) +
            Mul(s, OthersP(net, k, n))
  {
    if n > 0 {
      TurnedOwn(net, k, c, s, n - 1);
      TurnedTerm(net, k, k, c, s, n - 1);
      SumStep(net, k, n - 1);
      SumStep(Turned(net, k, c, s), k, n - 1);
      OthersStep(net, k, n - 1);
      var p, q, tp, tq := OthersP(net, k, n - 1), OthersQ(net, k, n - 1), TermP(net, k, n - 1), TermQ(net, k, n - 1);
      MulSum(c - 1.0, p, tp);
      MulSum(c - 1.0, q, tq);
      MulSum(s, p, tp);
      MulSum(s, q, tq);
      MulSum(s, tp, 0.0);
      MulSum(s, tq, 0.0);
      hide SumP, SumQ, TermP, TermQ, OthersP, OthersQ, Turned, Mul;
    }
  }

  /** What the bus's own terms and the terms of others are, times its voltage. */
  lemma TermsAre(net: Network, k: nat, j: nat)
    requires AngleZero(net, k)
    ensures Mul(net.v(k), TermP(net, k, k)) == Squared(net, k, net.g(k, k))
    ensures Mul(net.v(k), TermQ(net, k, k)) == -Squared(net, k, net.b(k, k))
    ensures Mul(net.v(k), TermP(net, k, j)) == OffDiagonal(net, J2, k, j) == -OffDiagonal(net, J3, k, j)
    ensures Mul(net.v(k), TermQ(net, k, j)) == OffDiagonal(net, J1, k, j) == OffDiagonal(net, J4, k, j)
  {
    OwnTerms(net, k);
    Reassociate(net.v(k), net.v(j), InPhase(net, k, j));
    Reassociate(net.v(k), net.v(j), Quadrature(net, k, j));
    Reassociate(net.v(k), net.v(k), InPhase(net, k, k));
    Reassociate(net.v(k), net.v(k), Quadrature(net, k, k));
    hide InPhase, Quadrature, Squared;
  }

  lemma Reassociate(x: real, y: real, z: real)
    ensures x * (y * z) == x * y * z
  {
  }

  lemma PowersAre(net: Network, k: nat)
    ensures P(net, k) == Mul(net.v(k), SumP(net, k, net.nodes)) && Q(net, k) == Mul(net.v(k), SumQ(net, k, net.nodes))
    ensures Diagonal(net, J1, k) == -Q(net, k) - Squared(net, k, net.b(k, k)) &&
            Diagonal(net, J2, k) == P(net, k) + Squared(net, k, net.g(k, k))
    ensures Diagonal(net, J3, k) == P(net, k) - Squared(net, k, net.g(k, k)) &&
            Diagonal(net, J4, k) == Q(net, k) - Squared(net, k, net.b(k, k))
  {
    hide SumP, SumQ;
  }

  /** The J2 and J4 entries are the derivatives with respect to the relative change e of a voltage:
      what remains is zero, or of second order in e for the bus itself. */
  lemma {:induction false} VoltageDerivative(net: Network, k: nat, j: nat, e: real)
    requires AngleZero(net, k) && k < net.nodes && j < net.nodes
    ensures P(Raised(net, j, e), k) == P(net, k) + e * Derivative(net, J2, k, j) +
              if k == j then e * e * Squared(net, k, net.g(k, k)) else 0.0
    ensures Q(Raised(net, j, e), k) == Q(net, k) + e * Derivative(net, J4, k, j) -
              if k == j then e * e * Squared(net, k, net.b(k, k)) else 0.0
  {
    VoltagePowers(net, k, j, e);
    Reassociate(e, e, Squared(net, k, net.g(k, k)));
    Reassociate(e, e, Squared(net, k, net.b(k, k)));
    hide P, Q, Raised, Diagonal, OffDiagonal, Squared;
  }

  lemma {:induction false} VoltagePowers(net: Network, k: nat, j: nat, e: real)
    requires AngleZero(net, k) && k < net.nodes && j < net.nodes
    ensures P(Raised(net, j, e), k) == P(net, k) + Mul(e, Derivative(net, J2, k, j)) +
              if k == j then Mul(e, Mul(e, Squared(net, k, net.g(k, k)))) else 0.0
    ensures Q(Raised(net, j, e), k) == Q(net, k) + Mul(e, Derivative(net, J4, k, j)) -
              if k == j then Mul(e, Mul(e, Squared(net, k, net.b(k, k)))) else 0.0
  {
    if k == j { RaisedSelf(net, k, e); } else { RaisedNeighbour(net, k, j, e); }
  }

  lemma RaisedSelf(net: Network, k: nat, e: real)
    requires AngleZero(net, k) && k < net.nodes
    ensures P(Raised(net, k, e), k) == P(net, k) + Mul(e, Diagonal(net, J2, k)) +
            Mul(e, Mul(e, Squared(net, k, net.g(k, k))))
    ensures Q(Raised(net, k, e), k) == Q(net, k) + Mul(e, Diagonal(net, J4, k)) - Mul(e,
        Mul(e, Squared(net, k, net.b(k, k))))
  {
    RaisedSums(net, k, k, e, net.nodes);
    TermsAre(net, k, k);
    PowersAre(net, k);
    PowersAre(Raised(net, k, e), k);
    var v, p, q := net.v(k), SumP(net, k, net.nodes), SumQ(net, k, net.nodes);
    assert Raised(net, k, e).v(k) == v + Mul(e, v) && Raised(net, k, e).nodes == net.nodes;
    hide P, Q, SumP, SumQ, TermP, TermQ, Squared, Raised, Mul, Diagonal, OffDiagonal, AngleZero;
    RaisedOwn(v, p, TermP(net, k, k), e);
    RaisedOwn(v, q, TermQ(net, k, k), e);
    MulSum(e, Squared(net, k, net.b(k, k)), 0.0);
    MulSum(e, Mul(e, Squared(net, k, net.b(k, k))), 0.0);
  }

  lemma RaisedNeighbour(net: Network, k: nat, j: nat, e: real)
    requires AngleZero(net, k) && j < net.nodes && k != j
    ensures P(Raised(net, j, e), k) == P(net, k) + Mul(e, OffDiagonal(net, J2, k, j))
    ensures Q(Raised(net, j, e), k) == Q(net, k) + Mul(e, OffDiagonal(net, J4, k, j))
  {
    RaisedSums(net, k, j, e, net.nodes);
    TermsAre(net, k, j);
    PowersAre(net, k);
    PowersAre(Raised(net, j, e), k);
    var v, p, q := net.v(k), SumP(net, k, net.nodes), SumQ(net, k, net.nodes);
    assert Raised(net, j, e).v(k) == v && Raised(net, j, e).nodes == net.nodes;
    hide P, Q, SumP, SumQ, TermP, TermQ, Squared, Raised, Mul, Diagonal, OffDiagonal, AngleZero;
    RaisedOther(v, p, TermP(net, k, j), e);
    RaisedOther(v, q, TermQ(net, k, j), e);
  }

  lemma RaisedOther(v: real, sum: real, x: real, e: real)
    ensures Mul(v, sum + Mul(e, x)) == Mul(v, sum) + Mul(e, Mul(v, x))
  {
    MulSum(v, sum, Mul(e, x));
    MulSwap(v, e, x);
  }

  lemma RaisedOwn(v: real, sum: real, x: real, e: real)
    ensures Mul(v + Mul(e, v), sum + Mul(e, x)) == Mul(v, sum) + Mul(e, Mul(v, sum) + Mul(v, x)) +
            Mul(e, Mul(e, Mul(v, x)))
  {
    RaisedOther(v, sum, x, e);
    assert Mul(v + Mul(e, v), sum + Mul(e, x)) == Mul(v, sum + Mul(e, x)) + Mul(e, Mul(v, sum + Mul(e, x)));
    MulSum(e, Mul(v, sum), Mul(e, Mul(v, x)));
    MulSum(e, Mul(v, sum), Mul(v, x));
    hide Mul;
  }

  /** The J1 and J3 entries are the derivatives with respect to an angle: the sine of the change has
      them as factor, and what remains has the factor cosine minus one. */
  lemma {:induction false} AngleDerivative(net: Network, k: nat, j: nat, c: real, s: real)
    requires AngleZero(net, k) && k < net.nodes && j < net.nodes
    ensures P(Turned(net, j, c, s), k) == P(net, k) + s * Derivative(net, J1, k, j) +
              (c - 1.0) * if k == j then Diagonal(net, J3, k) else OffDiagonal(net, J2, k, j)
    ensures Q(Turned(net, j, c, s), k) == Q(net, k) + s * Derivative(net, J3, k, j) +
              (c - 1.0) * if k == j then -Diagonal(net, J1, k) else OffDiagonal(net, J4, k, j)
  {
    AnglePowers(net, k, j, c, s);
    hide P, Q, Turned, Diagonal, OffDiagonal;
  }

  lemma {:induction false} AnglePowers(net: Network, k: nat, j: nat, c: real, s: real)
    requires AngleZero(net, k) && k < net.nodes && j < net.nodes
    ensures P(Turned(net, j, c, s), k) == P(net, k) + Mul(s, Derivative(net, J1, k, j)) +
              Mul(c - 1.0, if k == j then Diagonal(net, J3, k) else OffDiagonal(net, J2, k, j))
    ensures Q(Turned(net, j, c, s), k) == Q(net, k) + Mul(s, Derivative(net, J3, k, j)) +
              Mul(c - 1.0, if k == j then -Diagonal(net, J1, k) else OffDiagonal(net, J4, k, j))
  {
    if k == j { TurnedSelf(net, k, c, s); } else { TurnedNeighbour(net, k, j, c, s); }
  }

  lemma TurnedSelf(net: Network, k: nat, c: real, s: real)
    requires AngleZero(net, k) && k < net.nodes
    ensures P(Turned(net, k, c, s), k) == P(net, k) + Mul(s, Diagonal(net, J1, k)) + Mul(c - 1.0, Diagonal(net, J3, k))
    ensures Q(Turned(net, k, c, s), k) == Q(net, k) + Mul(s, Diagonal(net, J3, k)) + Mul(c - 1.0, -Diagonal(net, J1, k))
  {
    TermsAre(net, k, k);
    PowersAre(net, k);
    PowersAre(Turned(net, k, c, s), k);
    TurnedOwn(net, k, c, s, net.nodes);
    var v, p, q := net.v(k), SumP(net, k, net.nodes), SumQ(net, k, net.nodes);
    var x, y := OthersP(net, k, net.nodes), OthersQ(net, k, net.nodes);
    assert Turned(net, k, c, s).v(k) == v && Turned(net, k, c, s).nodes == net.nodes;
    assert x == p - TermP(net, k, k) && y == q - TermQ(net, k, k);
    hide P, Q, SumP, SumQ, TermP, TermQ, OthersP, OthersQ, Squared, Turned, Mul, Diagonal, OffDiagonal, AngleZero;
    MulSum(v, p, TermP(net, k, k));
    MulSum(v, q, TermQ(net, k, k));
    TurnedProduct(v, p, c - 1.0, x, -s, y);
    TurnedProduct(v, q, c - 1.0, y, s, x);
    MulSum(s, Mul(v, y), 0.0);
    MulSum(s, y, 0.0);
  }

  lemma TurnedNeighbour(net: Network, k: nat, j: nat, c: real, s: real)
    requires AngleZero(net, k) && j < net.nodes && k != j
    ensures P(Turned(net, j, c, s), k) == P(net, k) + Mul(s, OffDiagonal(net, J1, k, j)) +
            Mul(c - 1.0, OffDiagonal(net, J2, k, j))
    ensures Q(Turned(net, j, c, s), k) == Q(net, k) + Mul(s, OffDiagonal(net, J3, k, j)) +
            Mul(c - 1.0, OffDiagonal(net, J4, k, j))
  {
    TermsAre(net, k, j);
    PowersAre(net, k);
    PowersAre(Turned(net, j, c, s), k);
    TurnedOther(net, k, j, c, s, net.nodes);
    var v, p, q := net.v(k), SumP(net, k, net.nodes), SumQ(net, k, net.nodes);
    var tp, tq := TermP(net, k, j), TermQ(net, k, j);
    assert Turned(net, j, c, s).v(k) == v && Turned(net, j, c, s).nodes == net.nodes;
    hide P, Q, SumP, SumQ, TermP, TermQ, Squared, Turned, Mul, Diagonal, OffDiagonal, AngleZero;
    TurnedProduct(v, p, c - 1.0, tp, s, tq);
    TurnedProduct(v, q, c - 1.0, tq, -s, tp);
    MulSum(s, Mul(v, tp), 0.0);
    MulSum(s, tp, 0.0);
  }

  lemma TurnedProduct(v: real, sum: real, a: real, x: real, b: real, y: real)
    ensures Mul(v, sum + Mul(a, x) + Mul(b, y)) == Mul(v, sum) + Mul(a, Mul(v, x)) + Mul(b, Mul(v, y))
  {
    MulSum(v, sum + Mul(a, x), Mul(b, y));
    MulSum(v, sum, Mul(a, x));
    MulSwap(v, a, x);
    MulSwap(v, b, y);
    hide Mul;
  }

  // ---------------------------------------------------------------- the dense matrix

  method DiagonalValue(net: Network, block: Block, k: nat) returns (val: real)
    ensures val == Diagonal(net, block, k)
  {
    match block {
      case J1 => var q := ReactivePower(net, k); val := -q - net.b(k, k) * net.v(k) * net.v(k);
      case J2 => var p := ActivePower(net, k); val := p + net.g(k, k) * net.v(k) * net.v(k);
      case J3 => var p := ActivePower(net, k); val := p - net.g(k, k) * net.v(k) * net.v(k);
      case J4 => var q := ReactivePower(net, k); val := q - net.b(k, k) * net.v(k) * net.v(k);
    }
  }

  method OffDiagonalValue(net: Network, block: Block, k: nat, j: nat) returns (val: real)
    ensures val == OffDiagonal(net, block, k, j)
  {
    if block.J1? || block.J4? {
      val := net.v(k) * net.v(j) * (net.g(k, j) * net.sine(k, j) - net.b(k, j) * net.cosine(k, j));
    } else {
      val := net.v(k) * net.v(j) * (net.g(k, j) * net.cosine(k, j) + net.b(k, j) * net.sine(k, j));
    }
    if block.J3? {
      val := -val;
    }
  }

  /** Row a of a block, up to column b; the diagonal is written first. */
  predicate InRow(u: Unknowns, block: Block, a: nat, b: nat, r: nat, c: nat) {
    r == RowStart(u, block) + a && InBlock(u, block, r, c) &&
      (c < ColStart(u, block) + b || c == ColStart(u, block) + a)
  }

  lemma BlockEntry(net: Network, u: Unknowns, block: Block, a: nat, b: nat)
    requires Proper(u) && a < Rows(u, block) && b < Cols(u, block)
    ensures a < |u.buses| && b < |u.buses| && RowStart(u, block) + a < Size(u) && ColStart(u, block) + b < Size(u)
    ensures BlockOf(u, RowStart(u, block) + a, ColStart(u, block) + b) == block
    ensures Entry(net, u, RowStart(u, block) + a, ColStart(u, block) + b) ==
            if a == b then Diagonal(net, block, u.buses[a]) else OffDiagonal(net, block, u.buses[a], u.buses[b])
    ensures InPattern(net, u, RowStart(u, block) + a, ColStart(u, block) + b) <==>
              a == b || Connected(net, u.buses[a], u.buses[b])
  {
  }

  /** Row a of one block. In the last block zeros are not written, as the matrix has been cleared. */
  method FillRow(net: Network, u: Unknowns, block: Block, a: nat, m: array2<real>)
    requires Proper(u) && m.Length0 == m.Length1 == Size(u) && a < Rows(u, block)
    requires forall r: nat, c: nat ::
               r < Size(u) && c < Size(u) && InBlock(u, block, r, c) && r >= RowStart(u, block) + a ==> m[r, c] == 0.0
    modifies m
    ensures forall r: nat, c: nat :: r < Size(u) && c < Size(u) ==>
              m[r, c] == if InRow(u, block, a, Cols(u, block), r, c) then Entry(net, u, r, c) else old(m[r, c])
  {
    hide Entry, Diagonal, OffDiagonal;
    var da, db := RowStart(u, block), ColStart(u, block);
    if a < Cols(u, block) {
      BlockEntry(net, u, block, a, a);
      var diagonal := DiagonalValue(net, block, u.buses[a]);
      m[a + da, a + db] := diagonal;
    }
    for b := 0 to Cols(u, block)
      invariant forall r: nat, c: nat :: r < Size(u) && c < Size(u) ==>
                  m[r, c] == if InRow(u, block, a, b, r, c) then Entry(net, u, r, c) else old(m[r, c])
    {
      BlockEntry(net, u, block, a, b);
      if b != a {
        var val := OffDiagonalValue(net, block, u.buses[a], u.buses[b]);
        if !block.J4? || val != 0.0 {
          m[a + da, b + db] := val;
        }
      }
    }
  }

  predicate RowsBelow(u: Unknowns, block: Block, a: nat, r: nat, c: nat) {
    InBlock(u, block, r, c) && r < RowStart(u, block) + a
  }

  method FillBlock(net: Network, u: Unknowns, block: Block, m: array2<real>)
    requires Proper(u) && m.Length0 == m.Length1 == Size(u)
    requires forall r: nat, c: nat :: r < Size(u) && c < Size(u) && InBlock(u, block, r, c) ==> m[r, c] == 0.0
    modifies m
    ensures forall r: nat, c: nat :: r < Size(u) && c < Size(u) ==>
              m[r, c] == if InBlock(u, block, r, c) then Entry(net, u, r, c) else old(m[r, c])
  {
    hide Entry, Diagonal, OffDiagonal;
    for a := 0 to Rows(u, block)
      invariant forall r: nat, c: nat :: r < Size(u) && c < Size(u) ==>
                  m[r, c] == if RowsBelow(u, block, a, r, c) then Entry(net, u, r, c) else old(m[r, c])
    {
      FillRow(net, u, block, a, m);
    }
  }

  /** PFSolverPowerPolar::calculateJacobian. */
  method CalculateDense(net: Network, u: Unknowns, m: array2<real>)
    requires Proper(u) && m.Length0 == m.Length1 == Size(u)
    modifies m
    ensures forall r: nat, c: nat :: r < Size(u) && c < Size(u) ==> m[r, c] == Entry(net, u, r, c)
  {
    hide Entry;
    forall r, c | 0 <= r < m.Length0 && 0 <= c < m.Length1 {
      m[r, c] := 0.0;
    }
    FillBlock(net, u, J1, m);
    FillBlock(net, u, J2, m);
    FillBlock(net, u, J3, m);
    FillBlock(net, u, J4, m);
  }

  // ---------------------------------------------------------------- the sparse matrix

  function EntryAt(net: Network, u: Unknowns, k: Position): real
    requires Proper(u)
  {
    if k.0 < Size(u) && k.1 < Size(u) then Entry(net, u, k.0, k.1) else 0.0
  }

  function PositionIn(u: Unknowns, block: Block, a: nat, b: nat): Position {
    (RowStart(u, block) + a, ColStart(u, block) + b)
  }

  /** The structural positions of row a of a block, up to column b. */
  function RowPattern(net: Network, u: Unknowns, block: Block, a: nat, b: nat): set<Position>
    requires Proper(u) && a < Rows(u, block) && b <= Cols(u, block)
  {
    if b == 0 then {} else
    BlockEntry(net, u, block, a, b - 1);
    RowPattern(net, u, block, a, b - 1) +
    if a == b - 1 || Connected(net, u.buses[a], u.buses[b - 1]) then {PositionIn(u, block, a, b - 1)} else {}
  }

  /** Those of the first n rows of a block. */
  function BlockPattern(net: Network, u: Unknowns, block: Block, n: nat): set<Position>
    requires Proper(u) && n <= Rows(u, block)
  {
    if n == 0 then {} else BlockPattern(net, u, block, n - 1) + RowPattern(net, u, block, n - 1, Cols(u, block))
  }

  function DiagonalOf(u: Unknowns, block: Block, a: nat): set<Position> {
    if a < Cols(u, block) then {PositionIn(u, block, a, a)} else {}
  }

  lemma {:induction false} RowPatternMeans(net: Network, u: Unknowns, block: Block, a: nat, b: nat, k: Position)
    requires Proper(u) && a < Rows(u, block) && b <= Cols(u, block)
    ensures k in RowPattern(net, u, block, a, b) <==>
              k.0 == RowStart(u, block) + a && ColStart(u, block) <= k.1 < ColStart(u, block) + b && k.0 < Size(u) &&
                k.1 < Size(u) && InPattern(net, u, k.0, k.1)
  {
    if b > 0 {
      RowPatternMeans(net, u, block, a, b - 1, k);
      BlockEntry(net, u, block, a, b - 1);
    }
  }

  lemma {:induction false} BlockPatternMeans(net: Network, u: Unknowns, block: Block, n: nat, k: Position)
    requires Proper(u) && n <= Rows(u, block)
    ensures k in BlockPattern(net, u, block, n) <==>
              k.0 < Size(u) && k.1 < Size(u) && InBlock(u, block, k.0, k.1) && k.0 < RowStart(u, block) + n &&
                InPattern(net, u, k.0, k.1)
  {
    if n > 0 {
      BlockPatternMeans(net, u, block, n - 1, k);
      RowPatternMeans(net, u, block, n - 1, Cols(u, block), k);
    }
  }

  lemma DiagonalInRow(net: Network, u: Unknowns, block: Block, a: nat)
    requires Proper(u) && a < Rows(u, block)
    ensures DiagonalOf(u, block, a) <= RowPattern(net, u, block, a, Cols(u, block))
  {
    if a < Cols(u, block) {
      BlockEntry(net, u, block, a, a);
      RowPatternMeans(net, u, block, a, Cols(u, block), PositionIn(u, block, a, a));
    }
  }

  /** Adds the structural entries of row a of a block. */
  method PatternRow(net: Network, u: Unknowns, block: Block, a: nat, m: Sparse) returns (m': Sparse)
    requires Proper(u) && a < Rows(u, block)
    ensures m'.Keys == m.Keys + RowPattern(net, u, block, a, Cols(u, block))
  {
    m' := m;
    if a < Cols(u, block) {
      m' := m'[PositionIn(u, block, a, a) := 0.0];
    }
    for b := 0 to Cols(u, block)
      invariant m'.Keys == m.Keys + DiagonalOf(u, block, a) + RowPattern(net, u, block, a, b)
    {
      BlockEntry(net, u, block, a, b);
      hide InPattern, Entry, BlockOf;
      if b != a && (net.g(u.buses[a], u.buses[b]) != 0.0 || net.b(u.buses[a], u.buses[b]) != 0.0) {
        m' := m'[PositionIn(u, block, a, b) := 0.0];
      }
    }
    DiagonalInRow(net, u, block, a);
  }

  method PatternBlock(net: Network, u: Unknowns, block: Block, m: Sparse) returns (m': Sparse)
    requires Proper(u)
    ensures m'.Keys == m.Keys + BlockPattern(net, u, block, Rows(u, block))
  {
    m' := m;
    for a := 0 to Rows(u, block)
      invariant m'.Keys == m.Keys + BlockPattern(net, u, block, a)
    {
      hide RowPattern;
      m' := PatternRow(net, u, block, a, m');
    }
  }

  /** The pattern is stored: exactly the diagonals and the pairs of connected buses. */
  ghost predicate Stored(net: Network, u: Unknowns, m: Sparse)
    requires Proper(u)
  {
    forall k: Position :: k in m <==> k.0 < Size(u) && k.1 < Size(u) && InPattern(net, u, k.0, k.1)
  }

  /** buildJacobianPattern. */
  method BuildPattern(net: Network, u: Unknowns) returns (m: Sparse)
    requires Proper(u)
    ensures Stored(net, u, m)
  {
    m := map[];
    m := PatternBlock(net, u, J1, m);
    m := PatternBlock(net, u, J2, m);
    m := PatternBlock(net, u, J3, m);
    m := PatternBlock(net, u, J4, m);
    hide InPattern, BlockPattern;
    forall k: Position ensures k in m <==> k.0 < Size(u) && k.1 < Size(u) && InPattern(net, u, k.0, k.1) {
      BlockPatternMeans(net, u, J1, Rows(u, J1), k);
      BlockPatternMeans(net, u, J2, Rows(u, J2), k);
      BlockPatternMeans(net, u, J3, Rows(u, J3), k);
      BlockPatternMeans(net, u, J4, Rows(u, J4), k);
    }
  }

  /** The positions of done hold their entries, the others what they held. */
  ghost predicate Refilled(net: Network, u: Unknowns, m: Sparse, m': Sparse, done: set<Position>)
    requires Proper(u)
  {
    m'.Keys == m.Keys && forall k :: k in m ==> m'[k] == if k in done then EntryAt(net, u, k) else m[k]
  }

  lemma {:induction false} StoredPattern(net: Network, u: Unknowns, m: Sparse, block: Block, a: nat, b: nat)
    requires Proper(u) && Stored(net, u, m) && a < Rows(u, block) && b < Cols(u, block)
    requires a == b || Connected(net, u.buses[a], u.buses[b])
    ensures PositionIn(u, block, a, b) in m
  {
    BlockEntry(net, u, block, a, b);
  }

  lemma {:induction false} EntryIn(net: Network, u: Unknowns, block: Block, a: nat, b: nat)
    requires Proper(u) && a < Rows(u, block) && b < Cols(u, block)
    ensures a < |u.buses| && b < |u.buses|
    ensures EntryAt(net, u, PositionIn(u, block, a, b)) ==
              if a == b then Diagonal(net, block, u.buses[a]) else OffDiagonal(net, block, u.buses[a], u.buses[b])
  {
    BlockEntry(net, u, block, a, b);
  }

  /** Overwrites the stored entries of row a of a block; none is inserted. */
  method RefillRow(net: Network, u: Unknowns, block: Block, a: nat, m: Sparse) returns (m': Sparse)
    requires Proper(u) && Stored(net, u, m) && a < Rows(u, block)
    ensures Refilled(net, u, m, m', RowPattern(net, u, block, a, Cols(u, block)))
  {
    hide EntryAt, Diagonal, OffDiagonal, PositionIn, Stored, InPattern;
    m' := m;
    if a < Cols(u, block) {
      EntryIn(net, u, block, a, a);
      StoredPattern(net, u, m, block, a, a);
      var diagonal := DiagonalValue(net, block, u.buses[a]);
      m' := m'[PositionIn(u, block, a, a) := diagonal];
    }
    for b := 0 to Cols(u, block)
      invariant Refilled(net, u, m, m', DiagonalOf(u, block, a) + RowPattern(net, u, block, a, b))
    {
      EntryIn(net, u, block, a, b);
      if b != a && (net.g(u.buses[a], u.buses[b]) != 0.0 || net.b(u.buses[a], u.buses[b]) != 0.0) {
        StoredPattern(net, u, m, block, a, b);
        var val := OffDiagonalValue(net, block, u.buses[a], u.buses[b]);
        m' := m'[PositionIn(u, block, a, b) := val];
      }
    }
    DiagonalInRow(net, u, block, a);
    assert DiagonalOf(u, block, a) + RowPattern(net, u, block, a, Cols(u, block)) ==
           RowPattern(net, u, block, a, Cols(u, block));
  }

  method RefillBlock(net: Network, u: Unknowns, block: Block, m: Sparse) returns (m': Sparse)
    requires Proper(u) && Stored(net, u, m)
    ensures Refilled(net, u, m, m', BlockPattern(net, u, block, Rows(u, block)))
  {
    hide EntryAt, RowPattern, InPattern;
    m' := m;
    for a := 0 to Rows(u, block)
      invariant Refilled(net, u, m, m', BlockPattern(net, u, block, a))
    {
      m' := RefillRow(net, u, block, a, m');
    }
  }

  /** PFSolverPowerPolarSparse::calculateJacobian. */
  method CalculateSparse(net: Network, u: Unknowns, m: Sparse) returns (m': Sparse)
    requires Proper(u) && Stored(net, u, m)
    ensures m'.Keys == m.Keys
    ensures forall r: nat, c: nat :: r < Size(u) && c < Size(u) ==> Coefficient(m', r, c) == Entry(net, u, r, c)
  {
    var m0 := map k | k in m :: 0.0;
    hide Entry, InPattern, BlockPattern, Refilled;
    assert Stored(net, u, m0);
    var m1 := RefillBlock(net, u, J1, m0);
    SameKeys(net, u, m0, m1, BlockPattern(net, u, J1, Rows(u, J1)));
    var m2 := RefillBlock(net, u, J2, m1);
    SameKeys(net, u, m1, m2, BlockPattern(net, u, J2, Rows(u, J2)));
    var m3 := RefillBlock(net, u, J3, m2);
    SameKeys(net, u, m2, m3, BlockPattern(net, u, J3, Rows(u, J3)));
    m' := RefillBlock(net, u, J4, m3);
    SameKeys(net, u, m3, m', BlockPattern(net, u, J4, Rows(u, J4)));
    forall r: nat, c: nat | r < Size(u) && c < Size(u) ensures Coefficient(m', r, c) == Entry(net, u, r, c) {
      if (r, c) in m0 {
        RefilledEntry(net, u, m0, m1, m2, m3, m', (r, c));
      } else {
        OutsideIsZero(net, u, r, c);
      }
    }
  }

  lemma SameKeys(net: Network, u: Unknowns, m: Sparse, m': Sparse, done: set<Position>)
    requires Proper(u) && Refilled(net, u, m, m', done)
    ensures m'.Keys == m.Keys && (Stored(net, u, m) ==> Stored(net, u, m'))
  {
  }

  /** Every stored entry belongs to one of the blocks, so it has been overwritten. */
  lemma {:induction false} RefilledEntry(net: Network, u: Unknowns, m0: Sparse, m1: Sparse, m2: Sparse, m3: Sparse,
                                         m4: Sparse, k: Position)
    requires Proper(u) && Stored(net, u, m0) && k in m0
    requires Refilled(net, u, m0, m1, BlockPattern(net, u, J1, Rows(u, J1))) &&
             Refilled(net, u, m1, m2, BlockPattern(net, u, J2, Rows(u, J2)))
    requires Refilled(net, u, m2, m3, BlockPattern(net, u, J3, Rows(u, J3))) &&
             Refilled(net, u, m3, m4, BlockPattern(net, u, J4, Rows(u, J4)))
    ensures k in m4 && m4[k] == EntryAt(net, u, k) && k.0 < Size(u) && k.1 < Size(u)
  {
    hide EntryAt, InPattern, BlockPattern;
    BlockPatternMeans(net, u, J1, Rows(u, J1), k);
    BlockPatternMeans(net, u, J2, Rows(u, J2), k);
    BlockPatternMeans(net, u, J3, Rows(u, J3), k);
    BlockPatternMeans(net, u, J4, Rows(u, J4), k);
  }

  /** The two Jacobians agree entry by entry. */
  method BothJacobians(net: Network, u: Unknowns) returns (dense: array2<real>, sparse: Sparse)
    requires Proper(u)
    ensures fresh(dense) && dense.Length0 == dense.Length1 == Size(u)
    ensures forall r: nat, c: nat :: r < Size(u) && c < Size(u) ==> Coefficient(sparse, r, c) == dense[r, c]
  {
    hide Entry;
    dense := new real[Size(u), Size(u)];
    CalculateDense(net, u, dense);
    var pattern := BuildPattern(net, u);
    sparse := CalculateSparse(net, u, pattern);
  }
}
