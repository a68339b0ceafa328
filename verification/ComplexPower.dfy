module ComplexPower {

  // The powers of the power flow equations as complex numbers: P + jQ is the voltage of a bus times
  // the conjugate of the current that the admittance matrix gives it.

  import opened ComplexNumbers
  import Jacobian

  function Conj(x: Complex): Complex { Complex(x.re, -x.im) }

  function Scaled(t: real, x: Complex): Complex { Complex(t * x.re, t * x.im) }

  /** The angle differences of the network are those of the unit phasors e. */
  ghost predicate HasPhasors(net: Jacobian.Network, e: nat -> Complex) {
    forall k: nat, j: nat :: Complex(net.cosine(k, j), net.sine(k, j)) == Mul(e(k), Conj(e(j)))
  }

  function VoltageOf(net: Jacobian.Network, e: nat -> Complex, k: nat): Complex { Scaled(net.v(k), e(k)) }

  function Admittance(net: Jacobian.Network, k: nat, j: nat): Complex { Complex(net.g(k, j), net.b(k, j)) }

  /** Row k of Y V, over the first n buses. */
  function CurrentOf(net: Jacobian.Network, e: nat -> Complex, k: nat, n: nat): Complex {
    if n == 0 then ZERO
    else Add(CurrentOf(net, e, k, n - 1), Mul(Admittance(net, k, n - 1), VoltageOf(net, e, n - 1)))
  }

  lemma ConjLaws(x: Complex, y: Complex)
    ensures Conj(Add(x, y)) == Add(Conj(x), Conj(y)) && Conj(Mul(x, y)) == Mul(Conj(x), Conj(y))
  {
  }

  lemma Factors(t: real, a: real, b: real, c: real, d: real)
    ensures (t * a) * b == t * (a * b) && a * (t * b) == t * (a * b)
    ensures t * (a * b + c * d) == t * (a * b) + t * (c * d) && t * (a * b - c * d) == t * (a * b) - t * (c * d)
  {
  }

  lemma ScaledProduct(t: real, x: Complex, y: Complex)
    ensures Mul(Scaled(t, x), y) == Scaled(t, Mul(x, y))
  {
    Factors(t, x.re, y.re, x.im, y.im);
    Factors(t, x.im, y.im, x.re, y.re);
    Factors(t, x.re, y.im, x.im, y.re);
    Factors(t, x.im, y.re, x.re, y.im);
  }

  lemma ScaledLaws(t: real, x: Complex, y: Complex)
    ensures Mul(Scaled(t, x), y) == Scaled(t, Mul(x, y)) && Mul(x, Scaled(t, y)) == Scaled(t, Mul(x, y))
    ensures Conj(Scaled(t, x)) == Scaled(t, Conj(x)) && Scaled(t, Add(x, y)) == Add(Scaled(t, x), Scaled(t, y))
  {
    ScaledProduct(t, x, y);
    ScaledProduct(t, y, x);
    MulCommutes(x, y);
    MulCommutes(x, Scaled(t, y));
    hide Mul;
  }

  function TermOf(net: Jacobian.Network, k: nat, j: nat): Complex {
    Complex(Jacobian.TermP(net, k, j), Jacobian.TermQ(net, k, j))
  }

  function SumOf(net: Jacobian.Network, k: nat, n: nat): Complex {
    Complex(Jacobian.SumP(net, k, n), Jacobian.SumQ(net, k, n))
  }

  lemma TermParts(net: Jacobian.Network, k: nat, j: nat)
    ensures TermOf(net, k, j) == Scaled(net.v(j), Complex(Jacobian.InPhase(net, k, j), Jacobian.Quadrature(net, k, j)))
  {
    hide Jacobian.InPhase, Jacobian.Quadrature;
  }

  lemma SumNext(net: Jacobian.Network, k: nat, n: nat)
    ensures SumOf(net, k, n + 1) == Add(SumOf(net, k, n), TermOf(net, k, n))
  {
    Jacobian.SumStep(net, k, n);
    hide Jacobian.SumP, Jacobian.SumQ, Jacobian.TermP, Jacobian.TermQ;
  }

  lemma PowersAre(net: Jacobian.Network, k: nat)
    ensures Complex(Jacobian.P(net, k), Jacobian.Q(net, k)) == Scaled(net.v(k), SumOf(net, k, net.nodes))
  {
    hide Jacobian.SumP, Jacobian.SumQ;
  }

  /** One term of the sum. */
  lemma TermIs(net: Jacobian.Network, e: nat -> Complex, k: nat, j: nat)
    requires HasPhasors(net, e)
    ensures Mul(VoltageOf(net, e, k), Conj(Mul(Admittance(net, k, j), VoltageOf(net, e, j)))) ==
            Scaled(net.v(k), TermOf(net, k, j))
  {
    TermParts(net, k, j);
    var y, w := Admittance(net, k, j), Mul(e(k), Conj(e(j)));
    assert w == Complex(net.cosine(k, j), net.sine(k, j));
    InPhaseIs(net, k, j);
    hide HasPhasors, Mul, Conj, Scaled, TermOf, Jacobian.InPhase, Jacobian.Quadrature;
    ConjLaws(y, VoltageOf(net, e, j));
    ScaledLaws(net.v(j), e(j), y);
    ScaledLaws(net.v(j), Conj(e(j)), Conj(y));
    ScaledLaws(net.v(j), Conj(y), Conj(e(j)));
    ScaledLaws(net.v(j), e(k), Mul(Conj(y), Conj(e(j))));
    ScaledLaws(net.v(j), Mul(Conj(y), Conj(e(j))), e(k));
    ScaledLaws(net.v(k), e(k), Scaled(net.v(j), Mul(Conj(y), Conj(e(j)))));
    Rearrange(e(k), Conj(y), Conj(e(j)));
  }

  lemma Rearrange(x: Complex, y: Complex, z: Complex)
    ensures Mul(x, Mul(y, z)) == Mul(y, Mul(x, z))
  {
    MulCommutes(x, Mul(y, z));
    MulAssociates(y, z, x);
    MulCommutes(z, x);
    hide Mul;
  }

  lemma InPhaseIs(net: Jacobian.Network, k: nat, j: nat)
    ensures Mul(Conj(Admittance(net, k, j)), Complex(net.cosine(k, j), net.sine(k, j))) ==
            Complex(Jacobian.InPhase(net, k, j), Jacobian.Quadrature(net, k, j))
  {
  }

  lemma {:induction false} PowerSum(net: Jacobian.Network, e: nat -> Complex, k: nat, n: nat)
    requires HasPhasors(net, e)
    ensures Mul(VoltageOf(net, e, k), Conj(CurrentOf(net, e, k, n))) == Scaled(net.v(k), SumOf(net, k, n))
  {
    var u := VoltageOf(net, e, k);
    if n == 0 {
      NoPower(net, k, u);
    } else {
      PowerSum(net, e, k, n - 1);
      TermIs(net, e, k, n - 1);
      SumNext(net, k, n - 1);
      var current, term := CurrentOf(net, e, k, n - 1), Mul(Admittance(net, k, n - 1), VoltageOf(net, e, n - 1));
      assert CurrentOf(net, e, k, n) == Add(current, term);
      hide Mul, Conj, Scaled, Add, VoltageOf, HasPhasors, SumOf, TermOf, CurrentOf, Admittance;
      ConjLaws(current, term);
      Distributes(u, Conj(current), Conj(term));
      ScaledLaws(net.v(k), SumOf(net, k, n - 1), TermOf(net, k, n - 1));
    }
  }

  lemma NoPower(net: Jacobian.Network, k: nat, u: Complex)
    ensures Mul(u, Conj(ZERO)) == ZERO == Scaled(net.v(k), SumOf(net, k, 0))
  {
    assert SumOf(net, k, 0) == ZERO;
    ScaledZero(net.v(k));
    MulUnits(u);
    hide Mul, Scaled, SumOf;
    assert Conj(ZERO) == ZERO;
  }

  lemma ScaledZero(t: real)
    ensures Scaled(t, ZERO) == ZERO
  {
  }

  /** P + jQ = V conj(Y V), for every bus, network and voltages. */
  lemma {:induction false} PowerIsComplex(net: Jacobian.Network, e: nat -> Complex, k: nat)
    requires HasPhasors(net, e)
    ensures Complex(Jacobian.P(net, k), Jacobian.Q(net, k)) ==
            Mul(VoltageOf(net, e, k), Conj(CurrentOf(net, e, k, net.nodes)))
  {
    PowerSum(net, e, k, net.nodes);
    PowersAre(net, k);
    hide Mul, Conj, Scaled, VoltageOf, HasPhasors, SumOf, CurrentOf, Jacobian.P, Jacobian.Q;
  }

  /** The network of Jacobian.Turned is that with the phasor of one bus turned. */
  lemma {:induction false} TurnedPhasors(net: Jacobian.Network, e: nat -> Complex, e': nat -> Complex, j: nat, c: real,
                                         s: real)
    requires HasPhasors(net, e) && c * c + s * s == 1.0
    requires forall k: nat :: e'(k) == if k == j then Mul(e(k), Complex(c, s)) else e(k)
    ensures HasPhasors(Jacobian.Turned(net, j, c, s), e')
  {
    forall a: nat, b: nat
      ensures var turned := Jacobian.Turned(net, j, c, s);
              Complex(turned.cosine(a, b), turned.sine(a, b)) == Mul(e'(a), Conj(e'(b)))
    {
      TurnedIs(net, j, c, s, a, b);
      var w := Complex(net.cosine(a, b), net.sine(a, b));
      assert w == Mul(e(a), Conj(e(b)));
      hide HasPhasors, Mul, Conj, Jacobian.Turned;
      RotateFirst(e(a), e(b), Complex(c, s));
      RotateSecond(e(a), e(b), Complex(c, s));
      RotateBoth(e(j), c, s);
    }
  }

  /** The angle difference of two buses turns with the first and against the second. */
  lemma TurnedIs(net: Jacobian.Network, j: nat, c: real, s: real, a: nat, b: nat)
    ensures var turned, w := Jacobian.Turned(net, j, c, s), Complex(net.cosine(a, b), net.sine(a, b));
            Complex(turned.cosine(a, b), turned.sine(a, b)) ==
            if a == j && b != j then Mul(w, Complex(c, s))
            else if a != j && b == j then Mul(w, Conj(Complex(c, s)))
            else w
  {
  }

  lemma RotateFirst(x: Complex, y: Complex, z: Complex)
    ensures Mul(Mul(x, z), Conj(y)) == Mul(Mul(x, Conj(y)), z)
  {
    MulAssociates(x, z, Conj(y));
    MulCommutes(z, Conj(y));
    MulAssociates(x, Conj(y), z);
    hide Mul;
  }

  lemma RotateSecond(x: Complex, y: Complex, z: Complex)
    ensures Mul(x, Conj(Mul(y, z))) == Mul(Mul(x, Conj(y)), Conj(z))
  {
    ConjLaws(y, z);
    MulAssociates(x, Conj(y), Conj(z));
    hide Mul;
  }

  lemma RotateBoth(x: Complex, c: real, s: real)
    requires c * c + s * s == 1.0
    ensures Mul(Mul(x, Complex(c, s)), Conj(Mul(x, Complex(c, s)))) == Mul(x, Conj(x))
  {
    var z := Complex(c, s);
    assert Mul(z, Conj(z)) == ONE;
    MulCommutes(z, Conj(z));
    MulUnits(Mul(x, Conj(x)));
    hide Mul, Conj;
    RotateFirst(x, Mul(x, z), z);
    RotateSecond(x, x, z);
    MulAssociates(Mul(x, Conj(x)), Conj(z), z);
  }
}
