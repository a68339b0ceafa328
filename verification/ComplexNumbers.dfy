/** Complex numbers over exact reals, and the laws that the proofs about the FFT and about packed
    matrices use: those of sums and products, and those of powers with natural exponents. */
module ComplexNumbers {

  datatype Complex = Complex(re: real, im: real)

  const ZERO := Complex(0.0, 0.0)
  const ONE := Complex(1.0, 0.0)

  function Add(x: Complex, y: Complex): Complex { Complex(x.re + y.re, x.im + y.im) }

  function Neg(x: Complex): Complex { Complex(-x.re, -x.im) }

  function Sub(x: Complex, y: Complex): Complex { Complex(x.re - y.re, x.im - y.im) }

  function Mul(x: Complex, y: Complex): Complex {
    Complex(x.re * y.re - x.im * y.im, x.re * y.im + x.im * y.re)
  }

  lemma AddLaws(x: Complex, y: Complex, z: Complex)
    ensures Add(x, y) == Add(y, x) && Add(Add(x, y), z) == Add(x, Add(y, z))
    ensures Add(x, ZERO) == x && Add(x, Neg(x)) == ZERO && Sub(x, y) == Add(x, Neg(y))
  {
  }

  lemma MulUnits(x: Complex)
    ensures Mul(x, ONE) == x && Mul(ONE, x) == x && Mul(x, ZERO) == ZERO && Mul(ZERO, x) == ZERO
    ensures Mul(Neg(ONE), x) == Neg(x) && Mul(x, Neg(ONE)) == Neg(x) && Mul(Neg(ONE), Neg(ONE)) == ONE
  {
  }

  lemma MulCommutes(x: Complex, y: Complex)
    ensures Mul(x, y) == Mul(y, x)
  {
  }

  lemma MulAssociates(x: Complex, y: Complex, z: Complex)
    ensures Mul(Mul(x, y), z) == Mul(x, Mul(y, z))
  {
    var a, b, c, d, e, f := x.re, x.im, y.re, y.im, z.re, z.im;
    assert (a * c - b * d) * e == a * (c * e) - b * (d * e) && (a * d + b * c) * f == a * (d * f) + b * (c * f);
    assert (a * c - b * d) * f == a * (c * f) - b * (d * f) && (a * d + b * c) * e == a * (d * e) + b * (c * e);
    assert a * (c * e - d * f) == a * (c * e) - a * (d * f) && b * (c * f + d * e) == b * (c * f) + b * (d * e);
    assert a * (c * f + d * e) == a * (c * f) + a * (d * e) && b * (c * e - d * f) == b * (c * e) - b * (d * f);
  }

  lemma Distributes(x: Complex, y: Complex, z: Complex)
    ensures Mul(x, Add(y, z)) == Add(Mul(x, y), Mul(x, z))
    ensures Mul(Add(y, z), x) == Add(Mul(y, x), Mul(z, x))
  {
    MulCommutes(x, y);
    MulCommutes(x, z);
    MulCommutes(x, Add(y, z));
  }

  lemma MulNeg(x: Complex, y: Complex)
    ensures Mul(x, Neg(y)) == Neg(Mul(x, y)) && Mul(Neg(y), x) == Neg(Mul(y, x))
  {
  }

  function Power(x: Complex, k: nat): Complex {
    if k == 0 then ONE else Mul(x, Power(x, k - 1))
  }

  lemma {:induction false} PowerAdds(x: Complex, i: nat, j: nat)
    ensures Power(x, i + j) == Mul(Power(x, i), Power(x, j))
  {
    hide Mul;
    if i == 0 {
      MulUnits(Power(x, j));
    } else {
      PowerAdds(x, i - 1, j);
      MulAssociates(x, Power(x, i - 1), Power(x, j));
    }
  }

  lemma {:induction false} PowerOfProduct(x: Complex, y: Complex, k: nat)
    ensures Power(Mul(x, y), k) == Mul(Power(x, k), Power(y, k))
  {
    hide Mul;
    if k == 0 {
      MulUnits(ONE);
    } else {
      var p, q := Power(x, k - 1), Power(y, k - 1);
      PowerOfProduct(x, y, k - 1);
      calc {
        Mul(Mul(x, y), Mul(p, q));
      == { MulAssociates(x, y, Mul(p, q)); MulAssociates(y, p, q); }
        Mul(x, Mul(Mul(y, p), q));
      == { MulCommutes(y, p); MulAssociates(p, y, q); }
        Mul(x, Mul(p, Mul(y, q)));
      == { MulAssociates(x, p, Mul(y, q)); }
        Mul(Mul(x, p), Mul(y, q));
      }
    }
  }

  lemma {:induction false} PowerOfPower(x: Complex, i: nat, j: nat)
    ensures Power(x, i * j) == Power(Power(x, i), j)
  {
    hide Mul;
    if j > 0 {
      PowerOfPower(x, i, j - 1);
      assert i * j == i + i * (j - 1);
      PowerAdds(x, i, i * (j - 1));
    } else {
      assert i * j == 0;
    }
  }
}
