module FourierSums {

  // The Fourier sum, sample by sample.

  import opened ComplexNumbers
  import opened FFT

  /** A change of sample k changes value j by that much times w^(j * k). */
  lemma {:induction false} SampleCounts(x: seq<Complex>, w: Complex, j: nat, n: nat, k: nat, d: Complex)
    requires k < n <= |x|
    ensures Dft(x[k := Add(x[k], d)], w, j, n) == Add(Dft(x, w, j, n), Mul(d, Power(w, j * k)))
  {
    hide Mul, Power;
    var x', term := x[k := Add(x[k], d)], Mul(x[n - 1], Power(w, j * (n - 1)));
    if k < n - 1 {
      SampleCounts(x, w, j, n - 1, k, d);
    } else {
      SamplesBefore(x, x', w, j, n - 1);
      MulCommutes(x'[k], Power(w, j * k));
      MulCommutes(x[k], Power(w, j * k));
      MulCommutes(d, Power(w, j * k));
      Distributes(Power(w, j * k), x[k], d);
    }
  }

  lemma {:induction false} SamplesBefore(x: seq<Complex>, y: seq<Complex>, w: Complex, j: nat, n: nat)
    requires n <= |x| && n <= |y| && forall i :: 0 <= i < n ==> x[i] == y[i]
    ensures Dft(x, w, j, n) == Dft(y, w, j, n)
  {
    if n > 0 { SamplesBefore(x, y, w, j, n - 1); }
  }

  lemma {:induction false} NoSamples(x: seq<Complex>, w: Complex, j: nat, n: nat)
    requires n <= |x| && forall i :: 0 <= i < n ==> x[i] == ZERO
    ensures Dft(x, w, j, n) == ZERO
  {
    if n > 0 { NoSamples(x, w, j, n - 1); }
  }

  /** Powers: the first is the number itself, and each one more multiplies by it. */
  lemma PowersAre(w: Complex, k: nat)
    ensures Power(w, 0) == ONE && Power(w, 1) == w && Power(w, k + 1) == Mul(w, Power(w, k))
  {
    hide Mul;
    MulUnits(w);
    MulCommutes(w, ONE);
    assert Power(w, 1) == Mul(w, Power(w, 0));
  }
}
