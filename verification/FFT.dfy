/** Math::FFT: in-place radix-2 decimation in frequency, followed by the bit-reversal swaps. */
module FFT {

  import opened ComplexNumbers
  import opened BitReversal

  // ---------------------------------------------------------------- the transform

  /** The sum of x[i] * w^(j * i) over the first n samples. */
  function Dft(x: seq<Complex>, w: Complex, j: nat, n: nat): Complex
    requires n <= |x|
  {
    if n == 0 then ZERO else Add(Dft(x, w, j, n - 1), Mul(x[n - 1], Power(w, j * (n - 1))))
  }

  /** The polynomial with coefficients x at z. */
  function Eval(x: seq<Complex>, z: Complex): Complex {
    if x == [] then ZERO else Add(x[0], Mul(z, Eval(x[1..], z)))
  }

  lemma {:induction false} EvalAppend(x: seq<Complex>, y: seq<Complex>, z: Complex)
    ensures Eval(x + y, z) == Add(Eval(x, z), Mul(Power(z, |x|), Eval(y, z)))
  {
    hide Mul, Add;
    if x == [] {
      assert x + y == y;
      MulUnits(Eval(y, z));
      AddLaws(Eval(y, z), ZERO, ZERO);
    } else {
      var rest, tail := Eval(x[1..], z), Mul(Power(z, |x| - 1), Eval(y, z));
      assert (x + y)[1..] == x[1..] + y;
      EvalAppend(x[1..], y, z);
      Distributes(z, rest, tail);
      AddLaws(x[0], Mul(z, rest), Mul(z, tail));
      MulAssociates(z, Power(z, |x| - 1), Eval(y, z));
    }
  }

  lemma {:induction false} EvalIsDft(x: seq<Complex>, w: Complex, j: nat, n: nat)
    requires n <= |x|
    ensures Eval(x[..n], Power(w, j)) == Dft(x, w, j, n)
  {
    hide Mul, Add, Power;
    if n > 0 {
      var z := Power(w, j);
      EvalIsDft(x, w, j, n - 1);
      assert x[..n] == x[..n - 1] + [x[n - 1]];
      EvalAppend(x[..n - 1], [x[n - 1]], z);
      EvalOne(x[n - 1], z);
      PowerOfPower(w, j, n - 1);
      MulCommutes(Power(z, n - 1), x[n - 1]);
    }
  }

  lemma EvalOne(c: Complex, z: Complex)
    ensures Eval([c], z) == c
  {
    assert Eval([c][1..], z) == ZERO;
  }

  lemma {:induction false} EvalSum(x: seq<Complex>, y: seq<Complex>, s: seq<Complex>, z: Complex)
    requires |x| == |y| == |s| && forall l :: 0 <= l < |s| ==> s[l] == Add(x[l], y[l])
    ensures Eval(s, z) == Add(Eval(x, z), Eval(y, z))
  {
    if s != [] {
      EvalSum(x[1..], y[1..], s[1..], z);
      Distributes(z, Eval(x[1..], z), Eval(y[1..], z));
    }
  }

  lemma {:induction false} EvalDifference(x: seq<Complex>, y: seq<Complex>, s: seq<Complex>, z: Complex)
    requires |x| == |y| == |s| && forall l :: 0 <= l < |s| ==> s[l] == Sub(x[l], y[l])
    ensures Eval(s, z) == Sub(Eval(x, z), Eval(y, z))
  {
    if s != [] {
      EvalDifference(x[1..], y[1..], s[1..], z);
      Distributes(z, Eval(x[1..], z), Neg(Eval(y[1..], z)));
      MulNeg(z, Eval(y[1..], z));
    }
  }

  /** Multiplying coefficient l by t * w^l moves the argument to w * z. */
  lemma {:induction false} EvalTwisted(x: seq<Complex>, y: seq<Complex>, t: Complex, w: Complex, z: Complex)
    requires |x| == |y| && forall l :: 0 <= l < |y| ==> y[l] == Mul(x[l], Mul(t, Power(w, l)))
    ensures Eval(y, z) == Mul(t, Eval(x, Mul(w, z)))
  {
    hide Mul, Add;
    if y == [] {
      MulUnits(t);
    } else {
      var wz, rest := Mul(w, z), Eval(x[1..], Mul(w, z));
      forall l | 0 <= l < |y[1..]| ensures y[1..][l] == Mul(x[1..][l], Mul(Mul(t, w), Power(w, l))) {
        MulAssociates(t, w, Power(w, l));
        assert y[1..][l] == y[l + 1];
      }
      EvalTwisted(x[1..], y[1..], Mul(t, w), w, z);
      MulUnits(t);
      MulCommutes(x[0], t);
      calc {
        Mul(z, Mul(Mul(t, w), rest));
      == { MulAssociates(z, Mul(t, w), rest); MulCommutes(z, Mul(t, w)); }
        Mul(Mul(Mul(t, w), z), rest);
      == { MulAssociates(t, w, z); MulAssociates(t, wz, rest); }
        Mul(t, Mul(wz, rest));
      }
      Distributes(t, x[0], Mul(wz, rest));
    }
  }

  // ---------------------------------------------------------------- decimation in frequency

  /** The first half of a butterfly. */
  function Sums(x: seq<Complex>, k: nat): (r: seq<Complex>)
    requires |x| == 2 * k
    ensures |r| == k
  {
    seq(k, l requires 0 <= l < k => Add(x[l], x[l + k]))
  }

  /** The second half. */
  function Twisted(x: seq<Complex>, k: nat, w: Complex): (r: seq<Complex>)
    requires |x| == 2 * k
    ensures |r| == k
  {
    seq(k, l requires 0 <= l < k => Mul(Sub(x[l], x[l + k]), Power(w, l)))
  }

  /** The recursive form, before the bit reversal. */
  function Decimated(x: seq<Complex>, w: Complex, m: nat): (r: seq<Complex>)
    requires |x| == Pow2(m)
    ensures |r| == |x|
    decreases m
  {
    if m == 0 then x else
    Decimated(Sums(x, Pow2(m - 1)), Mul(w, w), m - 1) + Decimated(Twisted(x, Pow2(m - 1), w), Mul(w, w), m - 1)
  }

  lemma {:induction false} SumsEval(x: seq<Complex>, k: nat, z: Complex)
    requires |x| == 2 * k && Power(z, k) == ONE
    ensures Eval(Sums(x, k), z) == Eval(x, z)
  {
    hide Mul, Add, Power;
    assert x == x[..k] + x[k..];
    EvalAppend(x[..k], x[k..], z);
    MulUnits(Eval(x[k..], z));
    EvalSum(x[..k], x[k..], Sums(x, k), z);
  }

  lemma {:induction false} TwistedEval(x: seq<Complex>, k: nat, w: Complex, z: Complex)
    requires |x| == 2 * k && Power(Mul(w, z), k) == Neg(ONE)
    ensures Eval(Twisted(x, k, w), z) == Eval(x, Mul(w, z))
  {
    hide Mul, Add, Sub, Power;
    var wz := Mul(w, z);
    assert x == x[..k] + x[k..];
    EvalAppend(x[..k], x[k..], wz);
    MulUnits(Eval(x[k..], wz));
    var d := seq(k, l requires 0 <= l < k => Sub(x[l], x[l + k]));
    EvalDifference(x[..k], x[k..], d, wz);
    AddLaws(Eval(x[..k], wz), Eval(x[k..], wz), ZERO);
    forall l | 0 <= l < k ensures Twisted(x, k, w)[l] == Mul(d[l], Mul(ONE, Power(w, l))) {
      MulUnits(Power(w, l));
    }
    EvalTwisted(d, Twisted(x, k, w), ONE, w, z);
    MulUnits(Eval(d, wz));
  }

  /** An even power of a root of -1, and an odd one. */
  lemma {:induction false} RootPowers(w: Complex, k: nat, r: nat)
    requires Power(w, k) == Neg(ONE)
    ensures Power(Power(Mul(w, w), r), k) == ONE
    ensures Power(Mul(w, Power(Mul(w, w), r)), k) == Neg(ONE)
  {
    hide Mul;
    var v := Mul(w, w);
    PowerOfProduct(w, w, k);
    MulUnits(ONE);
    PowerOfPower(v, r, k);
    PowerOfPower(v, k, r);
    assert r * k == k * r;
    PowerOfOne(r);
    PowerOfProduct(w, Power(v, r), k);
    MulUnits(Neg(ONE));
  }

  lemma {:induction false} PowerOfOne(r: nat)
    ensures Power(ONE, r) == ONE
  {
    hide Mul;
    if r > 0 { PowerOfOne(r - 1); MulUnits(ONE); }
  }

  lemma {:induction false} SquaredPowers(w: Complex, r: nat)
    ensures Power(w, 2 * r) == Power(Mul(w, w), r) && Power(w, 2 * r + 1) == Mul(w, Power(Mul(w, w), r))
  {
    hide Mul;
    PowerOfPower(w, 2, r);
    assert Power(w, 2) == Mul(w, w) by { assert Power(w, 1) == Mul(w, ONE); MulUnits(w); }
  }

  /** The recursive form holds the transform in bit-reversed order. */
  lemma {:induction false} DecimatedIsEval(x: seq<Complex>, w: Complex, m: nat, i: nat)
    requires |x| == Pow2(m) && i < Pow2(m) && (m >= 1 ==> Power(w, Pow2(m - 1)) == Neg(ONE))
    ensures Decimated(x, w, m)[i] == Eval(x, Power(w, Reversed(i, m)))
    decreases m
  {
    hide Mul, Add, Eval, Sums, Twisted, Reversed;
    if m == 0 {
      assert Reversed(i, 0) == 0 by { ReversedBound(i, 0); }
      assert x == [x[0]];
      EvalOne(x[0], ONE);
    } else {
      var k, v := Pow2(m - 1), Mul(w, w);
      if m >= 2 { SquaredPowers(w, Pow2(m - 2)); }
      hide Power;
      ReversedTop(i, m);
      var r := Reversed(if i < k then i else i - k, m - 1);
      SquaredPowers(w, r);
      RootPowers(w, k, r);
      if i < k {
        DecimatedIsEval(Sums(x, k), v, m - 1, i);
        SumsEval(x, k, Power(v, r));
      } else {
        DecimatedIsEval(Twisted(x, k, w), v, m - 1, i - k);
        TwistedEval(x, k, w, Power(v, r));
      }
    }
  }

  // ---------------------------------------------------------------- one stage on all blocks

  /** The recursive form of c consecutive blocks of size 2^j. */
  function Blocks(s: seq<Complex>, c: nat, j: nat, w: Complex): seq<Complex>
    requires |s| == c * Pow2(j)
    decreases c
  {
    if c == 0 then [] else
    PeelBlock(c, Pow2(j));
    Decimated(s[..Pow2(j)], w, j) + Blocks(s[Pow2(j)..], c - 1, j, w)
  }

  lemma PeelBlock(c: nat, n: nat)
    requires c >= 1
    ensures c * n == (c - 1) * n + n && c * n >= n
  {
  }

  /** The butterflies on c consecutive blocks of size 2 * k. */
  function Stage(s: seq<Complex>, c: nat, k: nat, w: Complex): (r: seq<Complex>)
    requires |s| == c * (2 * k)
    ensures |r| == |s|
    decreases c
  {
    if c == 0 then [] else
    PeelBlock(c, 2 * k);
    Sums(s[..2 * k], k) + Twisted(s[..2 * k], k, w) + Stage(s[2 * k..], c - 1, k, w)
  }

  lemma {:induction false} TwoBlocks(a: seq<Complex>, b: seq<Complex>, r: seq<Complex>, c: nat, j: nat, w: Complex)
    requires |a| == |b| == Pow2(j) && |r| == c * Pow2(j)
    ensures (c + 2) * Pow2(j) == |a + b + r|
    ensures Blocks(a + b + r, c + 2, j, w) == Decimated(a, w, j) + Decimated(b, w, j) + Blocks(r, c, j, w)
  {
    hide Decimated, Pow2;
    var n, s := Pow2(j), a + b + r;
    PeelBlock(c + 2, n);
    PeelBlock(c + 1, n);
    assert s[..n] == a && s[n..] == b + r && (b + r)[..n] == b && (b + r)[n..] == r;
    assert Blocks(b + r, c + 1, j, w) == Decimated(b, w, j) + Blocks(r, c, j, w);
  }

  /** A stage halves the blocks and squares the root; what remains to be done is the same. */
  lemma {:induction false} StageKeepsBlocks(s: seq<Complex>, c: nat, j: nat, w: Complex)
    requires j >= 1 && |s| == c * Pow2(j)
    ensures |s| == c * (2 * Pow2(j - 1)) && |s| == 2 * c * Pow2(j - 1)
    ensures Blocks(Stage(s, c, Pow2(j - 1), w), 2 * c, j - 1, Mul(w, w)) == Blocks(s, c, j, w)
    decreases c
  {
    hide Sums, Twisted, Mul;
    var k, n, v := Pow2(j - 1), Pow2(j), Mul(w, w);
    assert c * (2 * k) == 2 * c * k;
    if c > 0 {
      PeelBlock(c, n);
      StageKeepsBlocks(s[n..], c - 1, j, w);
      TwoBlocks(Sums(s[..n], k), Twisted(s[..n], k, w), Stage(s[n..], c - 1, k, w), 2 * (c - 1), j - 1, v);
    }
  }

  /** The index of element r of the first half of block d. */
  function At(k: nat, d: nat, r: nat): nat { d * (2 * k) + r }

  lemma AtUnique(k: nat, d: nat, r: nat, d': nat, r': nat)
    requires r < 2 * k && r' < 2 * k && At(k, d, r) == At(k, d', r')
    ensures d == d' && r == r'
  {
    DivUnique(At(k, d, r), 2 * k, d, r);
    DivUnique(At(k, d', r'), 2 * k, d', r');
  }

  lemma AtRange(k: nat, d: nat, r: nat, c: nat)
    requires r < k
    ensures d < c ==> At(k, d, r) + k < c * (2 * k)
    ensures d >= c ==> At(k, d, r) >= c * (2 * k)
  {
    if d < c {
      assert c * (2 * k) == d * (2 * k) + (c - d) * (2 * k);
      assert (c - d) * (2 * k) >= 2 * k by { MulAtLeast(2 * k, c - d); }
    } else {
      assert d * (2 * k) == c * (2 * k) + (d - c) * (2 * k);
    }
  }

  predicate PairDone(s: seq<Complex>, s0: seq<Complex>, k: nat, w: Complex, d: nat, r: nat) {
    var a, b := At(k, d, r), At(k, d, r) + k;
    |s| == |s0| && b < |s| && s[a] == Add(s0[a], s0[b]) && s[b] == Mul(Sub(s0[a], s0[b]), Power(w, r))
  }

  predicate PairSame(s: seq<Complex>, s0: seq<Complex>, k: nat, d: nat, r: nat) {
    var a, b := At(k, d, r), At(k, d, r) + k;
    |s| == |s0| && b < |s| && s[a] == s0[a] && s[b] == s0[b]
  }

  /** The butterflies l' < l of all blocks, and butterfly l of the first d blocks, have been done. */
  ghost predicate Progress(s: seq<Complex>, s0: seq<Complex>, c: nat, k: nat, w: Complex, l: nat, d: nat) {
    forall e: nat, r: nat :: e < c && r < k ==>
      if r < l || (r == l && e < d) then PairDone(s, s0, k, w, e, r) else PairSame(s, s0, k, e, r)
  }

  lemma {:induction false} ProgressStart(s0: seq<Complex>, c: nat, k: nat, w: Complex)
    requires |s0| == c * (2 * k)
    ensures Progress(s0, s0, c, k, w, 0, 0)
  {
    forall e: nat, r: nat | e < c && r < k ensures PairSame(s0, s0, k, e, r) { AtRange(k, e, r, c); }
  }

  lemma {:induction false} ProgressStep(s: seq<Complex>, s0: seq<Complex>, c: nat, k: nat, w: Complex, l: nat, d: nat)
    requires Progress(s, s0, c, k, w, l, d) && d < c && l < k && |s| == |s0| == c * (2 * k)
    ensures At(k, d, l) + k < |s|
    ensures var a, b := At(k, d, l), At(k, d, l) + k;
            Progress(s[a := Add(s[a], s[b])][b := Mul(Sub(s[a], s[b]), Power(w, l))], s0, c, k, w, l, d + 1)
  {
    hide Mul, Add, Sub, Power, At;
    AtRange(k, d, l, c);
    assert PairSame(s, s0, k, d, l);
    var a, b := At(k, d, l), At(k, d, l) + k;
    var s' := s[a := Add(s[a], s[b])][b := Mul(Sub(s[a], s[b]), Power(w, l))];
    forall e: nat, r: nat | e < c && r < k
      ensures if r < l || (r == l && e < d + 1) then PairDone(s', s0, k, w, e, r) else PairSame(s', s0, k, e, r)
    {
      assert if r < l || (r == l && e < d) then PairDone(s, s0, k, w, e, r) else PairSame(s, s0, k, e, r);
      if e != d || r != l { OtherPair(k, d, l, e, r); }
    }
  }

  lemma OtherPair(k: nat, d: nat, l: nat, e: nat, r: nat)
    requires l < k && r < k && (e != d || r != l)
    ensures At(k, e, r) != At(k, d, l) && At(k, e, r) != At(k, d, l) + k && At(k, e, r) + k != At(k, d, l)
  {
    if At(k, e, r) == At(k, d, l) { AtUnique(k, e, r, d, l); }
    if At(k, e, r) == At(k, d, l) + k { AtUnique(k, e, r, d, l + k); }
    if At(k, e, r) + k == At(k, d, l) { AtUnique(k, e, r + k, d, l); }
  }

  lemma {:induction false} ProgressEnd(s: seq<Complex>, s0: seq<Complex>, c: nat, k: nat, w: Complex)
    requires Progress(s, s0, c, k, w, k, 0) && |s| == |s0| == c * (2 * k)
    ensures s == Stage(s0, c, k, w)
    decreases c
  {
    if c > 0 {
      var n := 2 * k;
      PeelBlock(c, n);
      forall e: nat, r: nat | e < c - 1 && r < k ensures PairDone(s[n..], s0[n..], k, w, e, r) {
        assert PairDone(s, s0, k, w, e + 1, r);
        assert At(k, e + 1, r) == At(k, e, r) + n;
      }
      ProgressEnd(s[n..], s0[n..], c - 1, k, w);
      forall l: nat | l < k ensures s[..k][l] == Sums(s0[..n], k)[l] && s[k..n][l] == Twisted(s0[..n], k, w)[l] {
        assert PairDone(s, s0, k, w, 0, l) && At(k, 0, l) == l;
      }
      assert s[..k] == Sums(s0[..n], k) && s[k..n] == Twisted(s0[..n], k, w);
      assert s == s[..k] + s[k..n] + s[n..];
    }
  }

  /** One pass of the while loop: the butterflies of all blocks of size 2 * k, the l-th of every
      block before the next. */
  method Butterflies(samples: array<Complex>, k: nat, phiT: Complex, ghost c: nat)
    requires k >= 1 && samples.Length == c * (2 * k)
    modifies samples
    ensures samples[..] == Stage(old(samples[..]), c, k, phiT)
  {
    var t, l: nat := ONE, 0;
    ghost var s0 := samples[..];
    ProgressStart(s0, c, k, phiT);
    hide Mul, Add, Sub, Power, At, Stage, Progress;
    while l < k
      invariant l <= k && t == Power(phiT, l) && Progress(samples[..], s0, c, k, phiT, l, 0)
    {
      var a, d: nat := l, 0;
      assert a == At(k, 0, l) by { AtFirst(k, l); }
      while a < samples.Length
        invariant d <= c && a == At(k, d, l) && Progress(samples[..], s0, c, k, phiT, l, d)
        decreases c - d
      {
        AtRange(k, d, l, c);
        ProgressStep(samples[..], s0, c, k, phiT, l, d);
        var b := a + k;
        var x := Sub(samples[a], samples[b]);
        samples[a] := Add(samples[a], samples[b]);
        samples[b] := Mul(x, t);
        AtNext(k, d, l);
        a, d := a + 2 * k, d + 1;
      }
      AtRange(k, d, l, c);
      ProgressNext(samples[..], s0, c, k, phiT, l);
      PowerNext(phiT, l);
      t, l := Mul(t, phiT), l + 1;
    }
    ProgressEnd(samples[..], s0, c, k, phiT);
  }

  lemma AtFirst(k: nat, l: nat)
    ensures At(k, 0, l) == l
  {
  }

  lemma AtNext(k: nat, d: nat, l: nat)
    ensures At(k, d + 1, l) == At(k, d, l) + 2 * k
  {
  }

  lemma ProgressNext(s: seq<Complex>, s0: seq<Complex>, c: nat, k: nat, w: Complex, l: nat)
    requires Progress(s, s0, c, k, w, l, c)
    ensures Progress(s, s0, c, k, w, l + 1, 0)
  {
  }

  lemma PowerNext(w: Complex, l: nat)
    ensures Power(w, l + 1) == Mul(Power(w, l), w)
  {
    MulCommutes(w, Power(w, l));
  }

  // ---------------------------------------------------------------- the bit-reversal swaps

  /** Indices below a, and their images, hold their final element; the others their first one. */
  ghost predicate Swapped(s: seq<Complex>, s0: seq<Complex>, m: nat, a: nat) {
    && |s| == |s0| == Pow2(m)
    && forall j: nat :: j < |s| ==>
         Reversed(j, m) < |s| && s[j] == if j < a || Reversed(j, m) < a then s0[Reversed(j, m)] else s0[j]
  }

  lemma {:induction false} SwapStart(s0: seq<Complex>, m: nat)
    requires |s0| == Pow2(m)
    ensures Swapped(s0, s0, m, 0)
  {
    forall j: nat | j < |s0| ensures Reversed(j, m) < |s0| { ReversedBound(j, m); }
  }

  lemma {:induction false} SwapStep(s: seq<Complex>, s0: seq<Complex>, m: nat, a: nat)
    requires Swapped(s, s0, m, a) && a < |s|
    ensures var b := Reversed(a, m);
            b < |s| && Swapped(if b > a then s[a := s[b]][b := s[a]] else s, s0, m, a + 1)
  {
    hide Pow2, Reversed;
    var b := Reversed(a, m);
    ReversedTwice(a, m);
    forall j: nat | j < |s| && (j == b || Reversed(j, m) == a || Reversed(j, m) == b)
      ensures Reversed(Reversed(j, m), m) == j
    {
      ReversedTwice(j, m);
    }
  }

  /** The reversed index of a word, and the next word. */
  method ReverseIndex(word: bv32, m: nat) returns (b: nat, next: bv32)
    requires m <= 31 && Value(word) < Pow2(m)
    ensures b == Reversed(Value(word), m) && Value(next) == Value(word) + 1
  {
    hide Value, Reversed, Pow2, SwapBits, ShiftRight, Next;
    Pow2Grows(m, 31);
    ReversesWord(word, m);
    LastWord(word);
    ValueNext(word);
    b, next := Value(ShiftRight(SwapBits(word), 32 - m)), Next(word);
  }

  /** Reorders in place by bit-reversed index. */
  method Decimate(samples: array<Complex>, m: nat)
    requires m <= 31 && samples.Length == Pow2(m)
    modifies samples
    ensures forall j: nat :: j < samples.Length ==>
              Reversed(j, m) < samples.Length && samples[j] == old(samples[Reversed(j, m)])
  {
    ghost var s0 := samples[..];
    var a: nat, word: bv32 := 0, 0;
    assert Value(0) == 0;
    hide Value, Reversed, Pow2, Swapped;
    SwapStart(s0, m);
    while a < samples.Length
      invariant a <= samples.Length && Value(word) == a && Swapped(samples[..], s0, m, a)
    {
      SwapStep(samples[..], s0, m, a);
      var b, next := ReverseIndex(word, m);
      if b > a {
        samples[a], samples[b] := samples[b], samples[a];
      }
      a, word := a + 1, next;
    }
    SwapEnd(samples[..], s0, m);
  }

  lemma SwapEnd(s: seq<Complex>, s0: seq<Complex>, m: nat)
    requires Swapped(s, s0, m, |s|)
    ensures |s| == |s0| && forall j: nat :: j < |s| ==> Reversed(j, m) < |s| && s[j] == s0[Reversed(j, m)]
  {
  }

  /** log2 of a size. */
  function Log2(n: nat): nat {
    if n <= 1 then 0 else Log2(n / 2) + 1
  }

  lemma {:induction false} Log2OfPower(m: nat)
    ensures Log2(Pow2(m)) == m
  {
    if m > 0 { Log2OfPower(m - 1); }
  }

  lemma {:induction false} OneBlock(x: seq<Complex>, m: nat, w: Complex)
    requires |x| == Pow2(m)
    ensures |x| == 1 * Pow2(m) && Blocks(x, 1, m, w) == Decimated(x, w, m)
  {
    assert x[..Pow2(m)] == x && Blocks(x[Pow2(m)..], 0, m, w) == [];
  }

  lemma {:induction false} UnitBlocks(s: seq<Complex>, c: nat, w: Complex)
    requires |s| == c
    ensures |s| == c * Pow2(0) && Blocks(s, c, 0, w) == s
  {
    if c > 0 { UnitBlocks(s[1..], c - 1, w); }
  }

  /** What the two halves of the routine do to the samples, one after the other. */
  lemma {:induction false} TransformMeans(x: seq<Complex>, w: Complex, m: nat, r: seq<Complex>, j: nat)
    requires m >= 1 && |x| == Pow2(m) && Power(w, Pow2(m - 1)) == Neg(ONE)
    requires j < |x| == |r| && Reversed(j, m) < |x| && r[j] == Decimated(x, w, m)[Reversed(j, m)]
    ensures r[j] == Dft(x, w, j, |x|)
  {
    hide Decimated, Power, Eval, Dft, Reversed, Pow2;
    DecimatedIsEval(x, w, m, Reversed(j, m));
    ReversedTwice(j, m);
    EvalIsDft(x, w, j, |x|);
    assert x[..|x|] == x;
  }

  lemma RootSquared(root: Complex, m: nat)
    requires m >= 1 && Power(root, Pow2(m)) == Neg(ONE)
    ensures Power(Mul(root, root), Pow2(m - 1)) == Neg(ONE)
  {
    SquaredPowers(root, Pow2(m - 1));
  }

  /** The whole routine, for N = 2^m samples and a root with root^N = -1 (the source takes
      exp(-i * pi / N)): sample j becomes the sum of x[n] * w^(j * n), where w = root^2. */
  method Transform(samples: array<Complex>, root: Complex, ghost m: nat)
    requires 1 <= m <= 31 && samples.Length == Pow2(m) && Power(root, samples.Length) == Neg(ONE)
    modifies samples
    ensures forall j: nat :: j < samples.Length ==>
              samples[j] == Dft(old(samples[..]), Mul(root, root), j, samples.Length)
  {
    hide Mul, Power, Blocks, Decimated, Stage, Dft, Reversed;
    ghost var x, w := samples[..], Mul(root, root);
    var k, phiT := samples.Length, root;
    ghost var c: nat, j: nat := 1, m;
    OneBlock(x, m, w);
    while k > 1
      invariant j <= m && k == Pow2(j) && samples.Length == c * Pow2(j)
      invariant Blocks(samples[..], c, j, Mul(phiT, phiT)) == Decimated(x, w, m)
      decreases k
    {
      k := k / 2;
      phiT := Mul(phiT, phiT);
      StageKeepsBlocks(samples[..], c, j, phiT);
      Butterflies(samples, k, phiT, c);
      c, j := 2 * c, j - 1;
    }
    UnitBlocks(samples[..], samples.Length, Mul(phiT, phiT));
    ghost var y := samples[..];
    Log2OfPower(m);
    Decimate(samples, Log2(samples.Length));
    RootSquared(root, m);
    forall i: nat | i < samples.Length ensures samples[i] == Dft(x, w, i, samples.Length) {
      assert samples[i] == y[Reversed(i, m)];
      TransformMeans(x, w, m, samples[..], i);
    }
  }
}
