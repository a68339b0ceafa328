/** The mask-based bit reversal of Math::FFT on 32-bit words: five exchanges of ever larger groups of
    bits and a shift, and what they do to the binary digits of the number that a word stands for. */
module BitReversal {

  function Half(x: bv32): bv32 { x >> 1 }

  function Low(x: bv32): nat { if x & 1 == 1 then 1 else 0 }

  function Or(x: bv32, y: bv32): bv32 { x | y }

  /** Words without a common bit. */
  predicate Apart(x: bv32, y: bv32) { x & y == 0 }

  function Next(x: bv32): bv32 { x + 1 }

  lemma HalfIsLess(x: bv32)
    requires x != 0
    ensures Half(x) < x
  {
  }

  /** The number a 32-bit word stands for. */
  function Value(x: bv32): nat
    decreases x
  {
    if x == 0 then 0 else HalfIsLess(x); 2 * Value(Half(x)) + Low(x)
  }

  function Pow2(m: nat): (r: nat)
    ensures r >= 1
  {
    if m == 0 then 1 else 2 * Pow2(m - 1)
  }

  /** The number whose m binary digits are those of i in reverse order. */
  function Reversed(i: nat, m: nat): nat {
    if m == 0 then 0 else Reversed(i / 2, m - 1) + if i % 2 == 1 then Pow2(m - 1) else 0
  }

  /** x >> s, bit by bit. */
  function ShiftRight(x: bv32, s: nat): bv32
    decreases s
  {
    if s == 0 then x else ShiftRight(Half(x), s - 1)
  }

  lemma {:induction false} ValueHalf(x: bv32)
    ensures Value(Half(x)) == Value(x) / 2 && Low(x) == Value(x) % 2
  {
    if x == 0 { assert Half(0) == 0; }
  }

  lemma {:induction false} ValueShift(x: bv32, s: nat)
    ensures Value(ShiftRight(x, s)) == Value(x) / Pow2(s)
    decreases s
  {
    hide Half, Low;
    if s > 0 {
      ValueShift(Half(x), s - 1);
      ValueHalf(x);
      DivTwice(Value(x), Pow2(s - 1));
    }
  }

  lemma DivTwice(x: nat, d: nat)
    requires d > 0
    ensures x / 2 / d == x / (2 * d)
  {
    var q, r := x / 2 / d, x / 2 % d;
    assert x == 2 * (d * q + r) + x % 2;
    DivUnique(x, 2 * d, q, 2 * r + x % 2);
  }

  lemma DivUnique(x: nat, d: nat, q: nat, r: nat)
    requires d > 0 && x == d * q + r && r < d
    ensures x / d == q && x % d == r
  {
    var q', r' := x / d, x % d;
    assert d * (q' - q) == r - r';
    if q' - q >= 1 { MulAtLeast(d, q' - q); }
    if q - q' >= 1 { MulAtLeast(d, q - q'); }
  }

  lemma MulAtLeast(d: nat, k: int)
    requires k >= 1
    ensures d * k >= d && d * (0 - k) + d <= 0
  {
  }

  lemma HalfOr(x: bv32, y: bv32)
    ensures Half(Or(x, y)) == Or(Half(x), Half(y))
  {
  }

  lemma ApartHalves(x: bv32, y: bv32)
    requires Apart(x, y)
    ensures Apart(Half(x), Half(y))
  {
  }

  lemma LowOr(x: bv32, y: bv32)
    requires Apart(x, y)
    ensures Low(Or(x, y)) == Low(x) + Low(y)
  {
    var p, q := x & 1, y & 1;
    assert p & q == 0 && (x | y) & 1 == p | q;
    assert (p == 0 || p == 1) && (q == 0 || q == 1);
  }

  lemma OrZero(x: bv32, y: bv32)
    requires Or(x, y) == 0
    ensures x == 0 && y == 0
  {
  }

  lemma {:induction false} ValueOr(x: bv32, y: bv32)
    requires Apart(x, y)
    ensures Value(Or(x, y)) == Value(x) + Value(y)
    decreases Or(x, y)
  {
    hide Half, Low, Or, Apart;
    HalfOr(x, y);
    ApartHalves(x, y);
    LowOr(x, y);
    if Or(x, y) == 0 {
      OrZero(x, y);
    } else {
      HalfIsLess(Or(x, y));
      ValueOr(Half(x), Half(y));
      ValueHalf(x);
      ValueHalf(y);
      ValueHalf(Or(x, y));
    }
  }

  lemma HalfNext(a: bv32)
    requires a != 0xffffffff
    ensures Low(a) == 0 ==> Half(Next(a)) == Half(a) && Low(Next(a)) == 1
    ensures Low(a) == 1 ==> Half(Next(a)) == Next(Half(a)) && Low(Next(a)) == 0 && Half(a) != 0xffffffff && a != 0
  {
  }

  lemma {:induction false} ValueNext(a: bv32)
    requires a != 0xffffffff
    ensures Value(Next(a)) == Value(a) + 1
    decreases a
  {
    hide Half, Low, Next;
    HalfNext(a);
    ValueHalf(a);
    ValueHalf(Next(a));
    if Low(a) == 1 {
      HalfIsLess(a);
      ValueNext(Half(a));
    }
  }

  /** The five swaps. */
  function SwapBits(a: bv32): bv32 {
    var b1 := ((a & 0xaaaaaaaa) >> 1) | ((a & 0x55555555) << 1);
    var b2 := ((b1 & 0xcccccccc) >> 2) | ((b1 & 0x33333333) << 2);
    var b3 := ((b2 & 0xf0f0f0f0) >> 4) | ((b2 & 0x0f0f0f0f) << 4);
    var b4 := ((b3 & 0xff00ff00) >> 8) | ((b3 & 0x00ff00ff) << 8);
    (b4 >> 16) | (b4 << 16)
  }

  /** The low bit of a word, moved to the top. */
  function Top(a: bv32): bv32 { (a & 1) << 31 }

  /** The low bit of the argument becomes the high bit of the result. */
  lemma SwapStep(a: bv32)
    ensures SwapBits(a) == Or(Half(SwapBits(Half(a))), Top(a)) && Apart(Half(SwapBits(Half(a))), Top(a))
    ensures Top(a) == if Low(a) == 1 then 0x80000000 else 0
    ensures SwapBits(0) == 0
  {
  }

  /** x is 1 shifted left by k. */
  predicate IsBit(x: bv32, k: nat) {
    if k == 0 then x == 1 else Low(x) == 0 && IsBit(Half(x), k - 1)
  }

  lemma {:induction false} ValueBit(x: bv32, k: nat)
    requires IsBit(x, k)
    ensures Value(x) == Pow2(k)
  {
    ValueHalf(x);
    if k > 0 { ValueBit(Half(x), k - 1); } else { assert Half(1) == 0; }
  }

  function Double(x: bv32): bv32 { x << 1 }

  predicate NoTop(x: bv32) { x & 0x80000000 == 0 }

  lemma OneMore(x: bv32, k: nat)
    requires IsBit(x, k) && NoTop(x)
    ensures IsBit(Double(x), k + 1)
  {
    ShiftedHalf(x);
  }

  lemma ShiftedHalf(x: bv32)
    requires NoTop(x)
    ensures Half(Double(x)) == x && Low(Double(x)) == 0
  {
  }

  lemma Room(x: bv32)
    requires x & 0xf0000000 == 0
    ensures NoTop(x) && NoTop(Double(x)) && NoTop(Double(Double(x))) && NoTop(Double(Double(Double(x))))
    ensures Double(Double(Double(Double(x)))) == x << 4
  {
  }

  lemma FourMore(x: bv32, k: nat)
    requires IsBit(x, k) && x & 0xf0000000 == 0
    ensures IsBit(x << 4, k + 4)
  {
    hide IsBit, Double, NoTop;
    Room(x);
    OneMore(x, k);
    OneMore(Double(x), k + 1);
    OneMore(Double(Double(x)), k + 2);
    OneMore(Double(Double(Double(x))), k + 3);
  }

  lemma ValueTop()
    ensures Value(0x80000000) == Pow2(31)
  {
    assert Half(2) == 1 && Half(4) == 2 && Half(8) == 4;
    assert IsBit(2, 1) && IsBit(4, 2) && IsBit(8, 3);
    FourMore(8, 3);
    FourMore(0x80, 7);
    FourMore(0x800, 11);
    FourMore(0x8000, 15);
    FourMore(0x80000, 19);
    FourMore(0x800000, 23);
    FourMore(0x8000000, 27);
    ValueBit(0x80000000, 31);
  }

  lemma LastWord(a: bv32)
    requires Value(a) < Pow2(31)
    ensures a != 0xffffffff
  {
    if a == 0xffffffff {
      assert Or(0x80000000, 0x7fffffff) == a && Apart(0x80000000, 0x7fffffff);
      ValueTop();
      ValueOr(0x80000000, 0x7fffffff);
    }
  }

  lemma SwapValue(a: bv32)
    ensures Value(SwapBits(a)) == Value(SwapBits(Half(a))) / 2 + if Low(a) == 1 then Pow2(31) else 0
  {
    hide Half, Low, Or, Apart, SwapBits, Pow2;
    SwapStep(a);
    ValueOr(Half(SwapBits(Half(a))), Top(a));
    ValueHalf(SwapBits(Half(a)));
    ValueTop();
  }

  lemma NotZero(a: bv32)
    requires a != 0
    ensures Half(a) != 0 || Low(a) != 0
  {
  }

  lemma {:induction false} ZeroValue(a: bv32)
    ensures Value(a) == 0 ==> a == 0
    decreases a
  {
    if a != 0 {
      HalfIsLess(a);
      ZeroValue(Half(a));
      NotZero(a);
    }
  }

  /** The swaps reverse the j low bits into the j high bits. */
  lemma {:induction false} SwapsReverse(a: bv32, j: nat)
    requires j <= 32 && Value(a) < Pow2(j)
    ensures Value(SwapBits(a)) == Reversed(Value(a), j) * Pow2(32 - j)
    decreases j
  {
    if j == 0 {
      ZeroValue(a);
      SwapStep(a);
    } else {
      hide Half, Low, SwapBits, Value, Pow2, Reversed;
      ValueHalf(a);
      Pow2Step(j);
      SwapsReverse(Half(a), j - 1);
      SwapValue(a);
      OneDigit(Value(a), Value(SwapBits(Half(a))), Value(SwapBits(a)), j);
    }
  }

  lemma Pow2Step(j: nat)
    requires j >= 1
    ensures Pow2(j) == 2 * Pow2(j - 1)
  {
  }

  lemma {:induction false} Pow2Add(i: nat, j: nat)
    ensures Pow2(i) * Pow2(j) == Pow2(i + j)
  {
    if i > 0 { Pow2Add(i - 1, j); }
  }

  lemma Digits(r: nat, c: nat, j: nat)
    requires 1 <= j <= 32
    ensures r * Pow2(33 - j) / 2 + (if c == 1 then Pow2(31) else 0) ==
            (r + if c == 1 then Pow2(j - 1) else 0) * Pow2(32 - j)
  {
    Pow2Add(j - 1, 32 - j);
    var p, q := Pow2(32 - j), Pow2(j - 1);
    assert Pow2(33 - j) == 2 * p;
    Distribute(r, p, q);
  }

  lemma OneDigit(v: nat, swapped: nat, s: nat, j: nat)
    requires 1 <= j <= 32 && swapped == Reversed(v / 2, j - 1) * Pow2(33 - j)
    requires s == swapped / 2 + if v % 2 == 1 then Pow2(31) else 0
    ensures s == Reversed(v, j) * Pow2(32 - j)
  {
    hide Pow2;
    Digits(Reversed(v / 2, j - 1), v % 2, j);
  }

  lemma Distribute(r: nat, p: nat, q: nat)
    ensures r * (2 * p) / 2 == r * p && (r + q) * p == r * p + q * p
  {
    assert r * (2 * p) == 2 * (r * p);
  }

  /** For a word of m bits, the swaps followed by a shift by 32 - m reverse its m digits. */
  lemma ReversesWord(a: bv32, m: nat)
    requires m <= 32 && Value(a) < Pow2(m)
    ensures Value(ShiftRight(SwapBits(a), 32 - m)) == Reversed(Value(a), m)
  {
    hide Pow2, Reversed, Value, SwapBits;
    SwapsReverse(a, m);
    ValueShift(SwapBits(a), 32 - m);
    DivUnique(Value(SwapBits(a)), Pow2(32 - m), Reversed(Value(a), m), 0);
  }

  /** Reversal stays within m digits and is its own inverse. */
  lemma {:induction false} ReversedBound(i: nat, m: nat)
    ensures Reversed(i, m) < Pow2(m)
  {
    if m > 0 { ReversedBound(i / 2, m - 1); }
  }

  /** The same reversal, taking the digits from the top. */
  lemma {:induction false} ReversedTop(i: nat, m: nat)
    requires m >= 1 && i < Pow2(m)
    ensures i < Pow2(m - 1) ==> Reversed(i, m) == 2 * Reversed(i, m - 1)
    ensures i >= Pow2(m - 1) ==> Reversed(i, m) == 2 * Reversed(i - Pow2(m - 1), m - 1) + 1
  {
    if m == 1 {
      assert Reversed(i / 2, 0) == 0;
    } else {
      ReversedTop(i / 2, m - 1);
    }
  }

  lemma {:induction false} ReversedTwice(i: nat, m: nat)
    requires i < Pow2(m)
    ensures Reversed(Reversed(i, m), m) == i
  {
    if m > 0 {
      var r := Reversed(i / 2, m - 1);
      ReversedTwice(i / 2, m - 1);
      ReversedBound(i / 2, m - 1);
      ReversedBound(i, m);
      ReversedTop(Reversed(i, m), m);
    }
  }

  lemma {:induction false} Pow2Grows(m: nat, m': nat)
    requires m <= m'
    ensures Pow2(m) <= Pow2(m')
  {
    if m < m' { Pow2Grows(m, m' - 1); }
  }
}
