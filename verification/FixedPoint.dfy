/** Decimal multiplication with rounding, from arrow-arith's arithmetic.rs. */
module FixedPoint {
  import opened Outcomes
  import opened PrimitiveArrays
  import opened Arity

  const I128_MIN: int := -0x8000_0000_0000_0000_0000_0000_0000_0000
  const I128_MAX: int := 0x7FFF_FFFF_FFFF_FFFF_FFFF_FFFF_FFFF_FFFF
  const I256_MIN: int := I128_MIN * (I128_MAX + 1) * 2
  const I256_MAX: int := -I256_MIN - 1
  const MAX_PRECISION: nat := 38

  predicate IsI128(x: int) { I128_MIN <= x <= I128_MAX }

  predicate IsI256(x: int) { I256_MIN <= x <= I256_MAX }

  function WrapI128(x: int): int { I128_MIN + (x - I128_MIN) % (2 * (I128_MAX + 1)) }

  function WrapI256(x: int): int { I256_MIN + (x - I256_MIN) % (2 * (I256_MAX + 1)) }

  function Abs(x: int): nat { if x < 0 then -x else x }

  // Division and remainder of the native types truncate toward zero.
  function DivTrunc(x: int, d: int): int
    requires d != 0
  {
    var q := Abs(x) / Abs(d);
    if (x < 0) == (d < 0) then q else -q
  }

  function ModTrunc(x: int, d: int): int
    requires d != 0
  {
    var r := Abs(x) % Abs(d);
    if x < 0 then -r else r
  }

  function Pow10(n: nat): nat {
    if n == 0 then 1 else 10 * Pow10(n - 1)
  }

  // Division rounded the way `divide_and_round` rounds, every step taken at 256 bits.
  function DivideAndRound(input: int, div: int): int
    requires div != 0
  {
    var d := WrapI256(DivTrunc(input, div));
    var r := WrapI256(ModTrunc(input, div));
    var half := WrapI256(DivTrunc(div, 2));
    var halfNeg := WrapI256(-half);
    if input >= 0 && r >= half then WrapI256(d + 1)
    else if input < 0 && r <= halfNeg then WrapI256(d - 1)
    else d
  }

  // q is the integer nearest to x / d, a tie going to the one further from zero.
  predicate IsNearest(x: int, d: int, q: int)
    requires d > 0
  {
    IsNear(x, d, q * d)
  }

  // The multiple m of d is at most half a unit from x, and beyond x if it is exactly half a unit.
  predicate IsNear(x: int, d: int, m: int) {
    2 * Abs(x - m) < d || (2 * Abs(x - m) == d && Abs(m) > Abs(x))
  }

  lemma WrapKeepsI256(x: int)
    requires IsI256(x)
    ensures WrapI256(x) == x
  {
  }

  // v is x reduced to 128 bits: the one 128-bit integer that differs from x by a multiple of 2^128.
  predicate IsReduced(v: int, x: int) {
    IsI128(v) && (v - x) % (2 * (I128_MAX + 1)) == 0
  }

  lemma WrapReduces(x: int)
    ensures IsReduced(WrapI128(x), x) && (IsI128(x) ==> WrapI128(x) == x)
  {
  }

  // The same rounding without the width of the intermediate values.
  function Rounded(x: int, d: int): int
    requires d > 0
  {
    if x >= 0 then x / d + (if x % d >= d / 2 then 1 else 0)
    else -((-x) / d + (if (-x) % d >= d / 2 then 1 else 0))
  }

  lemma TimesAtLeastOne(d: int, q: int)
    requires d >= 1 && q >= 0
    ensures q <= d * q
  {
  }

  lemma QuotientBound(x: int, d: int)
    requires x >= 0 && d >= 1
    ensures 0 <= x / d <= x && 0 <= x % d < d
  {
    var q, r := x / d, x % d;
    assert x == d * q + r;
    TimesAtLeastOne(d, q);
  }

  // No 256-bit step wraps, whatever the divisor, short of the largest dividend.
  lemma NoStepWraps(x: int, d: int)
    requires 1 <= d <= I256_MAX && Abs(x) < I256_MAX
    ensures DivideAndRound(x, d) == Rounded(x, d)
  {
    QuotientBound(Abs(x), d);
    WrapKeepsI256(DivTrunc(x, d));
    WrapKeepsI256(ModTrunc(x, d));
    WrapKeepsI256(d / 2);
    WrapKeepsI256(-(d / 2));
    WrapKeepsI256(DivTrunc(x, d) + 1);
    WrapKeepsI256(DivTrunc(x, d) - 1);
  }

  // Halving the divisor exactly is what makes the rounding right.
  lemma EvenDivisorRounds(x: int, d: int)
    requires d > 0 && d % 2 == 0
    ensures IsNearest(x, d, Rounded(x, d))
  {
    var q, r := Abs(x) / d, Abs(x) % d;
    assert Abs(x) == d * q + r;
    Multiples(d, q);
    if x >= 0 {
      assert Rounded(x, d) == if r >= d / 2 then q + 1 else q;
    } else {
      assert Rounded(x, d) == if r >= d / 2 then -(q + 1) else -q;
    }
  }

  lemma Multiples(d: int, q: int)
    ensures q * d == d * q && (q + 1) * d == d * q + d
    ensures (-q) * d == -(d * q) && (-(q + 1)) * d == -(d * q) - d
  {
  }

  lemma OddDivisorFails(d: int)
    requires d > 0 && d % 2 == 1
    ensures !IsNearest(d / 2, d, Rounded(d / 2, d))
  {
    assert d / 2 < d && (d / 2) / d == 0 && (d / 2) % d == d / 2;
  }

  // The exact condition: rounding is to the nearest for every dividend iff the divisor is even.
  // A divisor 10^s is even iff s > 0; with s = 0 the divisor is 1 and every quotient is off by one,
  // so the callers skip the division when the scales are equal.
  lemma RoundsToNearestIffEven(d: int)
    requires 1 <= d <= I256_MAX
    ensures (forall x :: Abs(x) < I256_MAX ==> IsNearest(x, d, DivideAndRound(x, d))) <==> d % 2 == 0
  {
    forall x | Abs(x) < I256_MAX ensures DivideAndRound(x, d) == Rounded(x, d) {
      NoStepWraps(x, d);
    }
    if d % 2 == 0 {
      forall x | Abs(x) < I256_MAX ensures IsNearest(x, d, DivideAndRound(x, d)) {
        EvenDivisorRounds(x, d);
      }
    } else {
      OddDivisorFails(d);
      assert Abs(d / 2) < I256_MAX && DivideAndRound(d / 2, d) == Rounded(d / 2, d);
    }
  }

  lemma MultiplesApart(d: int, p: int, q: int)
    requires d > 0 && p > q
    ensures p * d - q * d >= d
  {
    assert (p - q) * d == p * d - q * d;
    assert (p - q - 1) * d >= 0;
  }

  // Two multiples that are both within half a unit of x are one unit apart with x in the middle,
  // and then only one of them is the further from zero.
  lemma ShareAMidpoint(x: int, d: int, low: int, high: int)
    requires d > 0 && high - low >= d
    requires IsNear(x, d, low) && IsNear(x, d, high)
    ensures low < 0 < high && high - low == d && 2 * x == low + high
  {
  }

  lemma SignOfMultiple(d: int, p: int)
    requires d > 0
    ensures if p > 0 then p * d >= d else if p < 0 then p * d <= -d else p * d == 0
  {
    assert p > 0 ==> (p - 1) * d >= 0;
    assert p < 0 ==> (-p - 1) * d >= 0;
  }

  lemma NearestNotAbove(x: int, d: int, p: int, q: int)
    requires d > 0 && IsNearest(x, d, p) && IsNearest(x, d, q)
    ensures p <= q
  {
    SignOfMultiple(d, p);
    SignOfMultiple(d, q);
    if p > q {
      MultiplesApart(d, p, q);
      ShareAMidpoint(x, d, q * d, p * d);
    }
  }

  lemma NearestIsUnique(x: int, d: int, p: int, q: int)
    requires d > 0 && IsNearest(x, d, p) && IsNearest(x, d, q)
    ensures p == q
  {
    NearestNotAbove(x, d, p, q);
    NearestNotAbove(x, d, q, p);
  }

  lemma {:induction false} Pow10Adds(a: nat, b: nat)
    ensures Pow10(a + b) == Pow10(a) * Pow10(b)
  {
    if a != 0 {
      Pow10Adds(a - 1, b);
      assert 10 * (Pow10(a - 1) * Pow10(b)) == (10 * Pow10(a - 1)) * Pow10(b);
    }
  }

  lemma {:induction false} Pow10Positive(n: nat)
    ensures Pow10(n) >= 1
  {
    if n != 0 {
      Pow10Positive(n - 1);
    }
  }

  lemma TenTimes(p: int)
    ensures (10 * p) % 2 == 0
  {
    assert 10 * p == 2 * (5 * p);
  }

  lemma {:induction false} Pow10Monotone(m: nat, n: nat)
    requires m <= n
    ensures Pow10(m) <= Pow10(n)
    decreases n
  {
    if m < n {
      Pow10Monotone(m, n - 1);
    }
  }

  lemma HalfOfLargestScale()
    ensures Pow10(38) == 100_0000_0000_0000_0000_0000_0000_0000_0000_0000
  {
    assert Pow10(4) == 10000 by { assert Pow10(2) == 100; }
    assert Pow10(8) == 1_0000_0000 by { Pow10Adds(4, 4); }
    assert Pow10(16) == 1_0000_0000_0000_0000 by { Pow10Adds(8, 8); }
    assert Pow10(32) == 1_0000_0000_0000_0000_0000_0000_0000_0000 by { Pow10Adds(16, 16); }
    Pow10Adds(32, 4);
    Pow10Adds(36, 2);
    assert Pow10(2) == 100;
  }

  lemma LargestScaleFits()
    ensures Pow10(76) <= I256_MAX < Pow10(77)
  {
    HalfOfLargestScale();
    Pow10Adds(38, 38);
    assert Pow10(77) == 10 * Pow10(76);
  }

  // ---- one element ----

  function Pow2(n: nat): nat {
    if n == 0 then 1 else 2 * Pow2(n - 1)
  }

  function Pow5(n: nat): nat {
    if n == 0 then 1 else 5 * Pow5(n - 1)
  }

  lemma {:induction false} Pow2Adds(a: nat, b: nat)
    ensures Pow2(a + b) == Pow2(a) * Pow2(b)
  {
    if a != 0 {
      Pow2Adds(a - 1, b);
      assert 2 * (Pow2(a - 1) * Pow2(b)) == (2 * Pow2(a - 1)) * Pow2(b);
    }
  }

  lemma SizeIsPower()
    ensures Pow2(128) == 2 * (I128_MAX + 1) && Pow2(256) == 2 * (I256_MAX + 1)
  {
    assert Pow2(8) == 256 by { assert Pow2(4) == 16 by { assert Pow2(2) == 4; } Pow2Adds(4, 4); }
    assert Pow2(16) == 0x1_0000 by { Pow2Adds(8, 8); }
    assert Pow2(32) == 0x1_0000_0000 by { Pow2Adds(16, 16); }
    assert Pow2(64) == 0x1_0000_0000_0000_0000 by { Pow2Adds(32, 32); }
    assert Pow2(128) == 0x1_0000_0000_0000_0000_0000_0000_0000_0000 by { Pow2Adds(64, 64); }
    Pow2Adds(128, 128);
  }

  lemma TimesFive(p: int)
    requires p % 2 == 1
    ensures (5 * p) % 2 == 1
  {
    assert 5 * p == p + 2 * (2 * p);
  }

  lemma {:induction false} Pow5Odd(n: nat)
    ensures Pow5(n) % 2 == 1
  {
    if n != 0 {
      Pow5Odd(n - 1);
      TimesFive(Pow5(n - 1));
    }
  }

  lemma {:induction false} Pow10Splits(n: nat)
    ensures Pow10(n) == Pow2(n) * Pow5(n)
  {
    if n != 0 {
      Pow10Splits(n - 1);
      var p, f := Pow2(n - 1), Pow5(n - 1);
      assert (2 * p) * (5 * f) == 10 * (p * f);
    }
  }

  // An odd number of times 2^n has no more than n factors of two.
  lemma {:induction false} TooManyTwos(m: nat, k: int, n: nat, odd: int)
    requires n < m && odd % 2 == 1
    ensures Pow2(m) * k != Pow2(n) * odd
  {
    var half := Pow2(m - 1);
    assert (2 * half) * k == 2 * (half * k);
    if n != 0 {
      TooManyTwos(m - 1, k, n - 1, odd);
      assert (2 * Pow2(n - 1)) * odd == 2 * (Pow2(n - 1) * odd);
    } else {
      assert Pow2(0) * odd == odd;
    }
  }

  lemma WrapsToZero(x: int)
    requires WrapI256(x) == 0
    ensures x == (2 * (I256_MAX + 1)) * (x / (2 * (I256_MAX + 1)))
  {
    var m := 2 * (I256_MAX + 1);
    assert (x - I256_MIN) % m == -I256_MIN;
    var q := (x - I256_MIN) / m;
    assert x - I256_MIN == m * q + -I256_MIN;
    assert x == m * q;
  }

  // The wrapped power is never zero, since 10^drop has fewer than 256 factors of two.
  lemma WrappedPowerIsNotZero(drop: nat)
    requires drop < 256
    ensures WrapI256(Pow10(drop)) != 0
  {
    if WrapI256(Pow10(drop)) == 0 {
      WrapsToZero(Pow10(drop));
      SizeIsPower();
      Pow10Splits(drop);
      Pow5Odd(drop);
      TooManyTwos(256, Pow10(drop) / Pow2(256), drop, Pow5(drop));
    }
  }

  // The divisor `get_fixed_point_info` computes with a wrapping power.
  function Divisor(drop: nat): (d: int)
    ensures drop < 256 ==> d != 0
  {
    if drop < 256 then WrappedPowerIsNotZero(drop); WrapI256(Pow10(drop)) else WrapI256(Pow10(drop))
  }

  lemma DivisorIsPower(drop: nat)
    requires drop <= 76
    ensures Divisor(drop) == Pow10(drop) >= 1
    ensures drop > 0 ==> Divisor(drop) >= 10 && Divisor(drop) % 2 == 0
    ensures drop == 0 ==> Divisor(drop) == 1
  {
    LargestScaleFits();
    Pow10Monotone(drop, 76);
    Pow10Positive(drop);
    WrapKeepsI256(Pow10(drop));
    if drop > 0 {
      Pow10Positive(drop - 1);
      TenTimes(Pow10(drop - 1));
    }
  }

  // The closure of `multiply_fixed_point_checked`; equal scales skip the rounding division.
  function CheckedProduct(a: int, b: int, drop: nat): Result<int, ArithmeticError>
    requires Divisor(drop) != 0
  {
    var q := if drop == 0 then a * b else DivideAndRound(WrapI256(a * b), Divisor(drop));
    if IsI128(q) then Ok(q) else Err(Overflow)
  }

  // The closure of `multiply_fixed_point`.
  function WrappingProduct(a: int, b: int, drop: nat): int
    requires Divisor(drop) != 0
  {
    if drop == 0 then WrapI128(a * b)
    else WrapI128(DivideAndRound(WrapI256(a * b), Divisor(drop)))
  }

  lemma ProductOfBounded(x: int, y: int, m: int)
    requires 0 <= x <= m && 0 <= y <= m
    ensures 0 <= x * y <= m * m
  {
    assert x * y <= m * y;
    assert m * y <= m * m;
  }

  lemma SignedProduct(x: int, y: int)
    ensures (-x) * y == -(x * y) && x * (-y) == -(x * y) && (-x) * (-y) == x * y
  {
  }

  lemma ProductBound(a: int, b: int, m: int)
    requires Abs(a) <= m && Abs(b) <= m
    ensures -(m * m) <= a * b <= m * m
  {
    SignedProduct(Abs(a), Abs(b));
    ProductOfBounded(Abs(a), Abs(b), m);
  }

  // The rounded 256-bit quotient is the nearest integer to a * b / 10^drop.
  lemma ProductIsNearest(a: int, b: int, drop: nat)
    requires IsI128(a) && IsI128(b) && 1 <= drop <= 76
    ensures Divisor(drop) > 0 && WrapI256(a * b) == a * b
    ensures IsNearest(a * b, Pow10(drop), DivideAndRound(WrapI256(a * b), Divisor(drop)))
  {
    DivisorIsPower(drop);
    LargestScaleFits();
    Pow10Monotone(drop, 76);
    ProductBound(a, b, I128_MAX + 1);
    WrapKeepsI256(a * b);
    NoStepWraps(a * b, Pow10(drop));
    EvenDivisorRounds(a * b, Pow10(drop));
  }

  lemma ExactIsNearest(x: int, q: int)
    ensures IsNearest(x, 1, q) <==> q == x
  {
    assert q * 1 == q;
  }

  // For any drop in scale up to 76 the checked product is the nearest integer when that is an
  // i128 and an error otherwise; the unchecked product is the same integer reduced to 128 bits.
  lemma ProductMeaning(a: int, b: int, drop: nat, q: int)
    requires IsI128(a) && IsI128(b) && drop <= 76 && Pow10(drop) > 0
    requires IsNearest(a * b, Pow10(drop), q)
    ensures Divisor(drop) > 0
    ensures CheckedProduct(a, b, drop) == if IsI128(q) then Ok(q) else Err(Overflow)
    ensures IsReduced(WrappingProduct(a, b, drop), q) && (IsI128(q) ==> WrappingProduct(a, b, drop) == q)
  {
    DivisorIsPower(drop);
    WrapReduces(q);
    if drop == 0 {
      ExactIsNearest(a * b, q);
    } else {
      ProductIsNearest(a, b, drop);
      NearestIsUnique(a * b, Pow10(drop), q, DivideAndRound(WrapI256(a * b), Divisor(drop)));
    }
  }

  lemma NearestExists(a: int, b: int, drop: nat) returns (q: int)
    requires IsI128(a) && IsI128(b) && drop <= 76
    ensures Pow10(drop) > 0 && IsNearest(a * b, Pow10(drop), q)
  {
    DivisorIsPower(drop);
    if drop == 0 {
      ExactIsNearest(a * b, a * b);
      q := a * b;
    } else {
      ProductIsNearest(a, b, drop);
      q := DivideAndRound(WrapI256(a * b), Divisor(drop));
    }
  }

  // The checked closure gives the nearest integer to a * b / 10^drop, or an error if it overflows.
  ghost predicate CheckedIsRight(a: int, b: int, drop: nat)
    requires Divisor(drop) != 0 && Pow10(drop) > 0
  {
    forall q :: IsNearest(a * b, Pow10(drop), q) ==>
      CheckedProduct(a, b, drop) == if IsI128(q) then Ok(q) else Err(Overflow)
  }

  // The unchecked one gives what is left of it in 128 bits.
  ghost predicate WrappingIsRight(a: int, b: int, drop: nat)
    requires Divisor(drop) != 0 && Pow10(drop) > 0
  {
    forall q :: IsNearest(a * b, Pow10(drop), q) ==> IsReduced(WrappingProduct(a, b, drop), q)
  }

  lemma PowerTooLarge(drop: nat)
    requires drop >= 77
    ensures Pow10(drop) > I256_MAX && Pow10(drop) > 2 * (I128_MIN * I128_MIN)
  {
    LargestScaleFits();
    Pow10Monotone(77, drop);
  }

  lemma {:induction false} Pow2Monotone(m: nat, n: nat)
    requires m <= n
    ensures 1 <= Pow2(m) <= Pow2(n)
    decreases n
  {
    if m < n {
      Pow2Monotone(m, n - 1);
    } else if m > 0 {
      Pow2Monotone(m - 1, m - 1);
    }
  }

  // The largest power of two below d is at least half of d.
  lemma {:induction false} PowerBelow(d: int, n: nat) returns (m: nat)
    requires 2 <= d <= Pow2(n)
    ensures m < n && Pow2(m) < d <= 2 * Pow2(m)
  {
    if d > Pow2(n - 1) {
      m := n - 1;
    } else {
      m := PowerBelow(d, n - 1);
    }
  }

  // Every power of two up to 2^254 is a product of two 128-bit integers.
  lemma PowerAsProduct(m: nat) returns (a: int, b: int)
    requires m <= 254
    ensures IsI128(a) && IsI128(b) && a * b == Pow2(m)
  {
    var i := if m <= 127 then m else 127;
    Pow2Monotone(i, 127);
    Pow2Monotone(m - i, 127);
    Pow2At127();
    Pow2Adds(i, m - i);
    SignedProduct(Pow2(i), Pow2(m - i));
    a, b := 0 - Pow2(i), 0 - Pow2(m - i);
  }

  lemma Pow2At127()
    ensures Pow2(127) == -I128_MIN && Pow2(255) == I256_MAX + 1
  {
    SizeIsPower();
    assert Pow2(128) == 2 * Pow2(127) && Pow2(256) == 2 * Pow2(255);
  }

  lemma RemainderIsEven(x: int, h: int)
    requires x % 2 == 0 && h > 0
    ensures (x % (2 * h)) % 2 == 0
  {
    var q, r := x / (2 * h), x % (2 * h);
    assert x == (2 * h) * q + r;
    assert (2 * h) * q == 2 * (h * q);
  }

  lemma SumIsEven(x: int, y: int)
    requires x % 2 == 0 && y % 2 == 0
    ensures (x + y) % 2 == 0 && (x - y) % 2 == 0
  {
  }

  lemma WrapKeepsEven(x: int)
    requires x % 2 == 0
    ensures WrapI256(x) % 2 == 0
  {
    assert I256_MIN % 2 == 0;
    SumIsEven(x, I256_MIN);
    RemainderIsEven(x - I256_MIN, I256_MAX + 1);
    SumIsEven(I256_MIN, (x - I256_MIN) % (2 * (I256_MAX + 1)));
  }

  lemma DivisorIsEven(drop: nat)
    requires drop > 0
    ensures Divisor(drop) % 2 == 0
  {
    TenTimes(Pow10(drop - 1));
    WrapKeepsEven(Pow10(drop));
  }

  // For a drop above 76 every product is nearest to zero, but some come out as one: zero itself
  // under a negative divisor, and a power of two that is at least half of a positive one.
  lemma SomeProductBecomesOne(drop: nat) returns (a: int, b: int)
    requires 77 <= drop < 256
    ensures IsI128(a) && IsI128(b) && Pow10(drop) > 0 && IsNearest(a * b, Pow10(drop), 0)
    ensures CheckedProduct(a, b, drop) == Ok(1) && WrappingProduct(a, b, drop) == 1
  {
    var d := Divisor(drop);
    PowerTooLarge(drop);
    WrapKeepsI256(1);
    WrapReduces(1);
    assert 0 * Pow10(drop) == 0;
    if d < 0 {
      a, b := 0, 0;
      HalfOfNegative(d);
      WrapKeepsI256(0);
      WrapKeepsI256(DivTrunc(d, 2));
    } else {
      DivisorIsEven(drop);
      Pow2At127();
      var m := PowerBelow(d, 255);
      a, b := PowerAsProduct(m);
      Pow2Monotone(m, 254);
      WrapKeepsI256(a * b);
      NoStepWraps(a * b, d);
      MoreThanHalf(a * b, d);
    }
  }

  lemma HalfOfNegative(d: int)
    requires IsI256(d) && d < 0
    ensures DivTrunc(0, d) == 0 && ModTrunc(0, d) == 0 && DivTrunc(d, 2) <= 0 && IsI256(DivTrunc(d, 2))
  {
  }

  lemma MoreThanHalf(x: int, d: int)
    requires 0 < x < d <= 2 * x
    ensures Rounded(x, d) == 1
  {
    assert x / d == 0 && x % d == x;
  }

  // The exact condition, for each form: it is right for all factors iff the scale drops by at most
  // 76, as far as 10^drop fits 256 bits.
  lemma RoundsRightIff(drop: nat)
    requires drop < 256
    ensures Divisor(drop) != 0 && Pow10(drop) > 0
    ensures (forall a, b :: IsI128(a) && IsI128(b) ==> CheckedIsRight(a, b, drop)) <==> drop <= 76
    ensures (forall a, b :: IsI128(a) && IsI128(b) ==> WrappingIsRight(a, b, drop)) <==> drop <= 76
  {
    Pow10Positive(drop);
    if drop <= 76 {
      forall a, b | IsI128(a) && IsI128(b) ensures CheckedIsRight(a, b, drop) && WrappingIsRight(a, b, drop) {
        forall q | IsNearest(a * b, Pow10(drop), q)
          ensures CheckedProduct(a, b, drop) == (if IsI128(q) then Ok(q) else Err(Overflow))
          ensures IsReduced(WrappingProduct(a, b, drop), q)
        {
          ProductMeaning(a, b, drop, q);
        }
      }
    } else {
      var a, b := SomeProductBecomesOne(drop);
      assert !CheckedIsRight(a, b, drop) && !WrappingIsRight(a, b, drop);
    }
  }

  // ---- whole arrays ----

  datatype DecimalArray = DecimalArray(data: PrimitiveArray<int>, precision: nat, scale: int) {
    ghost predicate Valid() {
      && data.Valid() && precision <= MAX_PRECISION
      && forall i :: 0 <= i < data.Len() ==> IsI128(data.values[i])
    }
  }

  datatype MultiplyError = ScaleTooLarge | Kernel(error: KernelError<ArithmeticError>) | TypeRefused

  // Scales are 8-bit, and so are the sum of the two and the drop to the required one.
  predicate ScalesFit(left: DecimalArray, right: DecimalArray, requiredScale: int) {
    -128 <= left.scale + right.scale <= 127 && left.scale + right.scale - requiredScale <= 127
  }

  function ResultPrecision(left: DecimalArray, right: DecimalArray): nat {
    if left.precision + right.precision + 1 < MAX_PRECISION then left.precision + right.precision + 1 else MAX_PRECISION
  }

  // Every value of the array has no more digits than its precision says.
  ghost predicate WithinPrecision(a: DecimalArray)
    requires a.Valid()
  {
    forall i :: 0 <= i < a.data.Len() ==> Abs(a.data.values[i]) < Pow10(a.precision)
  }

  ghost predicate NearestAt(left: DecimalArray, right: DecimalArray, drop: nat, i: nat, q: int)
    requires left.Valid() && right.Valid() && i < left.data.Len() == right.data.Len()
  {
    Pow10(drop) > 0 && IsNearest(left.data.values[i] * right.data.values[i], Pow10(drop), q)
  }

  // The nearest product at a doubly valid index does not fit 128 bits.
  ghost predicate OverflowsAt(left: DecimalArray, right: DecimalArray, drop: nat, i: nat)
    requires left.Valid() && right.Valid() && left.data.Len() == right.data.Len()
  {
    && i < left.data.Len() && BothValid(left.data, right.data, i)
    && exists q :: NearestAt(left, right, drop, i, q) && !IsI128(q)
  }

  lemma NearestOfPair(left: DecimalArray, right: DecimalArray, drop: nat, i: nat) returns (q: int)
    requires left.Valid() && right.Valid() && i < left.data.Len() == right.data.Len() && drop <= 76
    ensures NearestAt(left, right, drop, i, q) && Divisor(drop) > 0
    ensures CheckedProduct(left.data.values[i], right.data.values[i], drop)
            == if IsI128(q) then Ok(q) else Err(Overflow)
    ensures IsReduced(WrappingProduct(left.data.values[i], right.data.values[i], drop), q)
    ensures forall p :: NearestAt(left, right, drop, i, p) ==> p == q
  {
    var a, b := left.data.values[i], right.data.values[i];
    q := NearestExists(a, b, drop);
    ProductMeaning(a, b, drop, q);
    forall p | NearestAt(left, right, drop, i, p) ensures p == q {
      NearestIsUnique(a * b, Pow10(drop), p, q);
    }
  }

  // The closure's outcome at index i, in terms of the nearest integer.
  lemma ProductAt(left: DecimalArray, right: DecimalArray, drop: nat, i: nat)
    requires left.Valid() && right.Valid() && i < left.data.Len() == right.data.Len() && drop <= 76
    ensures Divisor(drop) > 0
    ensures var v := CheckedProduct(left.data.values[i], right.data.values[i], drop);
      && (v.Ok? ==> IsI128(v.value) && NearestAt(left, right, drop, i, v.value))
      && (BothValid(left.data, right.data, i) ==> (v.Err? <==> OverflowsAt(left, right, drop, i)))
  {
    var q := NearestOfPair(left, right, drop, i);
  }

  lemma TimesKeepsOrder(x: int, y: int, c: int)
    requires x <= y && c >= 0
    ensures x * c <= y * c
  {
    assert (y - x) * c == y * c - x * c;
  }

  lemma AbsOfProduct(x: int, y: int)
    ensures Abs(x * y) == Abs(x) * Abs(y)
  {
    SignedProduct(Abs(x), Abs(y));
    TimesKeepsOrder(0, Abs(x), Abs(y));
  }

  lemma ProductOfDigits(a: int, b: int, m: int, n: int)
    requires Abs(a) < m && Abs(b) < n
    ensures Abs(a * b) < m * n
  {
    AbsOfProduct(a, b);
    TimesKeepsOrder(Abs(a), m - 1, Abs(b));
    TimesKeepsOrder(Abs(b), n - 1, m - 1);
    assert (m - 1) * Abs(b) == Abs(b) * (m - 1) && (n - 1) * (m - 1) == m * n - m - n + 1;
  }

  lemma LargeMultiple(q: int, d: int, n: int)
    requires q >= n >= 1 && d >= 1
    ensures q * d >= n + d - 1
  {
    TimesKeepsOrder(n, q, d);
    TimesKeepsOrder(1, n, d - 1);
    assert n * d == n * (d - 1) + n;
  }

  // Rounding a quotient never adds a digit.
  lemma NearestNoLarger(x: int, d: int, q: int, n: int)
    requires d > 0 && IsNearest(x, d, q) && Abs(x) < n
    ensures Abs(q) < n
  {
    if Abs(q) >= n {
      AbsOfProduct(q, d);
      LargeMultiple(Abs(q), d, n);
      FarFromLarge(x, d, q * d, n);
    }
  }

  lemma FarFromLarge(x: int, d: int, m: int, n: int)
    requires d > 0 && Abs(x) < n && Abs(m) >= n + d - 1
    ensures !IsNear(x, d, m)
  {
  }

  // What the result precision is for.  Below the largest precision it counts one digit more than
  // the factors have between them: products of factors within their precisions are within one
  // digit less, so they fit the result type and none overflows, whatever the drop in scale.
  lemma ProductsFitPrecision(left: DecimalArray, right: DecimalArray, drop: nat, i: nat, q: int)
    requires left.Valid() && right.Valid() && i < left.data.Len() == right.data.Len()
    requires WithinPrecision(left) && WithinPrecision(right) && left.precision + right.precision + 1 < 38
    requires NearestAt(left, right, drop, i, q)
    ensures ResultPrecision(left, right) == left.precision + right.precision + 1
    ensures Abs(q) < Pow10(left.precision + right.precision) && IsI128(q)
    ensures drop <= 76 ==> !OverflowsAt(left, right, drop, i)
  {
    var a, b := left.data.values[i], right.data.values[i];
    ProductOfDigits(a, b, Pow10(left.precision), Pow10(right.precision));
    Pow10Adds(left.precision, right.precision);
    NearestNoLarger(a * b, Pow10(drop), q, Pow10(left.precision + right.precision));
    Pow10Monotone(left.precision + right.precision, 38);
    HalfOfLargestScale();
    if drop <= 76 {
      var p := NearestOfPair(left, right, drop, i);
    }
  }

  // The closure fails at a doubly valid index.
  ghost predicate ProductFailsAt(left: DecimalArray, right: DecimalArray, drop: nat, i: nat)
    requires left.Valid() && right.Valid() && left.data.Len() == right.data.Len() && Divisor(drop) != 0
  {
    && i < left.data.Len() && BothValid(left.data, right.data, i)
    && CheckedProduct(left.data.values[i], right.data.values[i], drop).Err?
  }

  // Some product fails; for a drop of at most 76, some nearest product overflows.
  ghost predicate Fails(left: DecimalArray, right: DecimalArray, drop: nat)
    requires left.Valid() && right.Valid() && left.data.Len() == right.data.Len() && Divisor(drop) != 0
  {
    exists i :: ProductFailsAt(left, right, drop, i)
  }

  lemma FailsIffOverflows(left: DecimalArray, right: DecimalArray, drop: nat)
    requires left.Valid() && right.Valid() && left.data.Len() == right.data.Len() && drop <= 76
    ensures Fails(left, right, drop) <==> exists i :: OverflowsAt(left, right, drop, i)
  {
    forall i | 0 <= i < left.data.Len() && BothValid(left.data, right.data, i)
      ensures ProductFailsAt(left, right, drop, i) <==> OverflowsAt(left, right, drop, i)
    {
      ProductAt(left, right, drop, i);
    }
    if i :| OverflowsAt(left, right, drop, i) {
      assert ProductFailsAt(left, right, drop, i);
    }
  }

  // The product at a doubly valid index: what the closure gives, and for a drop of at most 76 the
  // nearest integer.
  ghost predicate IsProductAt(left: DecimalArray, right: DecimalArray, drop: nat, i: nat, v: int)
    requires left.Valid() && right.Valid() && i < left.data.Len() == right.data.Len() && Divisor(drop) != 0
  {
    && CheckedProduct(left.data.values[i], right.data.values[i], drop) == Ok(v)
    && (drop <= 76 ==> IsI128(v) && NearestAt(left, right, drop, i, v))
  }

  lemma CheckedOutcome(left: DecimalArray, right: DecimalArray, drop: nat,
                       op: (int, int) -> Result<int, ArithmeticError>,
                       k: Result<PrimitiveArray<int>, KernelError<ArithmeticError>>)
    requires left.Valid() && right.Valid() && left.data.Len() == right.data.Len() && Divisor(drop) != 0
    requires forall a, b :: op(a, b) == CheckedProduct(a, b, drop)
    requires TryOutcome(op, left.data, right.data, k)
    ensures if Fails(left, right, drop) then k == Err(OpFailed(Overflow)) else k.Ok?
    ensures k.Ok? ==> forall i :: 0 <= i < left.data.Len() && BothValid(left.data, right.data, i) ==>
              IsProductAt(left, right, drop, i, k.value.values[i])
  {
    if k.Err? {
      var i :| FailsFirst(op, left.data, right.data, k.error.error, i);
      assert ProductFailsAt(left, right, drop, i);
    } else {
      forall i | 0 <= i < left.data.Len() && BothValid(left.data, right.data, i)
        ensures IsProductAt(left, right, drop, i, k.value.values[i]) && !ProductFailsAt(left, right, drop, i)
      {
        if drop <= 76 {
          ProductAt(left, right, drop, i);
        }
      }
    }
  }

  // `accepts` is the array type's own test of a precision and scale, `with_precision_and_scale`.
  method Retype(out: PrimitiveArray<int>, precision: nat, scale: int, accepts: (nat, int) -> bool)
    returns (r: Result<DecimalArray, MultiplyError>)
    ensures r == if accepts(precision, scale) then Ok(DecimalArray(out, precision, scale)) else Err(TypeRefused)
  {
    if !accepts(precision, scale) {
      return Err(TypeRefused);
    }
    return Ok(DecimalArray(out, precision, scale));
  }

  method MultiplyFixedPointChecked(left: DecimalArray, right: DecimalArray, requiredScale: int,
                                   accepts: (nat, int) -> bool)
    returns (r: Result<DecimalArray, MultiplyError>)
    requires left.Valid() && right.Valid() && ScalesFit(left, right, requiredScale)
    ensures r == Err(ScaleTooLarge) <==> requiredScale > left.scale + right.scale
    ensures r != Err(ScaleTooLarge) ==> (r == Err(Kernel(LengthMismatch)) <==> left.data.Len() != right.data.Len())
    ensures r.Ok? ==>
      && r.value.scale == requiredScale
      && r.value.precision ==
         (if left.precision + right.precision < 37 then left.precision + right.precision + 1 else 38)
      && NullsMatch(left.data, right.data, r.value.data)
      && forall i :: 0 <= i < left.data.Len() && BothValid(left.data, right.data, i) ==>
           IsProductAt(left, right, left.scale + right.scale - requiredScale, i, r.value.data.values[i])
    ensures requiredScale <= left.scale + right.scale && left.data.Len() == right.data.Len() ==>
      if Fails(left, right, left.scale + right.scale - requiredScale) then r == Err(Kernel(OpFailed(Overflow)))
      else if accepts(ResultPrecision(left, right), requiredScale) then r.Ok?
      else r == Err(TypeRefused)
  {
    if requiredScale > left.scale + right.scale {
      return Err(ScaleTooLarge);
    }
    var drop := left.scale + right.scale - requiredScale;
    var op := (a: int, b: int) => CheckedProduct(a, b, drop);
    var k := TryBinary(op, left.data, right.data, 0);
    if left.data.Len() == right.data.Len() {
      CheckedOutcome(left, right, drop, op, k);
    }
    match k
    case Err(e) =>
      return Err(Kernel(e));
    case Ok(out) =>
      r := Retype(out, ResultPrecision(left, right), requiredScale, accepts);
  }

  method MultiplyFixedPoint(left: DecimalArray, right: DecimalArray, requiredScale: int, accepts: (nat, int) -> bool)
    returns (r: Result<DecimalArray, MultiplyError>)
    requires left.Valid() && right.Valid() && ScalesFit(left, right, requiredScale)
    ensures r == Err(ScaleTooLarge) <==> requiredScale > left.scale + right.scale
    ensures r != Err(ScaleTooLarge) ==> (r == Err(Kernel(LengthMismatch)) <==> left.data.Len() != right.data.Len())
    ensures requiredScale <= left.scale + right.scale && left.data.Len() == right.data.Len() ==>
      (r.Ok? <==> accepts(ResultPrecision(left, right), requiredScale)) && (r.Err? ==> r == Err(TypeRefused))
    ensures r.Ok? ==>
      var drop := left.scale + right.scale - requiredScale;
      && r.value.scale == requiredScale
      && r.value.precision ==
         (if left.precision + right.precision < 37 then left.precision + right.precision + 1 else 38)
      && NullsMatch(left.data, right.data, r.value.data)
      && (forall i :: 0 <= i < left.data.Len() ==>
            r.value.data.values[i] == WrappingProduct(left.data.values[i], right.data.values[i], drop))
      && (drop <= 76 ==>
            forall i, q :: 0 <= i < left.data.Len() && NearestAt(left, right, drop, i, q) ==>
              IsReduced(r.value.data.values[i], q))
  {
    if requiredScale > left.scale + right.scale {
      return Err(ScaleTooLarge);
    }
    var drop := left.scale + right.scale - requiredScale;
    var op := (a: int, b: int) => WrappingProduct(a, b, drop);
    var k: Result<PrimitiveArray<int>, KernelError<ArithmeticError>> := Binary(op, left.data, right.data);
    match k
    case Err(e) =>
      return Err(Kernel(e));
    case Ok(out) =>
      if drop <= 76 {
        forall i, q | 0 <= i < left.data.Len() && NearestAt(left, right, drop, i, q)
          ensures IsReduced(out.values[i], q)
        {
          var p := NearestOfPair(left, right, drop, i);
        }
      }
      r := Retype(out, ResultPrecision(left, right), requiredScale, accepts);
  }
}
