/**
 The numeric detour of an integer reading: Go's int -> float64 -> int on a
 64-bit target.  IEEE 754-2019 section 5.4.1 makes the first conversion round
 to nearest, ties to even (section 4.3.1).
 */
module Float64 {

  /** Significand width of binary64. */
  const PRECISION_LIMIT: int := 0x20_0000_0000_0000  // 2^53
  const INT64_LIMIT: int := 0x8000_0000_0000_0000    // 2^63

  predicate IsInt64(n: int) {
    -INT64_LIMIT <= n < INT64_LIMIT
  }

  /** Two's complement wrap-around of Go's int arithmetic. */
  function Wrap64(n: int): (r: int)
    ensures IsInt64(r)
    ensures IsInt64(n) ==> r == n
    ensures r == n ==> IsInt64(n)
  {
    (n + INT64_LIMIT) % (2 * INT64_LIMIT) - INT64_LIMIT
  }

  function Pow2(e: nat): (p: nat)
    ensures p >= 1
  {
    if e == 0 then 1 else 2 * Pow2(e - 1)
  }

  function Abs(n: int): nat {
    if n < 0 then -n else n
  }

  /** Integers that are binary64 values: a 53-bit significand (or 2^53 itself) times a power of two. */
  ghost predicate Representable(v: int) {
    exists k: int, e: nat :: IsScaled(v, k, e)
  }

  ghost predicate IsScaled(v: int, k: int, e: nat) {
    Abs(k) <= PRECISION_LIMIT && v == k * Pow2(e)
  }

  /** The exponent of the last significand bit of a magnitude. */
  function Exponent(m: nat): (e: nat)
  {
    if m < PRECISION_LIMIT then 0 else 1 + Exponent(m / 2)
  }

  /** The multiple of unit nearest to m, the even one of two. */
  function RoundTo(m: nat, unit: nat): (r: int)
    requires unit >= 1
    ensures r >= 0
  {
    var q, r := m / unit, m % unit;
    if 2 * r < unit || (2 * r == unit && q % 2 == 0) then q * unit else (q + 1) * unit
  }

  function RoundMagnitude(m: nat): (r: int)
    ensures r >= 0
  {
    RoundTo(m, Pow2(Exponent(m)))
  }

  /** float64(n), which is always a whole number. */
  function FromInt(n: int): int {
    if n < 0 then -RoundMagnitude(-n) else RoundMagnitude(n)
  }

  function Truncate(x: real): int {
    if x >= 0.0 then x.Floor else -((-x).Floor)
  }

  /** The fraction is dropped, toward zero. */
  lemma TruncatesTowardZero(x: real)
    ensures x >= 0.0 ==> 0.0 <= Truncate(x) as real <= x < Truncate(x) as real + 1.0
    ensures x <= 0.0 ==> Truncate(x) as real - 1.0 < x <= Truncate(x) as real <= 0.0
    ensures IsInt64(Truncate(x)) ==> ToInt(x) == Truncate(x)
    ensures !IsInt64(Truncate(x)) ==> ToInt(x) == -0x8000_0000_0000_0000
  {
  }

  /** int(x).  Go leaves a result outside int64 to the target; this is what amd64 gives. */
  function ToInt(x: real): (r: int)
    ensures IsInt64(r)
    ensures IsInt64(Truncate(x)) ==> r == Truncate(x)
  {
    if IsInt64(Truncate(x)) then Truncate(x) else -INT64_LIMIT
  }

  /** int(float64(n)) */
  function Detour(n: int): int {
    ToInt(FromInt(n) as real)
  }

  lemma {:induction false} ExponentBounds(m: nat)
    ensures m < PRECISION_LIMIT * Pow2(Exponent(m))
    ensures Exponent(m) > 0 ==> PRECISION_LIMIT * Pow2(Exponent(m)) <= 2 * m
  {
    if m >= PRECISION_LIMIT {
      ExponentBounds(m / 2);
      var p := Pow2(Exponent(m / 2));
      assert Pow2(Exponent(m)) == 2 * p;
      assert m / 2 < PRECISION_LIMIT * p;
    }
  }

  lemma {:induction false} Pow2Adds(a: nat, b: nat)
    ensures Pow2(a + b) == Pow2(a) * Pow2(b)
  {
    if a > 0 {
      Pow2Adds(a - 1, b);
    }
  }

  lemma MulMonotone(a: int, b: int, c: nat)
    requires a <= b
    ensures a * c <= b * c
  {
  }

  /** Multiples of a coarser unit are multiples of a finer one, so none lies strictly inside a gap. */
  lemma NoMultipleInside(q: nat, unit: nat, k: int, d: nat)
    ensures k * (unit * d) <= q * unit || k * (unit * d) >= (q + 1) * unit
  {
    assert k * (unit * d) == (k * d) * unit;
    if k * d <= q {
      MulMonotone(k * d, q, unit);
    } else {
      MulMonotone(q + 1, k * d, unit);
    }
  }

  /** A value with a finer unit stays below a magnitude whose significand is full. */
  lemma FinerIsBelow(q: nat, r: nat, half: nat, p: nat, k: int, limit: nat)
    requires 1 <= p <= half && r < 2 * half
    requires k <= 2 * limit && limit * (2 * half) <= q * (2 * half) + r
    ensures k * p <= q * (2 * half)
  {
    var unit := 2 * half;
    MulMonotone(k, 2 * limit, p);
    MulMonotone(p, half, 2 * limit);
    assert k * p <= limit * unit;
    if q < limit {
      MulMonotone(q + 1, limit, unit);
      assert false;
    }
    MulMonotone(limit, q, unit);
  }

  lemma DivMod(m: nat, unit: nat)
    requires unit >= 1
    ensures m == (m / unit) * unit + m % unit
    ensures (m / unit + 1) * unit == (m / unit) * unit + unit
  {
  }

  lemma CoarserIsOutside(q: nat, unit: nat, k: int, x: nat, e: nat)
    requires e >= x && unit == Pow2(x)
    ensures k * Pow2(e) <= q * unit || k * Pow2(e) >= (q + 1) * unit
  {
    Pow2Adds(x, e - x);
    NoMultipleInside(q, unit, k, Pow2(e - x));
  }

  lemma Pow2Monotone(a: nat, b: nat)
    requires a <= b
    ensures Pow2(a) <= Pow2(b)
  {
    if a < b {
      Pow2Monotone(a, b - 1);
    }
  }

  lemma FinerIsNotAbove(m: nat, q: nat, r: nat, x: nat, e: nat, k: int)
    requires e < x && m == q * Pow2(x) + r && r < Pow2(x) && PRECISION_LIMIT * Pow2(x) <= 2 * m && k <= PRECISION_LIMIT
    ensures k * Pow2(e) <= q * Pow2(x)
  {
    Pow2Monotone(e, x - 1);
    assert Pow2(x) == 2 * Pow2(x - 1);
    FinerIsBelow(q, r, Pow2(x - 1), Pow2(e), k, PRECISION_LIMIT / 2);
  }

  lemma OutsideGap(m: nat, q: nat, r: nat, x: nat, unit: nat, k: int, e: nat)
    requires unit == Pow2(x) && m == q * unit + r && r < unit && (x > 0 ==> PRECISION_LIMIT * unit <= 2 * m)
    requires Abs(k) <= PRECISION_LIMIT
    ensures k * Pow2(e) <= q * unit || k * Pow2(e) >= q * unit + unit
  {
    if e >= x {
      CoarserIsOutside(q, unit, k, x, e);
      assert (q + 1) * unit == q * unit + unit;
    } else {
      FinerIsNotAbove(m, q, r, x, e, k);
    }
  }

  /** No binary64 value lies strictly between the two candidates that rounding chooses from. */
  lemma NoRepresentableInside(m: nat, v: int, k: int, e: nat)
    requires IsScaled(v, k, e)
    ensures var unit := Pow2(Exponent(m));
            v <= (m / unit) * unit || v >= (m / unit) * unit + unit
  {
    var x := Exponent(m);
    var unit := Pow2(x);
    DivMod(m, unit);
    ExponentBounds(m);
    OutsideGap(m, m / unit, m % unit, x, unit, k, e);
  }

  /** Rounding picks the nearer end of the gap around m, and the even one of two equally near ends. */
  lemma RoundToInGap(m: nat, unit: nat)
    requires unit >= 1
    ensures var lo := (m / unit) * unit; var r := RoundTo(m, unit);
            && lo <= m < lo + unit
            && (r == lo || r == lo + unit)
            && 2 * Abs(r - m) <= unit
            && (2 * Abs(r - m) == unit ==> exists j: int :: r == 2 * j * unit)
            && (m == lo ==> r == lo)
  {
    var q, r := m / unit, m % unit;
    DivMod(m, unit);
    if 2 * r == unit {
      var j := if q % 2 == 0 then q / 2 else (q + 1) / 2;
      assert RoundTo(m, unit) == 2 * j * unit;
    }
  }

  lemma QuotientFits(m: nat, unit: nat, limit: nat)
    requires unit >= 1 && m < limit * unit
    ensures m / unit + 1 <= limit
  {
    DivMod(m, unit);
    if m / unit >= limit {
      MulMonotone(limit, m / unit, unit);
      assert false;
    }
  }

  lemma NegatedScaled(v: int, k: int, e: nat)
    requires IsScaled(v, k, e)
    ensures IsScaled(-v, -k, e)
  {
  }

  lemma RoundMagnitudeRepresentable(m: nat)
    ensures Representable(RoundMagnitude(m)) && Representable(-RoundMagnitude(m))
  {
    var x := Exponent(m);
    var unit := Pow2(x);
    ExponentBounds(m);
    QuotientFits(m, unit, PRECISION_LIMIT);
    DivMod(m, unit);
    RoundToInGap(m, unit);
    var k := if RoundMagnitude(m) == (m / unit) * unit then m / unit else m / unit + 1;
    assert IsScaled(RoundMagnitude(m), k, x);
    NegatedScaled(RoundMagnitude(m), k, x);
  }

  /** r is an even number of last-place units of m. */
  ghost predicate EvenSignificand(r: int, m: nat) {
    exists j: int :: r == 2 * j * Pow2(Exponent(m))
  }

  /** The claim of RoundsToNearestEven for a magnitude. */
  lemma MagnitudeNearest(m: nat, v: int)
    requires Representable(v)
    ensures Abs(RoundMagnitude(m) - m) <= Abs(v - m)
    ensures Abs(RoundMagnitude(m) - m) == Abs(v - m) && v != RoundMagnitude(m) ==>
              EvenSignificand(RoundMagnitude(m), m)
  {
    var k: int, e: nat :| IsScaled(v, k, e);
    NoRepresentableInside(m, v, k, e);
    RoundToInGap(m, Pow2(Exponent(m)));
  }

  /**
   Section 4.3.1 of IEEE 754-2019 for whole numbers: float64(n) is a binary64
   value, no binary64 value is nearer to n, and of two equally near ones the
   significand chosen is even.
   */
  lemma RoundsToNearestEven(n: int, v: int)
    requires Representable(v)
    ensures Representable(FromInt(n))
    ensures Abs(FromInt(n) - n) <= Abs(v - n)
    ensures Abs(FromInt(n) - n) == Abs(v - n) && v != FromInt(n) ==>
              EvenSignificand(Abs(FromInt(n)), Abs(n))
  {
    RoundMagnitudeRepresentable(Abs(n));
    if n < 0 {
      var k: int, e: nat :| IsScaled(v, k, e);
      NegatedScaled(v, k, e);
      MagnitudeNearest(-n, -v);
    } else {
      MagnitudeNearest(n, v);
    }
  }

  lemma {:induction false} ExponentBelow(m: nat, e: nat)
    requires m < PRECISION_LIMIT * Pow2(e)
    ensures Exponent(m) <= e
  {
    if m >= PRECISION_LIMIT && e > 0 {
      assert m / 2 < PRECISION_LIMIT * Pow2(e - 1);
      ExponentBelow(m / 2, e - 1);
    }
  }

  /** The error is at most half a unit, which is at most m / 2^53. */
  lemma MagnitudeError(m: nat)
    ensures m <= PRECISION_LIMIT ==> RoundMagnitude(m) == m
    ensures PRECISION_LIMIT * Abs(RoundMagnitude(m) - m) <= m
  {
    var unit := Pow2(Exponent(m));
    ExponentBounds(m);
    RoundToInGap(m, unit);
    var d := Abs(RoundMagnitude(m) - m);
    if Exponent(m) > 0 {
      MulMonotone(2 * d, unit, PRECISION_LIMIT);
      assert PRECISION_LIMIT * (2 * d) <= PRECISION_LIMIT * unit;
    }
  }

  lemma TopExponent(m: nat)
    requires INT64_LIMIT / 2 <= m <= INT64_LIMIT
    ensures Exponent(m) == if m == INT64_LIMIT then 11 else 10
  {
    assert Pow2(9) == 512 && Pow2(10) == 1024 && Pow2(11) == 2048;
    ExponentBounds(m);
    ExponentBelow(m, 11);
    if m < INT64_LIMIT {
      ExponentBelow(m, 10);
    }
    if Exponent(m) < 10 {
      Pow2Monotone(Exponent(m), 9);
      assert false;
    }
  }

  lemma RoundToTop(m: nat)
    requires INT64_LIMIT / 2 <= m < INT64_LIMIT
    ensures RoundTo(m, 1024) <= INT64_LIMIT
    ensures RoundTo(m, 1024) == INT64_LIMIT <==> m >= INT64_LIMIT - 512
  {
  }

  /** Rounding reaches 2^63 exactly from the last half unit below it. */
  lemma MagnitudeRange(m: nat)
    requires m <= INT64_LIMIT
    ensures RoundMagnitude(m) <= INT64_LIMIT
    ensures RoundMagnitude(m) == INT64_LIMIT <==> m >= INT64_LIMIT - 512
  {
    if m < INT64_LIMIT / 2 {
      MagnitudeError(m);
    } else {
      assert Pow2(10) == 1024 && Pow2(11) == 2048;
      TopExponent(m);
      if m < INT64_LIMIT {
        RoundToTop(m);
      }
    }
  }

  lemma TruncateWhole(n: int)
    ensures Truncate(n as real) == n
  {
  }

  /**
   A corrected integer that makes the detour: unchanged up to 2^53, and for
   every int64 the error is at most |n| / 2^53 exactly until the conversion back
   leaves int64, which happens for the last 512 positive values only.
   */
  lemma DetourError(n: int)
    requires IsInt64(n)
    ensures Abs(n) <= PRECISION_LIMIT ==> Detour(n) == n
    ensures IsInt64(FromInt(n)) <==> n < INT64_LIMIT - 512
    ensures n < INT64_LIMIT - 512 ==> PRECISION_LIMIT * Abs(Detour(n) - n) <= Abs(n)
    ensures n >= INT64_LIMIT - 512 ==> Detour(n) == -INT64_LIMIT
  {
    MagnitudeError(Abs(n));
    MagnitudeRange(Abs(n));
    TruncateWhole(FromInt(n));
  }

  /** float64 keeps an integer exactly when it is a binary64 value, so a second detour changes nothing. */
  lemma ExactIffRepresentable(n: int)
    ensures FromInt(n) == n <==> Representable(n)
    ensures FromInt(FromInt(n)) == FromInt(n)
  {
    if Representable(n) {
      RoundsToNearestEven(n, n);
    }
    RoundMagnitudeRepresentable(Abs(n));
    RoundsToNearestEven(FromInt(n), FromInt(n));
  }
}
