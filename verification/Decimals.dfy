/**
 The fraction of a duration: the float64 expression float64(f) * (float64(unit) / scale)
 of time.ParseDuration, where scale is ten, multiplied up once for each digit.
 Exponents are unbounded here; where binary64 would leave its range the whole
 nanoseconds are zero either way.
 */
module Decimals {
  import opened Float64

  const HALF_LIMIT: int := 0x10_0000_0000_0000  // 2^52

  /** A non-negative float64, as a fraction of whole numbers. */
  datatype Ratio = Ratio(n: nat, d: nat) {
    ghost predicate Valid() {
      d >= 1
    }
  }

  /** n / d rounded to a whole number, to the even one of two equally near ones. */
  function RoundQuotient(n: nat, d: nat): nat
    requires d >= 1
  {
    var q, r := n / d, n % d;
    if 2 * r < d || (2 * r == d && q % 2 == 0) then q else q + 1
  }

  /** n / d rounded to 53 significant bits. */
  function Nearest(n: nat, d: nat): (r: Ratio)
    requires d >= 1
    ensures r.Valid()
    decreases if n >= PRECISION_LIMIT * d then n - PRECISION_LIMIT * d + 1 else 0, if n < HALF_LIMIT * d then HALF_LIMIT * d - n else 0
  {
    if n == 0 then Ratio(0, 1)
    else if n >= PRECISION_LIMIT * d then
      var r := Nearest(n, 2 * d);
      Ratio(2 * r.n, r.d)
    else if n < HALF_LIMIT * d then
      var r := Nearest(2 * n, d);
      Ratio(r.n, 2 * r.d)
    else Ratio(RoundQuotient(n, d), 1)
  }

  function Distance(a: int, b: int): nat {
    Abs(a - b)
  }

  lemma RoundQuotientError(n: nat, d: nat)
    requires d >= 1
    ensures 2 * Distance(RoundQuotient(n, d) * d, n) <= d
  {
    DivMod(n, d);
  }

  /** The error r is off n / d by at most its 2^53rd part. */
  ghost predicate IsClose(r: Ratio, n: nat, d: nat) {
    PRECISION_LIMIT * Distance(r.n * d, n * r.d) <= n * r.d
  }

  lemma CloseInRange(n: nat, d: nat)
    requires d >= 1 && HALF_LIMIT * d <= n
    ensures IsClose(Ratio(RoundQuotient(n, d), 1), n, d)
  {
    var e := Distance(RoundQuotient(n, d) * d, n);
    RoundQuotientError(n, d);
    assert PRECISION_LIMIT * e == HALF_LIMIT * (2 * e);
    assert n * 1 == n;
  }

  lemma CloseDoubled(r: Ratio, n: nat, d: nat)
    requires IsClose(r, n, 2 * d)
    ensures IsClose(Ratio(2 * r.n, r.d), n, d)
  {
    assert r.n * (2 * d) == (2 * r.n) * d;
  }

  lemma CloseHalved(r: Ratio, n: nat, d: nat)
    requires IsClose(r, 2 * n, d)
    ensures IsClose(Ratio(r.n, 2 * r.d), n, d)
  {
    assert (2 * n) * r.d == n * (2 * r.d);
  }

  /** The rounding error is at most the 2^53rd part. */
  lemma {:induction false} NearestIsClose(n: nat, d: nat)
    requires d >= 1
    ensures IsClose(Nearest(n, d), n, d)
    decreases if n >= PRECISION_LIMIT * d then n - PRECISION_LIMIT * d + 1 else 0, if n < HALF_LIMIT * d then HALF_LIMIT * d - n else 0
  {
    if n == 0 {
      assert Nearest(n, d) == Ratio(0, 1);
    } else if n >= PRECISION_LIMIT * d {
      NearestIsClose(n, 2 * d);
      CloseDoubled(Nearest(n, 2 * d), n, d);
    } else if n < HALF_LIMIT * d {
      NearestIsClose(2 * n, d);
      CloseHalved(Nearest(2 * n, d), n, d);
    } else {
      CloseInRange(n, d);
    }
  }

  lemma TwiceScaled(k: nat, e: nat)
    ensures 2 * (k * Pow2(e)) == k * Pow2(e + 1)
  {
  }

  /** The result is a float64: at most 2^53 times or over a power of two. */
  lemma {:induction false} NearestIsFloat(n: nat, d: nat) returns (k: nat, e: nat)
    requires d >= 1
    ensures k <= PRECISION_LIMIT
    ensures Nearest(n, d) == if n < PRECISION_LIMIT * d then Ratio(k, Pow2(e)) else Ratio(k * Pow2(e), 1)
    ensures HALF_LIMIT * d <= n < PRECISION_LIMIT * d ==> e == 0
    decreases if n >= PRECISION_LIMIT * d then n - PRECISION_LIMIT * d + 1 else 0, if n < HALF_LIMIT * d then HALF_LIMIT * d - n else 0
  {
    if n == 0 {
      k, e := 0, 0;
    } else if n >= PRECISION_LIMIT * d {
      k, e := NearestIsFloat(n, 2 * d);
      TwiceScaled(k, e);
      e := e + 1;
    } else if n < HALF_LIMIT * d {
      k, e := NearestIsFloat(2 * n, d);
      e := e + 1;
    } else {
      k, e := RoundQuotient(n, d), 0;
      QuotientFits(n, d, PRECISION_LIMIT);
    }
  }

  // ------------------------------------------------------------------------- scale

  function Pow10(k: nat): (p: nat)
    ensures p >= 1
  {
    if k == 0 then 1 else 10 * Pow10(k - 1)
  }

  function Pow5(k: nat): (p: nat)
    ensures p >= 1
  {
    if k == 0 then 1 else 5 * Pow5(k - 1)
  }

  /** scale after k digits: 1, and then scale *= 10 in float64. */
  function Scale(k: nat): (s: nat)
    ensures s >= 1
  {
    if k == 0 then 1
    else
      MagnitudeError(10 * Scale(k - 1));
      FromInt(10 * Scale(k - 1))
  }

  lemma TenSplits(a: nat, b: nat)
    ensures 10 * (a * b) == (5 * a) * (2 * b)
  {
  }

  lemma {:induction false} Pow10Splits(k: nat)
    ensures Pow10(k) == Pow5(k) * Pow2(k)
  {
    if k > 0 {
      Pow10Splits(k - 1);
      TenSplits(Pow5(k - 1), Pow2(k - 1));
    }
  }

  lemma {:induction false} Pow5Monotone(a: nat, b: nat)
    requires a <= b
    ensures Pow5(a) <= Pow5(b)
    decreases b
  {
    if a < b {
      Pow5Monotone(a, b - 1);
    }
  }

  lemma Pow5Of22()
    ensures Pow5(22) == 2384185791015625 <= PRECISION_LIMIT
  {
    assert Pow5(4) == 625;
    assert Pow5(8) == 390625;
    assert Pow5(12) == 244140625;
    assert Pow5(16) == 152587890625;
    assert Pow5(20) == 95367431640625;
  }

  /** Up to 22 digits the scale is the exact power of ten. */
  lemma {:induction false} ScaleIsExact(k: nat)
    requires k <= 22
    ensures Scale(k) == Pow10(k)
  {
    if k > 0 {
      ScaleIsExact(k - 1);
      Pow10Splits(k);
      Pow5Monotone(k, 22);
      Pow5Of22();
      assert IsScaled(Pow10(k), Pow5(k), k);
      ExactIffRepresentable(Pow10(k));
    }
  }

  // ---------------------------------------------------------------------- fraction

  /** uint64(float64(f) * (float64(unit) / scale)) */
  function FractionNs(f: nat, scale: nat, unit: nat): nat
    requires scale >= 1
  {
    if f == 0 then 0 else FractionOver(FromInt(f), scale, unit)
  }

  /** The same for operands that are float64 already. */
  function FractionOver(f: nat, scale: nat, unit: nat): nat
    requires scale >= 1
  {
    var factor := Nearest(unit, scale);
    Floor(Nearest(f * factor.n, factor.d))
  }

  /** The conversion drops what is behind the point. */
  function Floor(r: Ratio): nat
    requires r.Valid()
  {
    r.n / r.d
  }

  /** v is n / d. */
  ghost predicate IsValue(v: real, n: nat, d: nat) {
    v * d as real == n as real
  }

  lemma ValueOf(n: nat, d: nat) returns (v: real)
    requires d >= 1
    ensures IsValue(v, n, d) && v == n as real / d as real
  {
    v := n as real / d as real;
  }

  const EPSILON: real := 1.0 / 9007199254740992.0  // 2^-53

  ghost predicate Near(x: real, y: real) {
    y - EPSILON * y <= x <= y + EPSILON * y
  }

  lemma DivideBoth(v: real, w: real, p: real)
    requires p > 0.0 && v * p <= w * p
    ensures v <= w
  {
  }

  lemma DivideBothStrict(v: real, w: real, p: real)
    requires p > 0.0 && v * p < w * p
    ensures v < w
  {
  }

  lemma Scaled(v: real, w: real, p: real, limit: real)
    requires p > 0.0 && limit == 9007199254740992.0
    requires limit * (v * p - w * p) <= w * p && limit * (w * p - v * p) <= w * p
    ensures Near(v, w)
  {
    assert limit * (v * p - w * p) == (limit * (v - w)) * p;
    assert limit * (w * p - v * p) == (limit * (w - v)) * p;
    DivideBoth(limit * (v - w), w, p);
    DivideBoth(limit * (w - v), w, p);
  }

  lemma CloseIsNear(r: Ratio, n: nat, d: nat, v: real, w: real)
    requires r.Valid() && d >= 1 && IsClose(r, n, d) && IsValue(v, r.n, r.d) && IsValue(w, n, d)
    ensures Near(v, w)
  {
    var p, q := r.d as real, d as real;
    var a, b := r.n * d, n * r.d;
    assert PRECISION_LIMIT * (a - b) <= b && PRECISION_LIMIT * (b - a) <= b;
    var limit := PRECISION_LIMIT as real;
    assert limit * (a as real - b as real) <= b as real && limit * (b as real - a as real) <= b as real;
    assert a as real == r.n as real * q && b as real == n as real * p;
    assert a as real == v * (p * q) && b as real == w * (p * q);
    Scaled(v, w, p * q, limit);
  }

  lemma NearestIsNear(n: nat, d: nat, v: real, w: real)
    requires d >= 1 && IsValue(v, Nearest(n, d).n, Nearest(n, d).d) && IsValue(w, n, d)
    ensures Near(v, w)
  {
    NearestIsClose(n, d);
    CloseIsNear(Nearest(n, d), n, d, v, w);
  }

  lemma ProductBelow(f': real, f: real, a: real, u: real, x: real, h: real)
    requires 0.0 <= f' <= f * h && 0.0 <= a <= u * h && x <= f' * a * h && h >= 0.0
    ensures x <= (f * u) * (h * h * h)
  {
    Product(f', f * h, a, u * h);
    assert (f * h) * (u * h) == (f * u) * (h * h);
    Product(f' * a, (f * u) * (h * h), h, h);
    assert (f * u) * (h * h) * h == (f * u) * (h * h * h);
  }

  lemma ProductAbove(f': real, f: real, a: real, u: real, x: real, h: real)
    requires 0.0 <= f * h <= f' && 0.0 <= u * h <= a && x >= f' * a * h && h >= 0.0
    ensures x >= (f * u) * (h * h * h)
  {
    Product(f * h, f', u * h, a);
    assert (f * h) * (u * h) == (f * u) * (h * h);
    Product((f * u) * (h * h), f' * a, h, h);
    assert (f * u) * (h * h) * h == (f * u) * (h * h * h);
  }

  lemma Cubes()
    ensures var lo, hi := 1.0 - EPSILON, 1.0 + EPSILON;
            0.0 <= 1.0 - 4.0 * EPSILON <= lo * lo * lo && hi * hi * hi <= 1.0 + 4.0 * EPSILON
  {
  }

  ghost predicate FairlyNear(x: real, y: real) {
    y - 4.0 * EPSILON * y <= x <= y + 4.0 * EPSILON * y
  }

  /** A product of two values with such errors, and one more rounding. */
  lemma ProductIsNear(f': real, f: real, a: real, u: real, x: real)
    requires f >= 0.0 && u >= 0.0
    requires Near(f', f) && Near(a, u) && Near(x, f' * a)
    ensures FairlyNear(x, f * u)
  {
    var lo, hi := 1.0 - EPSILON, 1.0 + EPSILON;
    NearIsTimes(f', f);
    NearIsTimes(a, u);
    Product(f', f', a, a);
    NearIsTimes(x, f' * a);
    ProductBelow(f', f, a, u, x, hi);
    ProductAbove(f', f, a, u, x, lo);
    Cubes();
    Product(f, f, u, u);
    Product(f * u, f * u, 1.0 - 4.0 * EPSILON, lo * lo * lo);
    Product(f * u, f * u, hi * hi * hi, 1.0 + 4.0 * EPSILON);
  }

  lemma NearIsTimes(x: real, y: real)
    requires Near(x, y) && y >= 0.0
    ensures 0.0 <= y * (1.0 - EPSILON) <= x <= y * (1.0 + EPSILON)
  {
    Product(y, y, 0.0, 1.0 - EPSILON);
  }

  lemma Product(a: real, b: real, c: real, d: real)
    requires 0.0 <= a <= b && 0.0 <= c <= d
    ensures 0.0 <= a * c <= b * d
  {
    assert a * c <= b * c <= b * d;
  }

  lemma FromIntIsNear(f: nat)
    ensures FromInt(f) >= 0 && Near(FromInt(f) as real, f as real)
  {
    MagnitudeError(f);
    var v := FromInt(f);
    assert PRECISION_LIMIT * (v - f) <= f && PRECISION_LIMIT * (f - v) <= f;
    Scaled(v as real, f as real, 1.0, PRECISION_LIMIT as real);
  }

  /** The whole nanoseconds below a value. */
  lemma QuotientIsFloor(r: Ratio, v: real)
    requires r.Valid() && IsValue(v, r.n, r.d)
    ensures Floor(r) as real <= v < Floor(r) as real + 1.0
  {
    var q := r.n / r.d;
    DivMod(r.n, r.d);
    var p := r.d as real;
    assert q as real * p <= r.n as real < (q as real + 1.0) * p;
    DivideBoth(q as real, v, p);
    DivideBothStrict(v, q as real + 1.0, p);
  }

  /** Off by less than one and the 2^51st part. */
  ghost predicate WithinOne(ns: nat, e: real) {
    e - 4.0 * EPSILON * e - 1.0 <= ns as real <= e + 4.0 * EPSILON * e
  }

  lemma FloorWithinOne(ns: nat, v: real, e: real)
    requires FairlyNear(v, e) && ns as real <= v < ns as real + 1.0
    ensures WithinOne(ns, e)
  {
  }

  lemma ZeroWithinOne(u: real)
    ensures WithinOne(0, (0 as real) * u)
  {
    assert (0 as real) * u == 0.0;
  }

  lemma FloorOfProduct(f: nat, f': nat, a: real, u: real, x: real, ns: nat)
    requires u >= 0.0 && Near(f' as real, f as real) && Near(a, u) && Near(x, f' as real * a)
    requires ns as real <= x < ns as real + 1.0
    ensures WithinOne(ns, f as real * u)
  {
    ProductIsNear(f' as real, f as real, a, u, x);
    FloorWithinOne(ns, x, f as real * u);
  }

  lemma ValueScaled(f: nat, v: real, n: nat, d: nat)
    requires IsValue(v, n, d)
    ensures IsValue(f as real * v, f * n, d)
  {
    assert (f as real * v) * d as real == f as real * (v * d as real);
  }

  lemma ValueNotNegative(v: real, n: nat, d: nat)
    requires d >= 1 && IsValue(v, n, d)
    ensures v >= 0.0
  {
    DivideBoth(0.0, v, d as real);
  }

  lemma FractionOverIsNear(f: nat, f': nat, scale: nat, unit: nat, u: real)
    requires scale >= 1 && Near(f' as real, f as real) && IsValue(u, unit, scale)
    ensures WithinOne(FractionOver(f', scale, unit), f as real * u)
  {
    var a := Nearest(unit, scale);
    var va := ValueOf(a.n, a.d);
    NearestIsNear(unit, scale, va, u);
    ValueNotNegative(u, unit, scale);
    var x := Nearest(f' * a.n, a.d);
    var vx := ValueOf(x.n, x.d);
    ValueScaled(f', va, a.n, a.d);
    NearestIsNear(f' * a.n, a.d, vx, f' as real * va);
    QuotientIsFloor(x, vx);
    FloorOfProduct(f, f', va, u, vx, Floor(x));
  }

  /**
   The nanoseconds of a fraction are off the exact value, over the scale that the
   code uses, by less than one and the 2^51st part of that value.
   */
  lemma FractionIsNear(f: nat, scale: nat, unit: nat, u: real)
    requires scale >= 1 && IsValue(u, unit, scale)
    ensures WithinOne(FractionNs(f, scale, unit), f as real * u)
  {
    if f == 0 {
      ZeroWithinOne(u);
    } else {
      FromIntIsNear(f);
      FractionOverIsNear(f, FromInt(f), scale, unit, u);
    }
  }

  /** ns are the nanoseconds of f parts of a unit divided into scale, less than 1.002 too few and 0.002 too many. */
  ghost predicate IsAccurate(ns: nat, f: nat, scale: nat, unit: nat)
    requires scale >= 1
  {
    var exact := f as real * (unit as real / scale as real);
    exact - 1.002 <= ns as real <= exact + 0.002
  }

  lemma SmallErrorAt(ns: nat, e: real)
    requires WithinOne(ns, e) && 0.0 <= e <= 3_600_000_000_000.0
    ensures e - 1.002 <= ns as real <= e + 0.002
  {
    assert 4.0 * EPSILON * e <= 0.002;
  }

  lemma BelowUnit(f: nat, scale: nat, unit: nat, u: real)
    requires f <= scale && scale >= 1 && IsValue(u, unit, scale)
    ensures 0.0 <= f as real * u <= unit as real
  {
    ValueNotNegative(u, unit, scale);
    Product(f as real, scale as real, u, u);
  }

  lemma AccurateFrom(ns: nat, f: nat, scale: nat, unit: nat, u: real)
    requires f <= scale && 1 <= scale && unit <= 3_600_000_000_000
    requires IsValue(u, unit, scale) && u == unit as real / scale as real && WithinOne(ns, f as real * u)
    ensures IsAccurate(ns, f, scale, unit)
  {
    BelowUnit(f, scale, unit, u);
    SmallErrorAt(ns, f as real * u);
  }

  /** A fraction of a unit of at most an hour is accurate to the nanosecond. */
  lemma FractionIsAccurate(f: nat, scale: nat, unit: nat)
    requires f <= scale && 1 <= scale && unit <= 3_600_000_000_000
    ensures IsAccurate(FractionNs(f, scale, unit), f, scale, unit)
  {
    var u := ValueOf(unit, scale);
    FractionIsNear(f, scale, unit, u);
    AccurateFrom(FractionNs(f, scale, unit), f, scale, unit, u);
  }
}
