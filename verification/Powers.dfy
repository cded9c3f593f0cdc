/**
 Powers of a real base with natural and integer exponents, their growth, and the exact
 floor of a logarithm.  These stand for math.Pow, math.Log, math.Log2 and SQL's POWER
 without floating-point rounding.
 */
module Powers {

  function Pow(b: real, n: nat): real {
    if n == 0 then 1.0 else b * Pow(b, n - 1)
  }

  /** b to an integer exponent. */
  function PowInt(b: real, k: int): (p: real)
    requires b > 0.0
    ensures p > 0.0
  {
    PowPositive(b, if k >= 0 then k else -k);
    if k >= 0 then Pow(b, k) else 1.0 / Pow(b, -k)
  }

  function MinReal(x: real, y: real): real {
    if x <= y then x else y
  }

  function MaxReal(x: real, y: real): real {
    if x <= y then y else x
  }

  lemma {:induction false} PowPositive(b: real, n: nat)
    requires b > 0.0
    ensures Pow(b, n) > 0.0
  {
    if n > 0 { PowPositive(b, n - 1); }
  }

  lemma {:induction false} PowNonNegative(b: real, n: nat)
    requires b >= 0.0
    ensures Pow(b, n) >= 0.0
  {
    if n > 0 { PowNonNegative(b, n - 1); }
  }

  lemma {:induction false} PowAdd(b: real, m: nat, n: nat)
    ensures Pow(b, m + n) == Pow(b, m) * Pow(b, n)
  {
    if m > 0 {
      PowAdd(b, m - 1, n);
      assert Pow(b, m + n) == b * Pow(b, m - 1 + n);
      MulAssociative(b, Pow(b, m - 1), Pow(b, n));
    }
  }

  lemma MulAssociative(x: real, y: real, z: real)
    ensures x * (y * z) == x * y * z
  {
  }

  /** Bernoulli's inequality: a base above one grows at least linearly. */
  lemma {:induction false} Bernoulli(b: real, n: nat)
    requires b > 1.0
    ensures Pow(b, n) >= 1.0 + n as real * (b - 1.0)
  {
    if n > 0 {
      Bernoulli(b, n - 1);
      BernoulliStep(b, (n - 1) as real, Pow(b, n - 1));
      assert (n - 1) as real + 1.0 == n as real;
    }
  }

  lemma BernoulliStep(b: real, k: real, p: real)
    requires b > 1.0 && k >= 0.0 && p >= 1.0 + k * (b - 1.0)
    ensures b * p >= 1.0 + (k + 1.0) * (b - 1.0)
  {
    var e := b - 1.0;
    MulMonotone(b, 1.0 + k * e, p);
    assert b * (1.0 + k * e) == 1.0 + (k + 1.0) * e + e * (k * e);
    assert e * (k * e) >= 0.0 by { assert k * e >= 0.0; }
  }

  lemma MulMonotone(c: real, x: real, y: real)
    requires c >= 0.0 && x <= y
    ensures c * x <= c * y
  {
    assert c * (y - x) >= 0.0;
  }

  lemma Growth(b: real, p: real)
    requires b > 1.0 && p > 0.0
    ensures p < b * p
  {
    assert (b - 1.0) * p > 0.0;
  }

  lemma MulLess(c: real, x: real, y: real)
    requires c > 0.0 && x < y
    ensures c * x < c * y
  {
    assert c * (y - x) > 0.0;
  }

  lemma {:induction false} PowMonotone(b: real, m: nat, n: nat)
    requires b > 1.0 && m <= n
    ensures Pow(b, m) <= Pow(b, n)
    decreases n - m
  {
    if m < n {
      PowPositive(b, m);
      Growth(b, Pow(b, m));
      PowMonotone(b, m + 1, n);
    }
  }

  /** Multiplying by the base steps the integer exponent. */
  lemma PowIntStep(b: real, k: int)
    requires b > 0.0
    ensures PowInt(b, k + 1) == b * PowInt(b, k)
  {
    if k < -1 {
      var p := Pow(b, -k - 1);
      PowPositive(b, -k - 1);
      assert Pow(b, -k) == b * p;
      assert 1.0 / p == b * (1.0 / (b * p)) by { CancelBase(b, p); }
    } else if k == -1 {
      assert Pow(b, 1) == b * Pow(b, 0) == b;
    }
  }

  lemma CancelBase(b: real, p: real)
    requires b > 0.0 && p > 0.0
    ensures b * p != 0.0 && 1.0 / p == b * (1.0 / (b * p))
  {
    var q := 1.0 / (b * p);
    assert q * (b * p) == 1.0;
    assert (b * q) * p == 1.0;
  }

  lemma PowIntDouble(b: real, k: int)
    requires b > 0.0
    ensures PowInt(b, 2 * k) == PowInt(b, k) * PowInt(b, k)
  {
    if k >= 0 {
      PowAdd(b, k, k);
    } else {
      var p := Pow(b, -k);
      PowPositive(b, -k);
      PowAdd(b, -k, -k);
      assert -k + -k == -(2 * k);
      SquareOfInverse(p);
    }
  }

  lemma SquareOfInverse(p: real)
    requires p > 0.0
    ensures p * p != 0.0 && 1.0 / (p * p) == (1.0 / p) * (1.0 / p)
  {
    var q := InversePositive(p);
    assert (q * q) * (p * p) == (q * p) * (q * p);
  }

  lemma PowIntGrows(b: real, k: int)
    requires b > 1.0
    ensures PowInt(b, k) < PowInt(b, k + 1)
  {
    var p := PowInt(b, k);
    Growth(b, p);
    PowIntStep(b, k);
  }

  lemma {:induction false} PowIntMonotone(b: real, m: int, n: int)
    requires b > 1.0 && m <= n
    ensures PowInt(b, m) <= PowInt(b, n)
    decreases n - m
  {
    if m < n {
      PowIntGrows(b, m);
      PowIntMonotone(b, m + 1, n);
    }
  }

  /** An exponent at which a base above one has passed y. */
  ghost function Escape(b: real, y: real): (n: nat)
    requires b > 1.0
    ensures Pow(b, n) > y
  {
    var q := (y - 1.0) / (b - 1.0);
    var n: nat := if q < 0.0 then 0 else q.Floor + 1;
    Bernoulli(b, n);
    EscapeBound(b, y, n);
    n
  }

  lemma EscapeBound(b: real, y: real, n: nat)
    requires b > 1.0 && n as real > (y - 1.0) / (b - 1.0)
    ensures 1.0 + n as real * (b - 1.0) > y
  {
    var q, e := (y - 1.0) / (b - 1.0), b - 1.0;
    assert q * e == y - 1.0;
    assert (n as real - q) * e > 0.0;
  }

  /** The last exponent from n on at which the power has not passed y. */
  function LogFrom(b: real, y: real, n: nat): (m: nat)
    requires b > 1.0 && Pow(b, n) <= y
    ensures Pow(b, m) <= y < Pow(b, m + 1)
    decreases Escape(b, y) - n
  {
    if Pow(b, n + 1) <= y then
      assert n < Escape(b, y) by {
        if n >= Escape(b, y) { PowMonotone(b, Escape(b, y), n); }
      }
      LogFrom(b, y, n + 1)
    else n
  }

  /** The exact floor of the logarithm of y to base b. */
  function FloorLog(b: real, y: real): (m: int)
    requires b > 1.0 && y > 0.0
    ensures PowInt(b, m) <= y < PowInt(b, m + 1)
  {
    if y >= 1.0 then LogFrom(b, y, 0)
    else FloorLogBelowOne(b, y)
  }

  function FloorLogBelowOne(b: real, y: real): (m: int)
    requires b > 1.0 && 0.0 < y < 1.0
    ensures PowInt(b, m) <= y < PowInt(b, m + 1)
  {
    InverseAboveOne(y);
    var k: int := LogFrom(b, 1.0 / y, 0);
    FloorLogBelowOneCorrect(b, y, k);
    if PowInt(b, -k) == y then -k else -k - 1
  }

  lemma FloorLogBelowOneCorrect(b: real, y: real, k: int)
    requires b > 1.0 && 0.0 < y < 1.0 && k >= 0 && Pow(b, k) <= 1.0 / y < Pow(b, k + 1)
    ensures PowInt(b, -k - 1) < y <= PowInt(b, -k)
    ensures y == PowInt(b, -k) ==> y < PowInt(b, -k + 1)
  {
    var z := InversePositive(y);
    InverseExponents(b, k, z, y);
    assert -k - 1 == -(k + 1);
    PowIntGrows(b, -k);
  }

  /** Exponents that bound z, negated, bound its inverse. */
  lemma InverseExponents(b: real, k: int, z: real, y: real)
    requires b > 1.0 && y > 0.0 && z * y == 1.0
    requires PowInt(b, k) <= z < PowInt(b, k + 1)
    ensures PowInt(b, -(k + 1)) < y <= PowInt(b, -k)
  {
    PowIntNegate(b, k);
    PowIntNegate(b, k + 1);
    InverseBounds(PowInt(b, k), z, PowInt(b, k + 1), PowInt(b, -k), y, PowInt(b, -(k + 1)));
  }

  lemma InverseAboveOne(y: real)
    requires 0.0 < y < 1.0
    ensures 1.0 / y >= 1.0
  {
    var z := InversePositive(y);
    if z < 1.0 { MulLess(y, z, 1.0); }
  }

  lemma InversePositive(x: real) returns (inv: real)
    requires x > 0.0
    ensures inv == 1.0 / x && inv > 0.0 && inv * x == 1.0
  {
    inv := 1.0 / x;
    assert inv * x == 1.0;
    if inv <= 0.0 { MulMonotone(x, inv, 0.0); }
  }

  /** Taking inverses turns the bounds on y around. */
  lemma InverseBounds(x: real, y: real, z: real, xi: real, yi: real, zi: real)
    requires 0.0 < x <= y < z && xi > 0.0 && yi > 0.0 && zi > 0.0
    requires x * xi == 1.0 && y * yi == 1.0 && z * zi == 1.0
    ensures zi < yi <= xi
  {
    InverseOrder(x, y, xi, yi);
    InverseOrderStrict(y, z, yi, zi);
  }

  lemma PowIntNegate(base: real, k: int)
    requires base > 0.0
    ensures PowInt(base, k) * PowInt(base, -k) == 1.0
  {
  }

  lemma InverseOrder(x: real, y: real, xi: real, yi: real)
    requires 0.0 < x <= y && xi > 0.0 && yi > 0.0 && x * xi == 1.0 && y * yi == 1.0
    ensures yi <= xi
  {
    if xi < yi {
      MulLess(y, xi, yi);
      MulMonotone(xi, x, y);
    }
  }

  lemma InverseOrderStrict(x: real, y: real, xi: real, yi: real)
    requires 0.0 < x < y && xi > 0.0 && yi > 0.0 && x * xi == 1.0 && y * yi == 1.0
    ensures yi < xi
  {
    if xi <= yi {
      MulMonotone(y, xi, yi);
      MulLess(xi, x, y);
    }
  }

  /** The floor of the logarithm is determined by its two bounds. */
  lemma FloorLogUnique(b: real, y: real, m: int)
    requires b > 1.0 && y > 0.0
    requires PowInt(b, m) <= y < PowInt(b, m + 1)
    ensures FloorLog(b, y) == m
  {
    var n := FloorLog(b, y);
    if n < m { PowIntMonotone(b, n + 1, m); }
    if m < n { PowIntMonotone(b, m + 1, n); }
  }
}
