/** Exact decimal arithmetic in the manner of java.math.BigDecimal.
    A `Decimal` is the number `unscaled * 10^-scale`; two decimals with the
    same value but different scales are distinct (as `BigDecimal.equals`
    distinguishes `2.0` from `2.00`), and `Cmp` compares values only (as
    `compareTo` does). */
module Decimals {
  import opened Wrappers

  datatype Decimal = Decimal(unscaled: int, scale: nat)

  /** The exception `BigDecimal.divide` throws for a zero divisor. */
  datatype ArithmeticError = DivisionByZero

  const Zero: Decimal := Decimal(0, 0)

  function Pow10(n: nat): (p: nat)
    ensures p >= 1
  {
    if n == 0 then 1 else 10 * Pow10(n - 1)
  }

  lemma {:induction false} Pow10Add(a: nat, b: nat)
    ensures Pow10(a + b) == Pow10(a) * Pow10(b)
  {
    if a > 0 {
      Pow10Add(a - 1, b);
      assert Pow10(a + b) == 10 * Pow10(a - 1 + b);
    }
  }

  /** The unscaled value `d` has when written at the finer scale `s`. */
  function Scaled(d: Decimal, s: nat): int
    requires d.scale <= s
  {
    d.unscaled * Pow10(s - d.scale)
  }

  function Max(a: nat, b: nat): nat {
    if a < b then b else a
  }

  lemma ScaledTwice(d: Decimal, s: nat, t: nat)
    requires d.scale <= s <= t
    ensures Scaled(d, t) == Scaled(d, s) * Pow10(t - s)
  {
    Pow10Add(s - d.scale, t - s);
    assert t - d.scale == (s - d.scale) + (t - s);
  }

  /** `BigDecimal.add`: exact, at the larger of the two scales. */
  function Add(a: Decimal, b: Decimal): (r: Decimal)
    ensures r.scale == Max(a.scale, b.scale)
    ensures b.unscaled == 0 && b.scale <= a.scale ==> r == a
    ensures a.unscaled == 0 && a.scale <= b.scale ==> r == b
    ensures a.unscaled >= 0 && b.unscaled >= 0 ==> r.unscaled >= 0
  {
    var m := Max(a.scale, b.scale);
    Decimal(Scaled(a, m) + Scaled(b, m), m)
  }

  /** The sum is exact: at every scale fine enough for both operands, the
      unscaled value of the sum is the sum of the unscaled values. */
  lemma AddExact(a: Decimal, b: Decimal, t: nat)
    requires a.scale <= t && b.scale <= t
    ensures Scaled(Add(a, b), t) == Scaled(a, t) + Scaled(b, t)
  {
    var m := Max(a.scale, b.scale);
    ScaledTwice(a, m, t);
    ScaledTwice(b, m, t);
    var p := Pow10(t - m);
    calc {
      Scaled(Add(a, b), t);
      (Scaled(a, m) + Scaled(b, m)) * p;
      { MulDistributes(Scaled(a, m), Scaled(b, m), p); }
      Scaled(a, m) * p + Scaled(b, m) * p;
    }
  }

  lemma MulDistributes(x: int, y: int, p: int)
    ensures (x + y) * p == x * p + y * p
  {
  }

  /** `BigDecimal.multiply`: exact, at the sum of the two scales. */
  function Multiply(a: Decimal, b: Decimal): (r: Decimal)
    ensures r.scale == a.scale + b.scale
    ensures r.unscaled == 0 <==> a.unscaled == 0 || b.unscaled == 0
    ensures a.unscaled >= 0 && b.unscaled >= 0 ==> r.unscaled >= 0
  {
    Decimal(a.unscaled * b.unscaled, a.scale + b.scale)
  }

  /** `BigDecimal.compareTo`: -1, 0 or 1 as the value of `a` is below,
      equal to or above the value of `b`. */
  function Cmp(a: Decimal, b: Decimal): (c: int)
    ensures -1 <= c <= 1
    ensures a.scale == b.scale ==>
      && (c < 0 <==> a.unscaled < b.unscaled)
      && (c == 0 <==> a.unscaled == b.unscaled)
    ensures a == b ==> c == 0
  {
    var m := Max(a.scale, b.scale);
    if Scaled(a, m) < Scaled(b, m) then -1
    else if Scaled(a, m) == Scaled(b, m) then 0
    else 1
  }

  lemma MulMonotone(x: int, y: int, p: int)
    requires p > 0
    ensures x <= y <==> x * p <= y * p
    ensures x < y <==> x * p < y * p
  {
    if x <= y {
      assert y * p - x * p == (y - x) * p;
    } else {
      assert x * p - y * p == (x - y) * p;
    }
  }

  /** Comparison may be carried out at any scale fine enough for both
      operands: the answer is the same as at the larger of their scales. */
  lemma CmpAtScale(a: Decimal, b: Decimal, t: nat)
    requires a.scale <= t && b.scale <= t
    ensures Cmp(a, b) <= 0 <==> Scaled(a, t) <= Scaled(b, t)
    ensures Cmp(a, b) == 0 <==> Scaled(a, t) == Scaled(b, t)
    ensures Cmp(a, b) < 0 <==> Scaled(a, t) < Scaled(b, t)
  {
    var m := Max(a.scale, b.scale);
    ScaledTwice(a, m, t);
    ScaledTwice(b, m, t);
    MulMonotone(Scaled(a, m), Scaled(b, m), Pow10(t - m));
  }

  /** `n / d` rounded to the nearest integer, a tie going away from zero
      (`RoundingMode.HALF_UP`); stated on the sign-normalised fraction
      `num / den` with `den > 0`. */
  ghost predicate IsHalfUp(n: int, d: int, q: int)
    requires d != 0
  {
    var num := if d > 0 then n else -n;
    var den := if d > 0 then d else -d;
    if num >= 0 then 2 * den * q - den <= 2 * num < 2 * den * q + den
    else 2 * den * q - den < 2 * num <= 2 * den * q + den
  }

  function RoundHalfUp(n: int, d: int): (q: int)
    requires d != 0
    ensures IsHalfUp(n, d, q)
  {
    var num := if d > 0 then n else -n;
    var den := if d > 0 then d else -d;
    if num >= 0 then
      var q := (2 * num + den) / (2 * den);
      DivBounds(2 * num + den, 2 * den);
      q
    else
      var q := (2 * -num + den) / (2 * den);
      DivBounds(2 * -num + den, 2 * den);
      -q
  }

  lemma DivBounds(x: int, y: int)
    requires y > 0
    ensures y * (x / y) <= x < y * (x / y) + y
  {
  }

  /** HALF_UP rounding admits exactly one answer. */
  lemma HalfUpUnique(n: int, d: int, q1: int, q2: int)
    requires d != 0
    requires IsHalfUp(n, d, q1) && IsHalfUp(n, d, q2)
    ensures q1 == q2
  {
    var den := if d > 0 then d else -d;
    if q1 < q2 {
      MulMonotone(q1 + 1, q2, 2 * den);
    } else if q2 < q1 {
      MulMonotone(q2 + 1, q1, 2 * den);
    }
  }

  /** `a.divide(b, scale, RoundingMode.HALF_UP)`: the exact quotient rounded
      HALF_UP to `scale` decimal places; throws for a zero divisor. */
  function Divide(a: Decimal, b: Decimal, scale: nat): (r: Result<Decimal, ArithmeticError>)
    ensures r.Failure? <==> b.unscaled == 0
    ensures r.Success? ==>
      r.value.scale == scale &&
      IsHalfUp(a.unscaled * Pow10(b.scale + scale), b.unscaled * Pow10(a.scale), r.value.unscaled)
  {
    if b.unscaled == 0 then Failure(DivisionByZero)
    else
      var num := a.unscaled * Pow10(b.scale + scale);
      var den := b.unscaled * Pow10(a.scale);
      NonZeroProduct(b.unscaled, Pow10(a.scale));
      Success(Decimal(RoundHalfUp(num, den), scale))
  }

  lemma NonZeroProduct(x: int, y: int)
    requires x != 0 && y != 0
    ensures x * y != 0
  {
  }
}
