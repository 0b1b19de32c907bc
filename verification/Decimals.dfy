/** Reals and their decimal grids. */
module Decimals {
  function Max(a: real, b: real): real { if a >= b then a else b }

  function Min(a: real, b: real): real { if a <= b then a else b }

  function Abs(a: real): real { if a >= 0.0 then a else -a }

  function MaxInt(a: int, b: int): int { if a >= b then a else b }

  function MinInt(a: int, b: int): int { if a <= b then a else b }

  function Ceil(x: real): int { -((-x).Floor) }

  function Pow10(digits: nat): (p: real)
    ensures p >= 1.0
  {
    if digits == 0 then 1.0 else 10.0 * Pow10(digits - 1)
  }

  /** The nearest integer, halves to the even neighbour. */
  function RoundHalfEven(y: real): int {
    var f := y.Floor;
    var rest := y - f as real;
    if rest < 0.5 then f else if rest > 0.5 then f + 1 else if f % 2 == 0 then f else f + 1
  }

  /** A real in units of the last decimal. */
  function Units(x: real, digits: nat): real { x * Pow10(digits) }

  /** Rounding to a number of decimals. */
  function Round(x: real, digits: nat): real {
    RoundHalfEven(Units(x, digits)) as real / Pow10(digits)
  }

  // ---- arithmetic ----

  lemma DivLe(a: real, b: real, t: real)
    requires t > 0.0
    ensures a / t <= b <==> a <= b * t
    ensures b <= a / t <==> b * t <= a
  {
    assert a == (a / t) * t;
    if a / t <= b { MulLe(a / t, b, t); }
    if a / t > b { MulLt(b, a / t, t); }
    if b <= a / t { MulLe(b, a / t, t); }
  }

  lemma MulLe(a: real, b: real, t: real)
    requires t > 0.0 && a <= b
    ensures a * t <= b * t
  {
    assert (b - a) * t >= 0.0;
  }

  lemma MulLt(a: real, b: real, t: real)
    requires t > 0.0 && a < b
    ensures a * t < b * t
  {
    assert (b - a) * t > 0.0;
  }

  lemma Distributes(a: real, b: real, p: real)
    ensures (a + b) * p == a * p + b * p
    ensures (a - b) * p == a * p - b * p
  {
  }

  lemma FloorBounds(x: real)
    ensures x.Floor as real <= x < x.Floor as real + 1.0
  {
  }

  lemma CeilBounds(x: real)
    ensures (Ceil(x) - 1) as real < x <= Ceil(x) as real
  {
  }

  function Times(a: real, b: real): real { a * b }

  lemma TimesPart(d: real, t: real)
    requires t > 0.0 && 0.0 <= d < 1.0
    ensures 0.0 <= Times(d, t) < t
  {
    assert Times(1.0 - d, t) > 0.0;
    assert Times(1.0 - d, t) == t - Times(d, t);
  }

  lemma TimesSplit(q: real, k: real, t: real)
    ensures Times(q - k, t) == Times(q, t) - Times(k, t)
  {
  }

  lemma DivBack(a: real, t: real)
    requires t > 0.0
    ensures Times(a, t) / t == a
  {
  }

  /** Floor division of reals. */
  lemma FloorDiv(a: real, t: real)
    requires t > 0.0
    ensures 0.0 <= a - (a / t).Floor as real * t < t
    ensures a >= 0.0 ==> (a / t).Floor >= 0
  {
    var q, k := a / t, (a / t).Floor as real;
    FloorBounds(q);
    TimesPart(q - k, t);
    TimesSplit(q, k, t);
    assert Times(q, t) == a;
    DivLe(a, 0.0, t);
  }

  // ---- the decimal grid ----

  /** A whole number of units. */
  ghost predicate OnGrid(x: real, digits: nat) {
    Units(x, digits).Floor as real == Units(x, digits)
  }

  lemma UnitsAdd(a: real, b: real, digits: nat)
    ensures Units(a + b, digits) == Units(a, digits) + Units(b, digits)
    ensures Units(a - b, digits) == Units(a, digits) - Units(b, digits)
  {
    Distributes(a, b, Pow10(digits));
  }

  lemma UnitsOrder(a: real, b: real, digits: nat)
    requires a <= b
    ensures Units(a, digits) <= Units(b, digits)
  {
    MulLe(a, b, Pow10(digits));
  }

  lemma UnitsBack(x: real, digits: nat)
    ensures Units(x, digits) / Pow10(digits) == x
  {
  }

  /** Rounding goes to a nearest integer, and to the even one of two. */
  lemma RoundIsNearestEven(y: real, n: int)
    ensures RoundHalfEven(y) == n
            <==> -0.5 <= y - n as real <= 0.5 && (y - n as real == 0.5 || y - n as real == -0.5 ==> n % 2 == 0)
  {
    FloorBounds(y);
    var f := y.Floor;
    if n != f && n != f + 1 {
      assert n <= f - 1 || n >= f + 2;
    }
  }

  lemma RoundToNearest(y: real, n: int)
    requires -0.5 < y - n as real < 0.5
    ensures RoundHalfEven(y) == n
  {
  }

  /** Rounding goes to a grid point that is less than half a unit away. */
  lemma RoundNear(x: real, v: real, digits: nat)
    requires OnGrid(v, digits)
    requires -0.5 < Units(x - v, digits) < 0.5
    ensures Round(x, digits) == v
  {
    UnitsAdd(x, v, digits);
    RoundToNearest(Units(x, digits), Units(v, digits).Floor);
    UnitsBack(v, digits);
  }

  lemma RoundOnGrid(x: real, digits: nat)
    requires OnGrid(x, digits)
    ensures Round(x, digits) == x
  {
    RoundToNearest(Units(x, digits), Units(x, digits).Floor);
    UnitsBack(x, digits);
  }

  lemma Whole(x: real, i: int)
    requires x == i as real
    ensures x.Floor as real == x
  {
  }

  lemma SumOnGrid(a: real, b: real, digits: nat)
    requires OnGrid(a, digits) && OnGrid(b, digits)
    ensures OnGrid(a + b, digits) && OnGrid(a - b, digits)
  {
    UnitsAdd(a, b, digits);
    var i, j := Units(a, digits).Floor, Units(b, digits).Floor;
    Whole(Units(a + b, digits), i + j);
    Whole(Units(a - b, digits), i - j);
  }
}
