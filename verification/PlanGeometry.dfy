/** Prices on the tick lattice: normalization, the ticks that cover a distance, outward prices. */
module PlanGeometry {
  import opened Wrappers
  import opened Decimals
  import opened Prices

  // ---- the price lattice ----

  /** The tick size has at most `digits` decimals and is more than twice the slack of the comparisons. */
  ghost predicate Lattice(m: Market) {
    m.tickSize > 2.0 * TINY && OnGrid(m.tickSize, m.digits)
  }

  lemma {:induction false} MultipleOnGrid(n: int, m: Market)
    requires Lattice(m)
    ensures OnGrid(At(n, m), m.digits)
    decreases if n < 0 then -n else n
  {
    if n == 0 {
      assert At(n, m) == 0.0;
      assert Units(0.0, m.digits) == 0.0;
    } else if n > 0 {
      MultipleOnGrid(n - 1, m);
      AtAdds(n - 1, 1, m);
      assert At(1, m) == m.tickSize;
      SumOnGrid(At(n - 1, m), m.tickSize, m.digits);
    } else {
      MultipleOnGrid(n + 1, m);
      AtAdds(n + 1, 1, m);
      assert At(1, m) == m.tickSize;
      SumOnGrid(At(n + 1, m), m.tickSize, m.digits);
    }
  }

  lemma NearestIsNear(price: real, m: Market)
    requires m.tickSize > 0.0
    ensures At(Nearest(price, m), m) - price <= m.tickSize * 0.5
    ensures price - At(Nearest(price, m), m) < m.tickSize * 0.5
  {
    var n, t := Nearest(price, m), m.tickSize;
    var q := price / t + 0.5;
    FloorBounds(q);
    TimesPart(q - n as real, t);
    TimesSplit(q, n as real, t);
    TimesSplit(q, 0.5, t);
    assert Times(price / t, t) == price;
  }

  /** A normalized price is a whole number of ticks, at most half a tick away. */
  lemma NormalizeNear(price: real, m: Market)
    requires Lattice(m)
    ensures Normalize(price, m) == At(Nearest(price, m), m)
    ensures At(Nearest(price, m), m) - price <= m.tickSize * 0.5
    ensures price - At(Nearest(price, m), m) < m.tickSize * 0.5
  {
    var n := Nearest(price, m);
    MultipleOnGrid(n, m);
    RoundOnGrid(At(n, m), m.digits);
    NearestIsNear(price, m);
  }

  lemma AtDivided(n: int, m: Market)
    requires m.tickSize > 0.0
    ensures At(n, m) / m.tickSize == n as real
  {
    DivBack(n as real, m.tickSize);
    assert At(n, m) == Times(n as real, m.tickSize);
  }

  /** Prices on the lattice are their own normalization. */
  lemma NormalizeAt(n: int, m: Market)
    requires Lattice(m)
    ensures Normalize(At(n, m), m) == At(n, m)
  {
    AtDivided(n, m);
    FloorBounds(n as real + 0.5);
    assert Nearest(At(n, m), m) == n;
    NormalizeNear(At(n, m), m);
  }

  lemma AtAdds(a: int, b: int, m: Market)
    ensures At(a + b, m) == At(a, m) + At(b, m)
    ensures At(a - b, m) == At(a, m) - At(b, m)
    ensures At(-a, m) == -At(a, m)
  {
  }

  lemma AtSign(n: int, m: Market)
    requires m.tickSize > 0.0
    ensures At(n, m) > 0.0 <==> n > 0
    ensures At(n, m) >= 0.0 <==> n >= 0
  {
    if n > 0 {
      MulLt(0.0, n as real, m.tickSize);
    } else if n < 0 {
      MulLt(n as real, 0.0, m.tickSize);
    }
  }

  lemma AtOrder(a: int, b: int, m: Market)
    requires m.tickSize > 0.0 && a <= b
    ensures At(a, m) <= At(b, m)
  {
    MulLe(a as real, b as real, m.tickSize);
  }

  // ---- the ticks that cover a distance ----

  /** The tick slack, as a price. */
  function Slack(m: Market): real { TINY * m.tickSize }

  /** TicksFor covers the distance up to the tick slack, and one tick less would not, beyond 1. */
  lemma TicksForCovers(distance: real, m: Market)
    requires m.tickSize > 0.0
    ensures TicksFor(distance, m) >= 1
    ensures At(TicksFor(distance, m), m) >= distance - Slack(m)
    ensures TicksFor(distance, m) > 1 ==> At(TicksFor(distance, m) - 1, m) < distance - Slack(m)
  {
    var t, k := m.tickSize, TicksFor(distance, m);
    var x := distance / m.tickSize - TINY;
    CeilBounds(x);
    Distributes(distance / t, TINY, t);
    MulLe(x, k as real, t);
    if k > 1 {
      assert k == Ceil(x);
      MulLt((k - 1) as real, x, t);
      assert At(k - 1, m) < x * t;
    }
  }

  /** The ticks an outward price is away from a lattice reference. */
  function Reach(distance: real, m: Market): int
    requires m.tickSize > 0.0
  {
    var k := TicksFor(distance, m);
    if At(k, m) + TINY >= distance then k else k + 1
  }

  lemma ReachCovers(distance: real, m: Market)
    requires Lattice(m)
    ensures Reach(distance, m) >= 1
    ensures At(Reach(distance, m), m) + TINY >= distance
    ensures At(Reach(distance, m), m) >= distance - Slack(m)
  {
    var k := TicksFor(distance, m);
    TicksForCovers(distance, m);
    AtAdds(k, 1, m);
    assert At(1, m) == m.tickSize;
    assert Slack(m) <= m.tickSize;
  }

  // ---- outward prices ----

  /** So many ticks further to a side. */
  function Moved(n: int, side: int, ticks: int): int { if side >= 0 then n + ticks else n - ticks }

  lemma CandidateTicks(n: int, sign: int, ticks: int, m: Market)
    requires Lattice(m) && (sign == 1 || sign == -1)
    ensures Candidate(At(n, m), sign, ticks, m) == At(Moved(n, sign, ticks), m)
  {
    var k := if sign == 1 then ticks else -ticks;
    assert sign * ticks == k;
    AtAdds(n, k, m);
    NormalizeAt(n + k, m);
    assert At(n, m) + At(k, m) == At(n + k, m);
  }

  lemma FarEnoughTicks(n: int, distance: real, sign: int, ticks: int, m: Market)
    requires m.tickSize > 0.0 && (sign == 1 || sign == -1)
    ensures FarEnough(At(Moved(n, sign, ticks), m), At(n, m), distance, sign)
            <==> Moved(n, sign, ticks) > 0 && At(ticks, m) + TINY >= distance
  {
    AtSign(Moved(n, sign, ticks), m);
    AtAdds(n, ticks, m);
    if sign == 1 {
      assert At(Moved(n, sign, ticks), m) == At(n, m) + At(ticks, m);
    } else {
      assert At(Moved(n, sign, ticks), m) == At(n, m) - At(ticks, m);
    }
  }

  /** From a lattice price, a candidate is far enough exactly when it is positive and its ticks cover the distance. */
  lemma CandidateOnLattice(n: int, distance: real, sign: int, ticks: int, m: Market)
    requires Lattice(m) && (sign == 1 || sign == -1)
    ensures Candidate(At(n, m), sign, ticks, m) == At(Moved(n, sign, ticks), m)
    ensures FarEnough(At(Moved(n, sign, ticks), m), At(n, m), distance, sign)
            <==> Moved(n, sign, ticks) > 0 && At(ticks, m) + TINY >= distance
  {
    CandidateTicks(n, sign, ticks, m);
    FarEnoughTicks(n, distance, sign, ticks, m);
  }

  lemma {:induction false} NothingBelowZero(n: int, distance: real, ticks: int, attempts: nat, m: Market)
    requires Lattice(m) && n - ticks <= 0
    ensures OutwardFrom(At(n, m), distance, -1, ticks, attempts, m).None?
    decreases attempts
  {
    if attempts > 0 {
      CandidateOnLattice(n, distance, -1, ticks, m);
      NothingBelowZero(n, distance, ticks + 1, attempts - 1, m);
    }
  }

  /** One step of the search. */
  lemma OutwardStep(n: int, distance: real, sign: int, ticks: int, attempts: nat, m: Market)
    requires Lattice(m) && (sign == 1 || sign == -1) && attempts > 0
    ensures OutwardFrom(At(n, m), distance, sign, ticks, attempts, m)
            == if Moved(n, sign, ticks) > 0 && At(ticks, m) + TINY >= distance then Some(At(Moved(n, sign, ticks), m))
               else OutwardFrom(At(n, m), distance, sign, ticks + 1, attempts - 1, m)
  {
    CandidateOnLattice(n, distance, sign, ticks, m);
  }

  /** From a lattice price the search ends within two candidates, exactly Reach ticks away, and fails
      only when that price would not be positive. */
  lemma OutwardOnLattice(n: nat, distance: real, sign: int, m: Market)
    requires Lattice(m) && (sign == 1 || sign == -1)
    ensures Outward(At(n, m), distance, sign, m).Ok? <==> Moved(n, sign, Reach(distance, m)) > 0
    ensures Moved(n, sign, Reach(distance, m)) > 0
            ==> Outward(At(n, m), distance, sign, m) == Ok(At(Moved(n, sign, Reach(distance, m)), m))
  {
    var k := TicksFor(distance, m);
    TicksForCovers(distance, m);
    ReachCovers(distance, m);
    OutwardStep(n, distance, sign, k, 4, m);
    OutwardStep(n, distance, sign, k + 1, 3, m);
    if sign == -1 {
      if n - k <= 0 { NothingBelowZero(n, distance, k, 4, m); }
      if n - (k + 1) <= 0 { NothingBelowZero(n, distance, k + 1, 3, m); }
    }
  }

  // ---- what the distances mean ----

  /** A distance the broker accepts: a tick at least, and both of its levels. */
  predicate ClearOfLevels(x: real, m: Market) {
    && x >= m.tickSize
    && x >= Times(m.stopsLevelPoints as real, m.point)
    && x >= Times(m.freezeLevelPoints as real, m.point)
  }

  lemma TimesOrder(a: real, b: real, t: real)
    requires t > 0.0 && a <= b
    ensures Times(a, t) <= Times(b, t)
  {
    MulLe(a, b, t);
  }

  lemma LevelsMean(x: real, m: Market)
    requires m.point > 0.0
    ensures x >= Protective(m) <==> ClearOfLevels(x, m)
  {
    var s, f := m.stopsLevelPoints, m.freezeLevelPoints;
    assert Protective(m) == Max(Times(MaxInt(s, f) as real, m.point), m.tickSize);
    if s <= f {
      assert MaxInt(s, f) == f;
      TimesOrder(s as real, f as real, m.point);
    } else {
      assert MaxInt(s, f) == s;
      TimesOrder(f as real, s as real, m.point);
    }
  }

  /** A distance covers 34 pixels of the chart; with three fifths of itself, if it is that much longer. */
  lemma VisualMeans(x: real, v: View)
    requires v.chartHeight > 0 && v.visibleMin.Some? && v.visibleMax.Some?
    ensures var shown := (v.visibleMax.value - v.visibleMin.value) * 34.0;
      && (x >= Visual(v) <==> Times(x, v.chartHeight as real) >= shown)
      && (x >= Visual(v) / 0.60 <==> Times(x * 0.60, v.chartHeight as real) >= shown)
  {
    var shown := (v.visibleMax.value - v.visibleMin.value) * 34.0;
    DivLe(shown, x, v.chartHeight as real);
    DivLe(Visual(v), x, 0.60);
    DivLe(shown, x * 0.60, v.chartHeight as real);
  }

  /** The default distance of a level is the least one that is a tick clear of the broker's levels, a hundred ticks,
      and a five-hundredth of the price. */
  lemma DefaultDistanceMeans(x: real, reference: real, m: Market)
    requires m.point > 0.0
    ensures x >= DefaultLevelDistance(reference, m)
            <==> ClearOfLevels(x - m.tickSize, m) && x >= 100.0 * m.tickSize && -500.0 * x <= reference <= 500.0 * x
  {
    LevelsMean(x - m.tickSize, m);
  }

  /** The leg gap of a pending order is the least distance that is four ticks clear of the broker's levels, eight
      ticks, and twice the spread. */
  lemma LegGapMeans(x: real, m: Market)
    requires m.point > 0.0 && m.tickSize > 0.0
    ensures x >= LegGap(m)
            <==> ClearOfLevels(x - 4.0 * m.tickSize, m) && x >= 8.0 * m.tickSize && x >= 2.0 * (m.ask - m.bid)
  {
    LevelsMean(x - 4.0 * m.tickSize, m);
  }

  /** The gap of a fresh plan is the least distance that is both a default distance and three leg gaps and, on a chart
      that shows the reference, covers 34 pixels of it, for a pending order with three fifths of itself. */
  lemma FreshGapMeans(x: real, reference: real, m: Market, v: View, pending: bool)
    ensures x >= RequiredFreshGap(reference, m, v, pending)
            <==> && x >= DefaultLevelDistance(reference, m) && x >= 3.0 * LegGap(m)
                 && (v.chartHeight > 0 && v.visibleMin.Some? && v.visibleMax.Some?
                     && v.visibleMin.value <= reference <= v.visibleMax.value && v.visibleMin.value < v.visibleMax.value
                     ==>
                       Times(if pending then x * 0.60 else x, v.chartHeight as real)
                       >= (v.visibleMax.value - v.visibleMin.value) * 34.0)
  {
    var gap := Max(DefaultLevelDistance(reference, m), 3.0 * LegGap(m));
    assert x >= gap <==> x >= DefaultLevelDistance(reference, m) && x >= 3.0 * LegGap(m);
    if Coherent(v, reference) {
      VisualMeans(x, v);
    }
  }
}
