/** The distance of a fresh plan's stop from its entry, on the chart the plan is made for. */
module Visibility {
  import opened Wrappers
  import opened Decimals
  import opened Prices
  import opened PlanGeometry
  import opened Execution
  import opened FreshPlans

  /** The distance from entry to stop. */
  function StopLeg(p: Plan): real { Beyond(p.entry, p.stopLoss, ProfitSign(p.direction)) }

  /** The ticks between the reference of a fresh plan and its stop. */
  ghost function FreshReach(plan: Plan, m: Market, v: View): int
    requires m.tickSize > 0.0
  {
    Reach(RequiredFreshGap(Reference(plan.direction, m), m, v, plan.orderMode.Pending?), m)
  }

  /** A limit entry two fifths of the way, rounded up to a tick, leaves three fifths, rounded down. */
  lemma LimitLeavesThreeFifths(k: int, m: Market)
    requires Lattice(m)
    requires TicksFor(LegGap(m), m) >= 8 && k >= 3 * TicksFor(LegGap(m), m) - 2
    ensures k - LimitSplit(k, m) == (3 * k) / 5
  {
    var j := LimitSplit(k, m);
    LimitTicksInside(k, m);
    assert 2 * k <= 5 * j <= 2 * k + 4;
  }

  /** The ticks of the stop leg: all of them for a market order, three fifths rounded down for a limit entry, and a
      leg gap more for a stop entry. */
  function StopLegTicks(mode: OrderMode, k: int, m: Market): int
    requires m.tickSize > 0.0
  {
    if mode.Instant? then k else if m.allowLimit then (3 * k) / 5 else k + Reach(LegGap(m), m)
  }

  lemma StopLegInTicks(d: Direction, mode: OrderMode, n: int, k: int, m: Market)
    requires Lattice(m) && Supported(mode, m)
    requires TicksFor(LegGap(m), m) >= 8 && k >= 3 * TicksFor(LegGap(m), m) - 2
    ensures Beyond(At(EntryTicks(d, mode, n, k, m), m), At(Moved(n, -ProfitSign(d), k), m), ProfitSign(d))
            == At(StopLegTicks(mode, k, m), m)
  {
    BeyondTicks(EntryTicks(d, mode, n, k, m), Moved(n, -ProfitSign(d), k), ProfitSign(d), m);
    LimitLeavesThreeFifths(k, m);
  }

  /** The stop leg of every fresh plan, exactly. */
  lemma FreshStopLeg(plan: Plan, m: Market, v: View)
    requires Sound(m) && Supported(plan.orderMode, m) && BuildFreshPlan(plan, m, v).Ok?
    ensures StopLeg(BuildFreshPlan(plan, m, v).value)
            == At(StopLegTicks(plan.orderMode, FreshReach(plan, m, v), m), m)
  {
    var n := Nearest(Quote(plan.direction, m), m);
    FreshPlanExists(plan, m, v);
    ReferenceTicks(plan.direction, m);
    GapBounds(At(n, m), m, v, plan.orderMode.Pending?);
    ThreeLegs(RequiredFreshGap(At(n, m), m, v, plan.orderMode.Pending?), m);
    StopLegInTicks(plan.direction, plan.orderMode, n, FreshReach(plan, m, v), m);
  }

  /** What the chart asks of the distance between reference and stop. */
  lemma VisibleShare(v: View, gap: real, distance: real, pending: bool)
    requires v.chartHeight > 0 && v.visibleMin.Some? && v.visibleMax.Some?
    requires gap >= (if pending then Visual(v) / 0.60 else Visual(v)) && distance + TINY >= gap
    ensures 0.60 * distance + TINY >= if pending then Visual(v) else 0.60 * Visual(v)
  {
  }

  lemma VisualIsPositive(v: View)
    requires v.chartHeight > 0 && v.visibleMin.Some? && v.visibleMax.Some?
    requires v.visibleMax.value > v.visibleMin.value
    ensures Visual(v) > 0.0
  {
  }

  lemma LevelIsVisible(n: int, k: int, mode: OrderMode, m: Market, v: View)
    requires Lattice(m) && Coherent(v, At(n, m))
    requires k == Reach(RequiredFreshGap(At(n, m), m, v, mode.Pending?), m)
    ensures k >= 1 && At(k, m) + TINY >= Visual(v)
    ensures mode.Pending? ==> 0.60 * At(k, m) + TINY >= Visual(v)
  {
    var gap := RequiredFreshGap(At(n, m), m, v, mode.Pending?);
    GapBounds(At(n, m), m, v, mode.Pending?);
    ReachCovers(gap, m);
    VisibleShare(v, gap, At(k, m), mode.Pending?);
    VisualIsPositive(v);
  }

  /** Three fifths rounded down lose less than a tick, and nothing when they are whole. */
  lemma ThreeFifths(k: int, m: Market)
    requires m.tickSize > 0.0
    ensures At((3 * k) / 5, m) + m.tickSize >= 0.60 * At(k, m)
    ensures k % 5 == 0 ==> At((3 * k) / 5, m) == 0.60 * At(k, m)
  {
    var f := (3 * k) / 5;
    MulLe(0.60 * k as real - 1.0, f as real, m.tickSize);
    Distributes(0.60 * k as real, 1.0, m.tickSize);
    assert 0.60 * k as real * m.tickSize == 0.60 * At(k, m);
    if k % 5 == 0 {
      assert f as real == 0.60 * k as real;
    }
  }

  /** On a visible chart, the stop of a fresh market plan, or of one with a stop entry, lies at least 34 pixels from
      its entry (within the slack of price comparisons). For a limit entry it does exactly when three fifths of the
      stop ticks, rounded down, cover 34 pixels; they always do to within a tick, and fully when the stop ticks are a
      multiple of five. */
  lemma FreshStopIsVisible(plan: Plan, m: Market, v: View)
    requires Sound(m) && Supported(plan.orderMode, m)
    requires BuildFreshPlan(plan, m, v).Ok? && Coherent(v, Reference(plan.direction, m))
    ensures var leg, k := StopLeg(BuildFreshPlan(plan, m, v).value), FreshReach(plan, m, v);
      && (plan.orderMode.Instant? || !m.allowLimit ==> leg + TINY >= Visual(v))
      && (plan.orderMode.Pending? && m.allowLimit ==>
            && (leg >= Visual(v) <==> At((3 * k) / 5, m) >= Visual(v))
            && leg + TINY + m.tickSize >= Visual(v)
            && (k % 5 == 0 ==> leg + TINY >= Visual(v)))
  {
    FreshStopLeg(plan, m, v);
    ReferenceTicks(plan.direction, m);
    LevelIsVisible(Nearest(Quote(plan.direction, m), m), FreshReach(plan, m, v), plan.orderMode, m, v);
    LegTicksAreVisible(FreshReach(plan, m, v), plan.orderMode, m, v);
  }

  lemma LegTicksAreVisible(k: int, mode: OrderMode, m: Market, v: View)
    requires Lattice(m) && v.chartHeight > 0 && v.visibleMin.Some? && v.visibleMax.Some?
    requires At(k, m) + TINY >= Visual(v) && (mode.Pending? ==> 0.60 * At(k, m) + TINY >= Visual(v))
    ensures var leg := At(StopLegTicks(mode, k, m), m);
      if mode.Instant? || !m.allowLimit then leg + TINY >= Visual(v)
      else leg + TINY + m.tickSize >= Visual(v) && (k % 5 == 0 ==> leg + TINY >= Visual(v))
  {
    ThreeFifths(k, m);
    ReachCovers(LegGap(m), m);
    AtOrder(k, k + Reach(LegGap(m), m), m);
  }

  /** A view on which 34 pixels are 100.5. */
  const VIEW := View(Some(900.0), Some(1101.0), 68)

  lemma ViewedGap(price: int)
    requires 900 <= price <= 1101
    ensures Visual(VIEW) == 100.5 && Coherent(VIEW, price as real)
    ensures RequiredFreshGap(price as real, CoarseMarket(price, true), VIEW, true) == 167.5
  {
    CoarseMarketIsSound(price, true, Long);
  }

  lemma ViewedReach(price: int)
    ensures Reach(167.5, CoarseMarket(price, true)) == 168
  {
    var m := CoarseMarket(price, true);
    assert 167.5 / m.tickSize == 167.5;
    CeilBounds(167.5 - TINY);
    assert At(168, m) == 168.0;
  }

  /** The stop leg of a long limit plan whose stop is k ticks from its reference. */
  lemma LongLimitLeg(plan: Plan, m: Market, v: View, k: int)
    requires plan.direction.Long? && plan.orderMode.Pending? && Sound(m) && m.allowLimit
    requires var gap := RequiredFreshGap(Reference(Long, m), m, v, true);
      Reach(gap, m) == k && Reference(Long, m) >= gap + At(2, m)
    ensures BuildFreshPlan(plan, m, v).Ok?
    ensures StopLeg(BuildFreshPlan(plan, m, v).value) == At((3 * k) / 5, m)
  {
    FreshPlanHasRoom(plan, m, v);
    FreshStopLeg(plan, m, v);
  }

  /** What makes the rounding of a limit entry show: a gap of 167.5 on whole ticks. */
  ghost predicate Viewed(m: Market) {
    && Sound(m) && m.allowLimit && At(2, m) == 2.0 && At(100, m) == 100.0
    && 900.0 <= Reference(Long, m) <= 1101.0
    && RequiredFreshGap(Reference(Long, m), m, VIEW, true) == 167.5 && Reach(167.5, m) == 168
  }

  lemma CoarseMarketIsViewed(price: int)
    requires 900 <= price <= 1101
    ensures Viewed(CoarseMarket(price, true))
  {
    CoarseMarketIsSound(price, true, Long);
    ViewedGap(price);
    ViewedReach(price);
  }

  lemma ViewedLeg(plan: Plan, m: Market)
    requires plan.direction.Long? && plan.orderMode.Pending? && Viewed(m)
    ensures BuildFreshPlan(plan, m, VIEW).Ok? && StopLeg(BuildFreshPlan(plan, m, VIEW).value) == 100.0
  {
    LongLimitLeg(plan, m, VIEW, 168);
  }

  /** At every whole price in this view, a limit entry keeps its stop only 100 away where the chart asks for 100.5. */
  lemma StopMayBeTooNear(plan: Plan, price: int)
    requires plan.direction.Long? && plan.orderMode.Pending? && 900 <= price <= 1101
    ensures var m := CoarseMarket(price, true);
      && BuildFreshPlan(plan, m, VIEW).Ok? && Coherent(VIEW, Reference(plan.direction, m))
      && StopLeg(BuildFreshPlan(plan, m, VIEW).value) == 100.0 && Visual(VIEW) == 100.5
  {
    CoarseMarketIsViewed(price);
    ViewedLeg(plan, CoarseMarket(price, true));
  }
}
