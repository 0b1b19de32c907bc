/** A fresh plan on a sound market is executable, and it exists exactly when its prices stay positive. */
module FreshPlans {
  import opened Wrappers
  import opened Decimals
  import opened Prices
  import opened PlanGeometry
  import opened Execution

  // ---- the sizes of the distances, in ticks ----

  lemma GapBounds(reference: real, m: Market, v: View, pending: bool)
    ensures RequiredFreshGap(reference, m, v, pending) >= 3.0 * LegGap(m)
    ensures Coherent(v, reference)
            ==> RequiredFreshGap(reference, m, v, pending) >= if pending then Visual(v) / 0.60 else Visual(v)
  {
  }

  lemma AtCancels(a: int, b: int, m: Market)
    requires m.tickSize > 0.0 && At(a, m) < At(b, m)
    ensures a < b
  {
    if a >= b { AtOrder(b, a, m); }
  }

  /** A leg gap is at least eight ticks, and a distance of three leg gaps at least three times its ticks, less two. */
  lemma ThreeLegs(gap: real, m: Market)
    requires Lattice(m) && gap >= 3.0 * LegGap(m)
    ensures TicksFor(LegGap(m), m) >= 8
    ensures Reach(gap, m) >= 3 * TicksFor(LegGap(m), m) - 2
  {
    var leg, mn, k := LegGap(m), TicksFor(LegGap(m), m), Reach(gap, m);
    LegGapBounds(m);
    TicksForCovers(leg, m);
    ReachCovers(gap, m);
    AtAdds(7, 1, m);
    assert Slack(m) < At(1, m);
    AtCancels(7, mn, m);
    AtAdds(mn - 1, mn - 1, m);
    AtAdds(2 * (mn - 1), mn - 1, m);
    AtCancels(3 * (mn - 1), k, m);
  }

  /** With that much room the limit price lies strictly inside: more than a leg gap of ticks from both
      sides, at two fifths of the way rounded up to a whole tick. */
  lemma LimitTicksInside(k: int, m: Market)
    requires Lattice(m)
    requires TicksFor(LegGap(m), m) >= 8 && k >= 3 * TicksFor(LegGap(m), m) - 2
    ensures LimitTicks(At(k, m), m).Some?
    ensures TicksFor(LegGap(m), m) < LimitTicks(At(k, m), m).value < k - TicksFor(LegGap(m), m)
    ensures 0.40 * k as real - TINY <= LimitTicks(At(k, m), m).value as real < 0.40 * k as real - TINY + 1.0
  {
    var mn := TicksFor(LegGap(m), m);
    AtDivided(k, m);
    assert (k as real + TINY).Floor == k;
    CeilBounds(k as real * 0.40 - TINY);
    var c := Ceil(k as real * 0.40 - TINY);
    assert mn + 1 <= c <= k - mn - 1;
  }

  // ---- the limit entry ----

  /** The ticks of the limit price for a stop k ticks away. */
  function LimitSplit(k: int, m: Market): int
    requires m.tickSize > 0.0
  {
    var ticks := LimitTicks(At(k, m), m);
    if ticks.Some? then ticks.value else 0
  }

  lemma BeyondTicks(a: int, b: int, side: int, m: Market)
    ensures Beyond(At(a, m), At(b, m), side) == At(if side >= 0 then a - b else b - a, m)
  {
    AtAdds(a, b, m);
    AtAdds(b, a, m);
  }

  /** A limit price j ticks from the reference, with the stop k ticks away. */
  lemma LimitLegs(n: int, k: nat, j: int, d: Direction, m: Market)
    requires Lattice(m)
    ensures Abs(At(n, m) - At(Moved(n, -ProfitSign(d), k), m)) == At(k, m)
    ensures Candidate(At(n, m), -ProfitSign(d), j, m) == At(Moved(n, -ProfitSign(d), j), m)
    ensures Beyond(At(n, m), At(Moved(n, -ProfitSign(d), j), m), ProfitSign(d)) == At(j, m)
    ensures Beyond(At(Moved(n, -ProfitSign(d), j), m), At(Moved(n, -ProfitSign(d), k), m), ProfitSign(d))
            == At(k - j, m)
  {
    AtSign(k, m);
    BeyondTicks(n, Moved(n, -ProfitSign(d), k), ProfitSign(d), m);
    BeyondTicks(n, Moved(n, -ProfitSign(d), j), ProfitSign(d), m);
    BeyondTicks(Moved(n, -ProfitSign(d), j), Moved(n, -ProfitSign(d), k), ProfitSign(d), m);
    CandidateOnLattice(n, 0.0, -ProfitSign(d), j, m);
  }

  lemma TargetsCoverLegs(k: int, j: int, m: Market)
    requires Lattice(m)
    requires TicksFor(LegGap(m), m) < j < k - TicksFor(LegGap(m), m)
    ensures At(j, m) > LegGap(m) && At(k - j, m) > LegGap(m)
  {
    var mn := TicksFor(LegGap(m), m);
    TicksForCovers(LegGap(m), m);
    AtAdds(mn, 1, m);
    AtOrder(mn + 1, j, m);
    AtOrder(mn + 1, k - j, m);
  }

  /** With three leg gaps of room the limit entry never raises; both legs exceed the leg gap. */
  lemma LimitNeverRaises(n: int, k: int, d: Direction, m: Market)
    requires Lattice(m)
    requires TicksFor(LegGap(m), m) >= 8 && k >= 3 * TicksFor(LegGap(m), m) - 2
    ensures TicksFor(LegGap(m), m) < LimitSplit(k, m) < k - TicksFor(LegGap(m), m)
    ensures LimitEntry(At(n, m), At(Moved(n, -ProfitSign(d), k), m), d, m)
            == Ok(At(Moved(n, -ProfitSign(d), LimitSplit(k, m)), m))
  {
    LimitTicksInside(k, m);
    LimitLegs(n, k, LimitSplit(k, m), d, m);
    TargetsCoverLegs(k, LimitSplit(k, m), m);
  }

  // ---- fresh plans ----

  /** The prices of a fresh plan in ticks: reference, distance of the levels, entry. */
  datatype Ticks = Ticks(reference: int, level: int, entry: int)

  function EntryTicks(d: Direction, mode: OrderMode, n: int, k: int, m: Market): int
    requires m.tickSize > 0.0
  {
    if mode.Instant? then n
    else if m.allowLimit then Moved(n, -ProfitSign(d), LimitSplit(k, m))
    else Moved(n, ProfitSign(d), Reach(LegGap(m), m))
  }

  ghost function FreshTicks(plan: Plan, m: Market, v: View): Ticks
    requires m.tickSize > 0.0
  {
    var n := Nearest(Quote(plan.direction, m), m);
    var k := Reach(RequiredFreshGap(At(n, m), m, v, plan.orderMode.Pending?), m);
    Ticks(n, k, EntryTicks(plan.direction, plan.orderMode, n, k, m))
  }

  /** Every price of the fresh plan is positive. */
  ghost predicate StaysPositive(plan: Plan, m: Market, v: View)
    requires m.tickSize > 0.0
  {
    var t, s := FreshTicks(plan, m, v), ProfitSign(plan.direction);
    && Moved(t.reference, -s, t.level) > 0
    && (plan.orderMode.Pending? ==> t.entry > 0)
    && (plan.takeProfit > 0.0 ==> Moved(t.entry, s, t.level) > 0)
  }

  /** Stop entries of a fresh plan: the stop is on its own side, so one leg gap is enough. */
  lemma FreshStopEntry(n: nat, k: int, d: Direction, m: Market)
    requires Lattice(m) && k >= 0
    ensures StopEntry(At(n, m), At(Moved(n, -ProfitSign(d), k), m), d, m)
            == Outward(At(n, m), LegGap(m), ProfitSign(d), m)
  {
    BeyondTicks(n, Moved(n, -ProfitSign(d), k), ProfitSign(d), m);
    AtSign(k, m);
  }

  /** The entry of a fresh plan whose stop is k ticks away. */
  lemma FreshEntryOnLattice(d: Direction, mode: OrderMode, n: nat, k: int, m: Market)
    requires Lattice(m) && Supported(mode, m)
    requires TicksFor(LegGap(m), m) >= 8 && k >= 3 * TicksFor(LegGap(m), m) - 2
    requires Moved(n, -ProfitSign(d), k) > 0
    ensures var entry := FreshEntry(d, mode, At(n, m), At(Moved(n, -ProfitSign(d), k), m), m);
      var e := EntryTicks(d, mode, n, k, m);
      && (entry.Ok? <==> mode.Instant? || e > 0)
      && (entry.Ok? ==> entry.value == At(e, m))
  {
    if mode.Pending? {
      if m.allowLimit {
        LimitNeverRaises(n, k, d, m);
      } else {
        FreshStopEntry(n, k, d, m);
        OutwardOnLattice(n, LegGap(m), ProfitSign(d), m);
      }
    }
  }

  /** The plan whose entry is e ticks, with its stop k ticks from n ticks and its take profit k ticks from the entry. */
  function PlanAt(plan: Plan, n: int, k: int, e: int, m: Market): Plan {
    var s := ProfitSign(plan.direction);
    plan.(entry := At(e, m),
          stopLoss := At(Moved(n, -s, k), m),
          takeProfit := if plan.takeProfit > 0.0 then At(Moved(e, s, k), m) else 0.0,
          revision := plan.revision + 1)
  }

  lemma FreshTakeOnLattice(plan: Plan, n: int, gap: real, e: nat, m: Market)
    requires Lattice(m)
    ensures var s, k := ProfitSign(plan.direction), Reach(gap, m);
      var r := FreshTake(plan, At(e, m), At(Moved(n, -s, k), m), gap, m);
      && (r.Ok? <==> (plan.takeProfit > 0.0 ==> Moved(e, s, k) > 0))
      && (r.Ok? ==> r.value == PlanAt(plan, n, k, e, m))
  {
    OutwardOnLattice(e, gap, ProfitSign(plan.direction), m);
  }

  lemma FreshFromStopOnLattice(plan: Plan, n: nat, gap: real, m: Market)
    requires Lattice(m) && Supported(plan.orderMode, m) && gap >= 3.0 * LegGap(m)
    requires Moved(n, -ProfitSign(plan.direction), Reach(gap, m)) > 0
    ensures var s, k := ProfitSign(plan.direction), Reach(gap, m);
      var e := EntryTicks(plan.direction, plan.orderMode, n, k, m);
      var r := FreshFromStop(plan, At(n, m), At(Moved(n, -s, k), m), gap, m);
      && (r.Ok? <==> (plan.orderMode.Pending? ==> e > 0) && (plan.takeProfit > 0.0 ==> Moved(e, s, k) > 0))
      && (r.Ok? ==> r.value == PlanAt(plan, n, k, e, m))
  {
    var k := Reach(gap, m);
    var e := EntryTicks(plan.direction, plan.orderMode, n, k, m);
    ThreeLegs(gap, m);
    FreshEntryOnLattice(plan.direction, plan.orderMode, n, k, m);
    if e >= 0 { FreshTakeOnLattice(plan, n, gap, e, m); }
  }

  lemma FreshLevelsOnLattice(plan: Plan, n: nat, gap: real, m: Market)
    requires Lattice(m) && Supported(plan.orderMode, m) && gap >= 3.0 * LegGap(m)
    ensures var s, k := ProfitSign(plan.direction), Reach(gap, m);
      var e := EntryTicks(plan.direction, plan.orderMode, n, k, m);
      var r := FreshLevels(plan, At(n, m), gap, m);
      && (r.Ok? <==> Moved(n, -s, k) > 0 && (plan.orderMode.Pending? ==> e > 0)
                     && (plan.takeProfit > 0.0 ==> Moved(e, s, k) > 0))
      && (r.Ok? ==> r.value == PlanAt(plan, n, k, e, m))
  {
    OutwardOnLattice(n, gap, -ProfitSign(plan.direction), m);
    if Moved(n, -ProfitSign(plan.direction), Reach(gap, m)) > 0 {
      FreshFromStopOnLattice(plan, n, gap, m);
    }
  }

  /** The exact outcome: a fresh plan exists if and only if every price stays positive, and then it has exactly
      the ticks above. */
  lemma FreshPlanExists(plan: Plan, m: Market, v: View)
    requires Sound(m) && Supported(plan.orderMode, m)
    ensures BuildFreshPlan(plan, m, v).Ok? <==> StaysPositive(plan, m, v)
    ensures var t := FreshTicks(plan, m, v);
      StaysPositive(plan, m, v)
      ==> BuildFreshPlan(plan, m, v) == Ok(PlanAt(plan, t.reference, t.level, t.entry, m))
  {
    var n := Nearest(Quote(plan.direction, m), m);
    var gap := RequiredFreshGap(At(n, m), m, v, plan.orderMode.Pending?);
    ReferenceTicks(plan.direction, m);
    GapBounds(At(n, m), m, v, plan.orderMode.Pending?);
    FreshLevelsOnLattice(plan, n, gap, m);
  }

  /** Without a valid market, positive quotes and a tick size there is no fresh plan. */
  lemma NoQuoteNoPlan(plan: Plan, m: Market, v: View)
    requires !m.valid || m.ask <= 0.0 || m.bid <= 0.0 || m.tickSize <= 0.0
    ensures BuildFreshPlan(plan, m, v) == Err("quote invalid")
  {
  }

  /** The levels of a fresh plan are three leg gaps from reference and entry. */
  lemma FreshLevelsAreFar(n: int, k: int, e: int, d: Direction, m: Market)
    requires At(k, m) + TINY >= 3.0 * LegGap(m)
    ensures Beyond(At(n, m), At(Moved(n, -ProfitSign(d), k), m), ProfitSign(d)) + TINY >= 3.0 * LegGap(m)
    ensures Beyond(At(Moved(e, ProfitSign(d), k), m), At(e, m), ProfitSign(d)) + TINY >= 3.0 * LegGap(m)
  {
    BeyondTicks(n, Moved(n, -ProfitSign(d), k), ProfitSign(d), m);
    BeyondTicks(Moved(e, ProfitSign(d), k), e, ProfitSign(d), m);
  }

  function FreshSubtype(m: Market): Subtype { if m.allowLimit then Limit else Stop }

  /** The entry of a fresh pending plan keeps a leg gap from reference and stop. */
  lemma FreshEntryIsFar(d: Direction, n: int, k: int, e: int, m: Market)
    requires Lattice(m) && Supported(Pending, m) && e == EntryTicks(d, Pending, n, k, m)
    requires TicksFor(LegGap(m), m) >= 8 && k >= 3 * TicksFor(LegGap(m), m) - 2
    ensures Beyond(At(e, m), At(n, m), Side(d, FreshSubtype(m))) + TINY >= LegGap(m)
    ensures Beyond(At(e, m), At(Moved(n, -ProfitSign(d), k), m), ProfitSign(d)) + TINY >= LegGap(m)
  {
    BeyondTicks(e, n, Side(d, FreshSubtype(m)), m);
    BeyondTicks(e, Moved(n, -ProfitSign(d), k), ProfitSign(d), m);
    if m.allowLimit {
      LimitTicksInside(k, m);
      TargetsCoverLegs(k, LimitSplit(k, m), m);
    } else {
      ReachCovers(LegGap(m), m);
      AtOrder(Reach(LegGap(m), m), Reach(LegGap(m), m) + k, m);
    }
  }

  /** A pending plan whose entry keeps a leg gap from reference and stop is executable. */
  lemma FarEntryIsExecutable(plan: Plan, m: Market, e: int, subtype: Subtype)
    requires Sound(m) && plan.orderMode.Pending? && Allows(m, subtype)
    requires e > 0 && plan.entry == At(e, m) && plan.stopLoss > 0.0
    requires Beyond(plan.entry, Reference(plan.direction, m), Side(plan.direction, subtype)) + TINY >= LegGap(m)
    requires Beyond(plan.entry, plan.stopLoss, ProfitSign(plan.direction)) + TINY >= LegGap(m)
    requires plan.takeProfit > 0.0
             ==> Beyond(plan.takeProfit, plan.entry, ProfitSign(plan.direction)) + TINY >= 3.0 * LegGap(m)
    ensures Executable(plan, m)
  {
    ReferenceTicks(plan.direction, m);
    LegGapBounds(m);
    PendingResolves(plan, m, e, subtype);
    PendingPricesFit(plan, m);
  }

  /** Every fresh plan is executable at once: pending or at market, long or short, with or without a take profit. */
  lemma FreshPlanIsExecutable(plan: Plan, m: Market, v: View)
    requires Sound(m) && Supported(plan.orderMode, m)
    requires BuildFreshPlan(plan, m, v).Ok?
    ensures Executable(BuildFreshPlan(plan, m, v).value, m)
  {
    var t, d := FreshTicks(plan, m, v), plan.direction;
    var n, k, e := t.reference, t.level, t.entry;
    var gap := RequiredFreshGap(At(n, m), m, v, plan.orderMode.Pending?);
    FreshPlanExists(plan, m, v);
    ReferenceTicks(d, m);
    GapBounds(At(n, m), m, v, plan.orderMode.Pending?);
    ReachCovers(gap, m);
    FreshLevelsAreFar(n, k, e, d, m);
    AtSign(Moved(n, -ProfitSign(d), k), m);
    var p := BuildFreshPlan(plan, m, v).value;
    if plan.orderMode.Instant? {
      InstantPricesFit(p, m);
    } else {
      ThreeLegs(gap, m);
      FreshEntryIsFar(d, n, k, e, m);
      FarEntryIsExecutable(p, m, e, FreshSubtype(m));
    }
  }

  // ---- when there is room ----

  lemma ReachIsShort(distance: real, m: Market)
    requires Lattice(m) && distance > 0.0
    ensures At(Reach(distance, m), m) < distance + At(2, m)
  {
    var k := TicksFor(distance, m);
    TicksForCovers(distance, m);
    AtAdds(k - 1, 2, m);
    AtAdds(k - 1, 1, m);
    AtOrder(1, 2, m);
    AtSign(1, m);
  }

  /** A long plan has a fresh plan whenever the quote exceeds the required gap by two ticks; a short plan whenever the
      quote exceeds it by a leg gap and four ticks, or it has no take profit and is not forced to a stop entry. */
  lemma FreshPlanHasRoom(plan: Plan, m: Market, v: View)
    requires Sound(m) && Supported(plan.orderMode, m)
    requires var reference := Reference(plan.direction, m);
      var gap := RequiredFreshGap(reference, m, v, plan.orderMode.Pending?);
      || (plan.direction.Long? && reference >= gap + At(2, m))
      || (plan.direction.Short? && reference >= gap + LegGap(m) + At(4, m))
      || (plan.direction.Short? && plan.takeProfit <= 0.0 && (plan.orderMode.Pending? ==> m.allowLimit))
    ensures BuildFreshPlan(plan, m, v).Ok?
  {
    var n := Nearest(Quote(plan.direction, m), m);
    var gap := RequiredFreshGap(At(n, m), m, v, plan.orderMode.Pending?);
    FreshPlanExists(plan, m, v);
    ReferenceTicks(plan.direction, m);
    GapBounds(At(n, m), m, v, plan.orderMode.Pending?);
    RoomInTicks(n, gap, m);
    ThreeLegs(gap, m);
    LimitTicksInside(Reach(gap, m), m);
  }

  lemma RoomInTicks(n: int, gap: real, m: Market)
    requires Lattice(m) && gap >= 3.0 * LegGap(m)
    ensures Reach(gap, m) >= 1 && Reach(LegGap(m), m) >= 1
    ensures At(n, m) >= gap + At(2, m) ==> n > Reach(gap, m)
    ensures At(n, m) >= gap + LegGap(m) + At(4, m) ==> n > Reach(gap, m) + Reach(LegGap(m), m)
  {
    var k, r := Reach(gap, m), Reach(LegGap(m), m);
    LegGapBounds(m);
    AtSign(8, m);
    ReachCovers(gap, m);
    ReachCovers(LegGap(m), m);
    ReachIsShort(gap, m);
    ReachIsShort(LegGap(m), m);
    AtAdds(2, 2, m);
    AtAdds(k, r, m);
    if At(n, m) >= gap + At(2, m) { AtCancels(k, n, m); }
    if At(n, m) >= gap + LegGap(m) + At(4, m) { AtCancels(k + r, n, m); }
  }

  // ---- the defaults of the model ----

  function DefaultMarket(): Market {
    Market(1.1000, 1.1002, 0.00001, 0.00001, 5, 0.01, 100.0, 0.01, 0.0, 0.0, 0.0, 10, 0, 10000.0, 10000.0, 100.0,
           true, true, true)
  }

  lemma DefaultMarketIsSound()
    ensures Sound(DefaultMarket())
  {
    assert Pow10(2) == 100.0;
    assert Pow10(4) == 100.0 * Pow10(2);
    Whole(Units(0.00001, 5), 1);
  }

  /** On the default market a plan of either direction and mode has a fresh plan, so it is executable. */
  lemma DefaultsHaveFreshPlans(plan: Plan, v: View)
    requires plan.takeProfit <= 0.0 && v.chartHeight == 0
    ensures BuildFreshPlan(plan, DefaultMarket(), v).Ok?
    ensures Executable(BuildFreshPlan(plan, DefaultMarket(), v).value, DefaultMarket())
  {
    var m := DefaultMarket();
    DefaultMarketIsSound();
    ReferenceTicks(plan.direction, m);
    assert At(2, m) == 0.00002;
    FreshPlanHasRoom(plan, m, v);
    FreshPlanIsExecutable(plan, m, v);
  }

  // ---- a coarse market ----

  /** Whole-number ticks, no spread and no broker distance: every required gap is at least a hundred ticks. */
  function CoarseMarket(price: int, allowLimit: bool): Market {
    DefaultMarket().(bid := price as real, ask := price as real, point := 1.0, tickSize := 1.0, digits := 0,
                     stopsLevelPoints := 0, allowLimit := allowLimit)
  }

  lemma CoarseMarketIsSound(price: int, allowLimit: bool, d: Direction)
    requires price > 0
    ensures var m := CoarseMarket(price, allowLimit);
      && Sound(m) && Protective(m) == 1.0 && LegGap(m) == 8.0
      && Reference(d, m) == price as real && Nearest(Quote(d, m), m) == price
  {
    var m := CoarseMarket(price, allowLimit);
    assert Units(1.0, 0) == 1.0;
    Whole(Units(1.0, 0), 1);
    assert Quote(d, m) == At(price, m);
    NormalizeAt(price, m);
    AtDivided(price, m);
    FloorBounds(price as real + 0.5);
  }

  lemma CoarseReach(distance: int, price: int, allowLimit: bool)
    requires distance >= 1 && price > 0
    ensures Reach(distance as real, CoarseMarket(price, allowLimit)) == distance
  {
    var m := CoarseMarket(price, allowLimit);
    assert distance as real / m.tickSize == distance as real;
    CeilBounds(distance as real - TINY);
    assert Ceil(distance as real - TINY) == distance;
    assert At(distance, m) == distance as real;
  }

  /** Short plans whose stop is positive and that fail nevertheless: a take profit a hundred ticks below a quote of
      fifty, and a stop entry eight ticks below a quote of five. */
  lemma ShortPlansMayFail(plan: Plan, v: View)
    requires plan.direction.Short? && v.chartHeight == 0
    ensures plan.takeProfit > 0.0 && plan.orderMode.Instant? ==> BuildFreshPlan(plan, CoarseMarket(50, true), v).Err?
    ensures plan.orderMode.Pending? ==> BuildFreshPlan(plan, CoarseMarket(5, false), v).Err?
  {
    CoarseMarketIsSound(50, true, Short);
    CoarseMarketIsSound(5, false, Short);
    CoarseReach(100, 50, true);
    CoarseReach(8, 5, false);
    if plan.orderMode.Instant? {
      FreshPlanExists(plan, CoarseMarket(50, true), v);
    } else {
      FreshPlanExists(plan, CoarseMarket(5, false), v);
    }
  }
}
