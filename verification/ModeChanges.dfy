/** Switching a plan between market and pending orders. */
module ModeChanges {
  import opened Wrappers
  import opened Decimals
  import opened Prices
  import opened PlanGeometry
  import opened Execution
  import FreshPlans

  // ---- what a switch never changes ----

  /** The plans agree on everything but order mode, entry and revision. */
  predicate SameTerms(a: Plan, b: Plan) {
    b == a.(orderMode := b.orderMode, entry := b.entry, revision := b.revision)
  }

  /** A switch; when it is refused the plan stays as it is. */
  function Switch(plan: Plan, m: Market, mode: OrderMode): (r: Plan)
    ensures SameTerms(plan, r)
    ensures r == plan || (r.revision == plan.revision + 1 && r.orderMode != plan.orderMode)
  {
    var changed := ChangeOrderMode(plan, m, mode);
    if changed.Ok? then changed.value else plan
  }

  /** A run of switches, each on the market of its moment. */
  function Switches(plan: Plan, steps: seq<(Market, OrderMode)>): Plan
    decreases |steps|
  {
    if steps == [] then plan else Switches(Switch(plan, steps[0].0, steps[0].1), steps[1..])
  }

  /** Over any run of switches the stop, the take profit and the risk terms stay as they were; the revision
      counts the switches that changed the mode. */
  lemma {:induction false} SwitchesKeepTerms(plan: Plan, steps: seq<(Market, OrderMode)>)
    ensures SameTerms(plan, Switches(plan, steps))
    ensures plan.revision <= Switches(plan, steps).revision <= plan.revision + |steps|
    ensures Switches(plan, steps).revision == plan.revision ==> Switches(plan, steps) == plan
    decreases |steps|
  {
    if steps != [] {
      SwitchesKeepTerms(Switch(plan, steps[0].0, steps[0].1), steps[1..]);
    }
  }

  /** A plan that becomes a market order enters at the tick nearest to the quote of its direction and keeps everything
      else; switching to the mode it has changes nothing; without a quote it cannot be switched. */
  lemma InstantEntryIsTheQuote(plan: Plan, m: Market)
    ensures ChangeOrderMode(plan, m, plan.orderMode) == Ok(plan)
    ensures plan.orderMode.Pending? && (m.ask <= 0.0 || m.bid <= 0.0 || m.tickSize <= 0.0)
            ==> ChangeOrderMode(plan, m, Instant).Err?
    ensures plan.orderMode.Instant? && (m.ask <= 0.0 || m.bid <= 0.0 || m.tickSize <= 0.0)
            ==> ChangeOrderMode(plan, m, Pending).Err?
    ensures plan.orderMode.Pending? && Lattice(m) && 0.0 < m.bid && 0.0 < m.ask ==>
      var changed := ChangeOrderMode(plan, m, Instant);
      && changed.Ok?
      && changed.value == plan.(orderMode := Instant, entry := changed.value.entry, revision := plan.revision + 1)
      && (exists n :: changed.value.entry == At(n, m))
      && -0.5 * m.tickSize < changed.value.entry - Quote(plan.direction, m) <= 0.5 * m.tickSize
  {
    if Lattice(m) && 0.0 < m.bid && 0.0 < m.ask {
      ReferenceTicks(plan.direction, m);
    }
  }

  // ---- the entry of a plan that becomes pending ----

  /** The entry keeps a leg gap (within the slack) from the reference and from the stop, on the side of its subtype. */
  predicate KeepsLegs(entry: real, reference: real, stop: real, d: Direction, subtype: Subtype, m: Market) {
    && Beyond(entry, reference, Side(d, subtype)) + TINY >= LegGap(m)
    && Beyond(entry, stop, ProfitSign(d)) + TINY >= LegGap(m)
  }

  /** The ticks from the reference to a limit entry. */
  function LimitTarget(n: int, stop: real, m: Market): int
    requires m.tickSize > 0.0
  {
    var ticks := LimitTicks(Abs(At(n, m) - stop), m);
    if ticks.Some? then ticks.value else 0
  }

  lemma LimitEntryKeepsLegs(n: nat, stop: real, d: Direction, m: Market) returns (ticks: int)
    requires Lattice(m) && stop > 0.0 && LimitEntry(At(n, m), stop, d, m).Ok?
    ensures ticks == Moved(n, -ProfitSign(d), LimitTarget(n, stop, m))
    ensures ticks > 0 && LimitEntry(At(n, m), stop, d, m) == Ok(At(ticks, m))
    ensures KeepsLegs(At(ticks, m), At(n, m), stop, d, Limit, m)
  {
    var target := LimitTicks(Abs(At(n, m) - stop), m).value;
    CandidateOnLattice(n, 0.0, -ProfitSign(d), target, m);
    ticks := Moved(n, -ProfitSign(d), target);
    LegGapBounds(m);
    AtSign(ticks, m);
    AtSign(n, m);
    AtSign(8, m);
  }

  // ---- when a limit entry fits ----

  /** The whole ticks between reference and stop. */
  function RoomTicks(n: int, stop: real, m: Market): int
    requires m.tickSize > 0.0
  {
    (Abs(At(n, m) - stop) / m.tickSize + TINY).Floor
  }

  /** The stop lies on its own side, with room for two leg gaps. */
  predicate LimitHasRoom(n: int, stop: real, d: Direction, m: Market)
    requires m.tickSize > 0.0
  {
    Beyond(At(n, m), stop, ProfitSign(d)) > 0.0 && RoomTicks(n, stop, m) >= 2 * TicksFor(LegGap(m), m)
  }

  /** The same, and rounding to ticks leaves both legs a leg gap. */
  predicate LimitFits(n: int, stop: real, d: Direction, m: Market)
    requires m.tickSize > 0.0
  {
    && LimitHasRoom(n, stop, d, m)
    && At(LimitTarget(n, stop, m), m) + TINY >= LegGap(m)
    && Beyond(At(n, m), stop, ProfitSign(d)) - At(LimitTarget(n, stop, m), m) + TINY >= LegGap(m)
  }

  lemma TargetWithinRoom(n: int, stop: real, m: Market)
    requires m.tickSize > 0.0
    ensures RoomTicks(n, stop, m) >= 2 * TicksFor(LegGap(m), m)
            <==> LimitTicks(Abs(At(n, m) - stop), m).Some?
    ensures RoomTicks(n, stop, m) >= 2 * TicksFor(LegGap(m), m)
            ==> TicksFor(LegGap(m), m) <= LimitTarget(n, stop, m) <= RoomTicks(n, stop, m) - TicksFor(LegGap(m), m)
  {
  }

  /** A limit entry exists exactly when it fits. */
  lemma LimitEntryIff(n: nat, stop: real, d: Direction, m: Market)
    requires Lattice(m)
    ensures LimitEntry(At(n, m), stop, d, m).Ok? <==> LimitFits(n, stop, d, m)
  {
    var j := LimitTarget(n, stop, m);
    TargetWithinRoom(n, stop, m);
    TicksForCovers(LegGap(m), m);
    LegGapBounds(m);
    AtSign(8, m);
    if LimitTicks(Abs(At(n, m) - stop), m).Some? {
      CandidateOnLattice(n, 0.0, -ProfitSign(d), j, m);
      LimitLegsOf(n, j, stop, d, m);
      AtSign(j, m);
    }
  }

  lemma LimitLegsOf(n: int, j: int, stop: real, d: Direction, m: Market)
    ensures Beyond(At(n, m), At(Moved(n, -ProfitSign(d), j), m), ProfitSign(d)) == At(j, m)
    ensures Beyond(At(Moved(n, -ProfitSign(d), j), m), stop, ProfitSign(d))
            == Beyond(At(n, m), stop, ProfitSign(d)) - At(j, m)
  {
    AtAdds(n, j, m);
  }

  /** For ticks up to one half the rounding never matters. */
  lemma LimitFitsIff(n: nat, stop: real, d: Direction, m: Market)
    requires Lattice(m) && m.tickSize <= 0.5
    ensures LimitFits(n, stop, d, m) <==> LimitHasRoom(n, stop, d, m)
  {
    var mn, j, room := TicksFor(LegGap(m), m), LimitTarget(n, stop, m), RoomTicks(n, stop, m);
    if LimitHasRoom(n, stop, d, m) {
      TargetWithinRoom(n, stop, m);
      TicksForCovers(LegGap(m), m);
      AtOrder(mn, j, m);
      AtOrder(mn, room - j, m);
      AtAdds(room, j, m);
      RoomIsThere(Abs(At(n, m) - stop), m);
      assert Slack(m) <= 0.5 * TINY;
    }
  }

  lemma RoomIsThere(distance: real, m: Market)
    requires m.tickSize > 0.0
    ensures distance >= At((distance / m.tickSize + TINY).Floor, m) - Slack(m)
  {
    var q := distance / m.tickSize + TINY;
    FloorBounds(q);
    MulLe(q.Floor as real, q, m.tickSize);
    Distributes(distance / m.tickSize, TINY, m.tickSize);
  }

  /** The subtype a switch to pending chooses: the limit entry if it is allowed and fits, else the stop entry. */
  function Chosen(n: int, stop: real, d: Direction, m: Market): Subtype
    requires m.tickSize > 0.0
  {
    if m.allowLimit && LimitFits(n, stop, d, m) then Limit else Stop
  }

  // ---- the stop entry ----

  /** The distance a stop entry asks for. */
  function StopRequired(reference: real, stop: real, d: Direction, m: Market): real {
    Max(LegGap(m), LegGap(m) - Beyond(reference, stop, ProfitSign(d)))
  }

  /** A stop entry exists unless it would fall to zero, and keeps the legs wherever the stop is. */
  lemma StopEntryKeepsLegs(n: nat, stop: real, d: Direction, m: Market)
    requires Lattice(m)
    ensures var ticks := Moved(n, ProfitSign(d), Reach(StopRequired(At(n, m), stop, d, m), m));
      && (StopEntry(At(n, m), stop, d, m).Ok? <==> ticks > 0)
      && (ticks > 0 ==> StopEntry(At(n, m), stop, d, m) == Ok(At(ticks, m)))
      && KeepsLegs(At(ticks, m), At(n, m), stop, d, Stop, m)
  {
    var required := StopRequired(At(n, m), stop, d, m);
    assert StopEntry(At(n, m), stop, d, m) == Outward(At(n, m), required, ProfitSign(d), m);
    OutwardOnLattice(n, required, ProfitSign(d), m);
    ReachCovers(required, m);
    AtAdds(n, Reach(required, m), m);
  }

  /** The ticks of the entry a switch to pending chooses. */
  function PendingTicks(n: int, stop: real, d: Direction, m: Market): int
    requires m.tickSize > 0.0
  {
    if Chosen(n, stop, d, m).Limit? then Moved(n, -ProfitSign(d), LimitTarget(n, stop, m))
    else Moved(n, ProfitSign(d), Reach(StopRequired(At(n, m), stop, d, m), m))
  }

  /** Whatever the stop, a switch to pending either is refused or gives a lattice entry that keeps both legs, of a
      subtype the market allows. */
  lemma PendingEntryKeepsLegs(n: nat, stop: real, d: Direction, m: Market)
    requires Lattice(m) && stop > 0.0 && PendingEntry(At(n, m), stop, d, m).Ok?
    ensures var ticks := PendingTicks(n, stop, d, m);
      && ticks > 0 && PendingEntry(At(n, m), stop, d, m) == Ok(At(ticks, m))
      && Allows(m, Chosen(n, stop, d, m))
      && KeepsLegs(At(ticks, m), At(n, m), stop, d, Chosen(n, stop, d, m), m)
  {
    LimitEntryIff(n, stop, d, m);
    if m.allowLimit && LimitFits(n, stop, d, m) {
      var _ := LimitEntryKeepsLegs(n, stop, d, m);
    } else {
      StopEntryKeepsLegs(n, stop, d, m);
    }
  }

  // ---- staying valid while the quotes move ----

  /** The market with both quotes moved by the same amount. */
  function Shifted(m: Market, move: real): Market { m.(bid := m.bid + move, ask := m.ask + move) }

  /** How far the quotes may move: the leg gap, less the protective distance and half a tick. */
  function Room(m: Market): real { LegGap(m) - Protective(m) - m.tickSize * 0.5 }

  lemma ShiftIsSound(m: Market, move: real, subtype: Subtype)
    requires Sound(m) && m.bid + move > 0.0
    ensures Sound(Shifted(m, move)) && Allows(Shifted(m, move), subtype) == Allows(m, subtype)
  {
  }

  lemma ShiftKeepsDistances(m: Market, move: real, ticks: int)
    ensures LegGap(Shifted(m, move)) == LegGap(m) && Protective(Shifted(m, move)) == Protective(m)
    ensures At(ticks, Shifted(m, move)) == At(ticks, m) && Shifted(m, move).tickSize == m.tickSize
  {
  }

  lemma TakeFitsAnyShift(plan: Plan, m: Market, move: real)
    ensures TakeFits(plan, Shifted(m, move)) == TakeFits(plan, m)
  {
  }

  lemma RoomIsThreeTicks(m: Market)
    requires Lattice(m)
    ensures Room(m) > 3.0 * m.tickSize
  {
    LegGapBounds(m);
  }

  /** An entry that keeps its legs on one market still resolves to its subtype after a shift within the room,
      and its stop is still accepted. */
  lemma LegsSurviveShift(plan: Plan, m: Market, move: real, ticks: int, subtype: Subtype)
    requires Sound(m) && plan.orderMode.Pending? && plan.stopLoss > 0.0
    requires ticks > 0 && plan.entry == At(ticks, m) && Allows(m, subtype)
    requires KeepsLegs(plan.entry, Reference(plan.direction, m), plan.stopLoss, plan.direction, subtype, m)
    requires -Room(m) <= move <= Room(m) && m.bid + move > 0.0
    ensures ResolveOrder(plan, Shifted(m, move)) == Ok((PendingType(plan.direction, subtype), plan.entry))
    ensures Executable(plan, Shifted(m, move)) <==> TakeFits(plan, m)
  {
    ShiftIsSound(m, move, subtype);
    ShiftKeepsDistances(m, move, ticks);
    EntryStaysFar(plan, m, move, subtype);
    PendingExecutable(plan, Shifted(m, move), ticks, subtype);
    TakeFitsAnyShift(plan, m, move);
  }

  lemma EntryStaysFar(plan: Plan, m: Market, move: real, subtype: Subtype)
    requires Sound(m) && -Room(m) <= move <= Room(m)
    requires KeepsLegs(plan.entry, Reference(plan.direction, m), plan.stopLoss, plan.direction, subtype, m)
    ensures var beyond := Beyond(plan.entry, Quote(plan.direction, Shifted(m, move)), Side(plan.direction, subtype));
      beyond > m.tickSize * 0.5 && beyond + TINY >= Protective(m)
  {
    ReferenceTicks(plan.direction, m);
    LegGapBounds(m);
  }

  /** Between ticks, the protective distance decides. */
  lemma TakeFitsIff(plan: Plan, m: Market)
    requires Lattice(m)
    ensures TakeFits(plan, m) <==>
      (plan.takeProfit > 0.0 ==>
         Beyond(plan.takeProfit, plan.entry, ProfitSign(plan.direction)) + TINY >= Protective(m))
  {
    LegGapBounds(m);
  }

  /** The take profit of a plan, if it has one, lies the protective distance past the entry a switch to pending would
      give it. */
  ghost predicate TakeReaches(plan: Plan, m: Market)
    requires m.tickSize > 0.0
  {
    var d := plan.direction;
    var entry := At(PendingTicks(Nearest(Quote(d, m), m), plan.stopLoss, d, m), m);
    plan.takeProfit > 0.0 ==> Beyond(plan.takeProfit, entry, ProfitSign(d)) + TINY >= Protective(m)
  }

  /** A market plan that becomes pending resolves to the subtype the switch chose, at once and after any parallel
      shift of the quotes within the room; then it is executable exactly when the take profit it had reaches past
      the new entry. */
  lemma PendingSurvivesShift(plan: Plan, m: Market, move: real)
    requires Sound(m) && plan.orderMode.Instant? && plan.stopLoss > 0.0
    requires ChangeOrderMode(plan, m, Pending).Ok?
    requires -Room(m) <= move <= Room(m) && m.bid + move > 0.0
    ensures var p := ChangeOrderMode(plan, m, Pending).value;
      var subtype := Chosen(Nearest(Quote(plan.direction, m), m), plan.stopLoss, plan.direction, m);
      && KeepsLegs(p.entry, Reference(plan.direction, m), p.stopLoss, p.direction, subtype, m)
      && ResolveOrder(p, Shifted(m, move)) == Ok((PendingType(p.direction, subtype), p.entry))
      && (Executable(p, Shifted(m, move)) <==> TakeReaches(plan, m))
  {
    var d := plan.direction;
    var n := Nearest(Quote(d, m), m);
    ReferenceTicks(d, m);
    PendingEntryKeepsLegs(n, plan.stopLoss, d, m);
    var p := ChangeOrderMode(plan, m, Pending).value;
    LegsSurviveShift(p, m, move, PendingTicks(n, plan.stopLoss, d, m), Chosen(n, plan.stopLoss, d, m));
    TakeFitsIff(p, m);
  }

  /** Without a shift. */
  lemma PendingExecutableIff(plan: Plan, m: Market)
    requires Sound(m) && plan.orderMode.Instant? && plan.stopLoss > 0.0
    requires ChangeOrderMode(plan, m, Pending).Ok?
    ensures Executable(ChangeOrderMode(plan, m, Pending).value, m) <==> TakeReaches(plan, m)
  {
    RoomIsThreeTicks(m);
    PendingSurvivesShift(plan, m, 0.0);
    assert Shifted(m, 0.0) == m;
  }

  /** The take profit of an executable market plan always reaches past a limit entry. */
  lemma LimitKeepsTake(plan: Plan, m: Market)
    requires Sound(m) && plan.orderMode.Instant? && Executable(plan, m)
    requires ChangeOrderMode(plan, m, Pending).Ok?
    requires Chosen(Nearest(Quote(plan.direction, m), m), plan.stopLoss, plan.direction, m).Limit?
    ensures TakeReaches(plan, m)
    ensures Executable(ChangeOrderMode(plan, m, Pending).value, m)
  {
    var d := plan.direction;
    var n := Nearest(Quote(d, m), m);
    ReferenceTicks(d, m);
    LegGapBounds(m);
    ValidatesIff(plan, m, Reference(d, m));
    PendingEntryKeepsLegs(n, plan.stopLoss, d, m);
    PendingExecutableIff(plan, m);
  }

  lemma CoarseTakeIsPassed(plan: Plan, price: int)
    requires plan.direction.Long? && plan.orderMode.Instant? && price > 100
    requires plan.stopLoss == (price - 100) as real && plan.takeProfit == (price + 2) as real
    ensures var m := FreshPlans.CoarseMarket(price, false); Executable(plan, m) && !TakeReaches(plan, m)
  {
    var m := FreshPlans.CoarseMarket(price, false);
    FreshPlans.CoarseMarketIsSound(price, false, Long);
    FreshPlans.CoarseReach(8, price, false);
    ValidatesIff(plan, m, price as real);
    assert At(price + 8, m) == (price + 8) as real;
  }

  /** An executable market plan that a switch to pending makes inexecutable: stop orders only, the take profit two
      ticks above the quote, the new entry eight. */
  lemma StopMayPassTake(plan: Plan, price: int)
    requires plan.direction.Long? && plan.orderMode.Instant? && price > 100
    requires plan.stopLoss == (price - 100) as real && plan.takeProfit == (price + 2) as real
    ensures var m := FreshPlans.CoarseMarket(price, false);
      && Executable(plan, m) && ChangeOrderMode(plan, m, Pending).Ok?
      && !Executable(ChangeOrderMode(plan, m, Pending).value, m)
  {
    FreshPlans.CoarseMarketIsSound(price, false, Long);
    CoarseTakeIsPassed(plan, price);
    PendingRefusedIff(plan, FreshPlans.CoarseMarket(price, false));
    PendingExecutableIff(plan, FreshPlans.CoarseMarket(price, false));
  }

  /** When a switch to pending is refused, besides bad quotes: no limit entry fits, and no stop entry stays positive. */
  lemma PendingRefusedIff(plan: Plan, m: Market)
    requires Sound(m) && plan.orderMode.Instant?
    ensures var d, n := plan.direction, Nearest(Quote(plan.direction, m), m);
      ChangeOrderMode(plan, m, Pending).Err?
      <==> !(m.allowLimit && LimitFits(n, plan.stopLoss, d, m))
           && !(m.allowStop && Moved(n, ProfitSign(d), Reach(StopRequired(At(n, m), plan.stopLoss, d, m), m)) > 0)
    ensures plan.direction.Long? && m.allowStop ==> ChangeOrderMode(plan, m, Pending).Ok?
  {
    var d, n := plan.direction, Nearest(Quote(plan.direction, m), m);
    ReferenceTicks(d, m);
    LimitEntryIff(n, plan.stopLoss, d, m);
    StopEntryKeepsLegs(n, plan.stopLoss, d, m);
    ReachCovers(StopRequired(At(n, m), plan.stopLoss, d, m), m);
  }

  /** A fresh long plan on the default market may be made pending, and survives a move of the quotes by eight ticks
      either way. */
  lemma DefaultsMayBecomePending(plan: Plan, v: View, move: real)
    requires plan.direction.Long? && plan.orderMode.Instant? && plan.takeProfit <= 0.0 && v.chartHeight == 0
    requires -0.00008 <= move <= 0.00008
    ensures var m := FreshPlans.DefaultMarket();
      var planned := BuildFreshPlan(plan, m, v);
      && planned.Ok? && ChangeOrderMode(planned.value, m, Pending).Ok?
      && Executable(ChangeOrderMode(planned.value, m, Pending).value, Shifted(m, move))
  {
    var m := FreshPlans.DefaultMarket();
    FreshPlans.DefaultMarketIsSound();
    FreshPlans.DefaultsHaveFreshPlans(plan, v);
    FreshPlans.FreshPlanExists(plan, m, v);
    var p := BuildFreshPlan(plan, m, v).value;
    PendingRefusedIff(p, m);
    PendingSurvivesShift(p, m, move);
  }
}
