/** When order resolution and price validation accept the prices of a plan. */
module Execution {
  import opened Wrappers
  import opened Decimals
  import opened Prices
  import opened PlanGeometry

  /** A valid, uncrossed market with positive quotes on a tick lattice. */
  ghost predicate Sound(m: Market) {
    Lattice(m) && m.valid && 0.0 < m.bid <= m.ask
  }

  /** The quote a direction trades at. */
  function Quote(d: Direction, m: Market): real { if d.Long? then m.ask else m.bid }

  predicate Supported(mode: OrderMode, m: Market) {
    mode.Pending? ==> m.allowLimit || m.allowStop
  }

  /** The plan resolves to an order and its prices pass validation. */
  predicate Executable(plan: Plan, m: Market) {
    var order := ResolveOrder(plan, m);
    order.Ok? && ValidatePrices(plan, m, order.value.1).None?
  }

  // A limit order waits for a better price, a stop order for a worse one.
  datatype Subtype = Limit | Stop

  function PendingType(d: Direction, subtype: Subtype): OrderType {
    match (d, subtype)
    case (Long, Limit) => BuyLimit
    case (Long, Stop) => BuyStop
    case (Short, Limit) => SellLimit
    case (Short, Stop) => SellStop
  }

  predicate Allows(m: Market, subtype: Subtype) {
    match subtype
    case Limit => m.allowLimit
    case Stop => m.allowStop
  }

  /** +1 when the entry of a subtype lies above the quote. */
  function Side(d: Direction, subtype: Subtype): int {
    if subtype.Stop? then ProfitSign(d) else -ProfitSign(d)
  }

  /** How far x lies beyond y on one side. */
  function Beyond(x: real, y: real, side: int): real { if side >= 0 then x - y else y - x }

  lemma LegGapBounds(m: Market)
    requires Lattice(m)
    ensures LegGap(m) >= Protective(m) + 4.0 * m.tickSize
    ensures LegGap(m) >= At(8, m)
    ensures m.ask >= m.bid ==> LegGap(m) >= 2.0 * (m.ask - m.bid)
    ensures Protective(m) >= m.tickSize
  {
  }

  /** The reference is a non-negative number of ticks, at most half a tick from the quote. */
  lemma ReferenceTicks(d: Direction, m: Market)
    requires Lattice(m) && Quote(d, m) > 0.0
    ensures Nearest(Quote(d, m), m) >= 0
    ensures Reference(d, m) == At(Nearest(Quote(d, m), m), m)
    ensures -0.5 * m.tickSize < Reference(d, m) - Quote(d, m) <= 0.5 * m.tickSize
  {
    NormalizeNear(Quote(d, m), m);
    var n := Nearest(Quote(d, m), m);
    if n < 0 {
      AtOrder(n, -1, m);
      AtAdds(1, 0, m);
    }
  }

  /** An entry on the lattice, past half a tick and the protective distance, resolves to the subtype of its side,
      if the market allows that subtype. */
  lemma PendingResolves(plan: Plan, m: Market, ticks: int, subtype: Subtype)
    requires Sound(m) && plan.orderMode.Pending? && ticks > 0 && plan.entry == At(ticks, m)
    requires Beyond(plan.entry, Quote(plan.direction, m), Side(plan.direction, subtype)) > m.tickSize * 0.5
    requires Beyond(plan.entry, Quote(plan.direction, m), Side(plan.direction, subtype)) + TINY >= Protective(m)
    ensures ResolveOrder(plan, m).Ok? <==> Allows(m, subtype)
    ensures Allows(m, subtype) ==> ResolveOrder(plan, m).value == (PendingType(plan.direction, subtype), plan.entry)
  {
    NormalizeAt(ticks, m);
    AtSign(ticks, m);
  }

  /** The take profit is far enough beyond the entry of a pending order. */
  predicate TakeFits(plan: Plan, m: Market) {
    plan.takeProfit > 0.0 ==>
      var beyond := Beyond(plan.takeProfit, plan.entry, ProfitSign(plan.direction));
      beyond > m.tickSize * 0.5 && beyond + TINY >= Protective(m)
  }

  /** Prices of a pending plan whose stop is a leg gap from its entry: only the take profit can be refused. */
  lemma PendingPricesFit(plan: Plan, m: Market)
    requires Lattice(m) && plan.orderMode.Pending? && plan.stopLoss > 0.0
    requires Beyond(plan.entry, plan.stopLoss, ProfitSign(plan.direction)) + TINY >= LegGap(m)
    ensures ValidatePrices(plan, m, plan.entry).None? <==> TakeFits(plan, m)
  {
    LegGapBounds(m);
  }

  /** A pending plan with its entry far from the quote and its stop a leg gap away: resolved to the subtype of
      its side, and executable exactly when its take profit fits. */
  lemma PendingExecutable(plan: Plan, m: Market, ticks: int, subtype: Subtype)
    requires Sound(m) && plan.orderMode.Pending? && ticks > 0 && plan.entry == At(ticks, m) && Allows(m, subtype)
    requires Beyond(plan.entry, Quote(plan.direction, m), Side(plan.direction, subtype)) > m.tickSize * 0.5
    requires Beyond(plan.entry, Quote(plan.direction, m), Side(plan.direction, subtype)) + TINY >= Protective(m)
    requires plan.stopLoss > 0.0 && Beyond(plan.entry, plan.stopLoss, ProfitSign(plan.direction)) + TINY >= LegGap(m)
    ensures ResolveOrder(plan, m) == Ok((PendingType(plan.direction, subtype), plan.entry))
    ensures Executable(plan, m) <==> TakeFits(plan, m)
  {
    PendingResolves(plan, m, ticks, subtype);
    PendingPricesFit(plan, m);
  }

  /** Prices of a market order with its levels three leg gaps away. */
  lemma InstantPricesFit(plan: Plan, m: Market)
    requires Sound(m) && plan.orderMode.Instant? && plan.stopLoss > 0.0
    requires plan.entry == Reference(plan.direction, m)
    requires Beyond(plan.entry, plan.stopLoss, ProfitSign(plan.direction)) + TINY >= 3.0 * LegGap(m)
    requires plan.takeProfit > 0.0
             ==> Beyond(plan.takeProfit, plan.entry, ProfitSign(plan.direction)) + TINY >= 3.0 * LegGap(m)
    ensures Executable(plan, m)
  {
    LegGapBounds(m);
    ReferenceTicks(plan.direction, m);
    assert At(8, m) == 8.0 * m.tickSize;
  }

  // ---- exactly when ----

  /** A pending entry lies clear of the quote on the side of a subtype. */
  predicate Clear(entry: real, d: Direction, subtype: Subtype, m: Market) {
    && Beyond(entry, Quote(d, m), Side(d, subtype)) > m.tickSize * 0.5
    && Beyond(entry, Quote(d, m), Side(d, subtype)) + TINY >= Protective(m)
  }

  /** Resolution accepts exactly the positive entries that lie clear of the quote on the side of an allowed subtype,
      and answers that subtype; no entry is clear on both sides. */
  lemma ResolvesIff(plan: Plan, m: Market, subtype: Subtype)
    requires m.tickSize > 0.0
    ensures var entry := Normalize(plan.entry, m);
      plan.orderMode.Pending? ==>
        (ResolveOrder(plan, m) == Ok((PendingType(plan.direction, subtype), entry))
         <==> m.valid && 0.0 < m.bid <= m.ask && entry > 0.0
              && Clear(entry, plan.direction, subtype, m) && Allows(m, subtype))
    ensures plan.orderMode.Pending? && ResolveOrder(plan, m).Ok? ==>
      ResolveOrder(plan, m).value.0 in {PendingType(plan.direction, Limit), PendingType(plan.direction, Stop)}
      && ResolveOrder(plan, m).value.1 == Normalize(plan.entry, m)
    ensures plan.orderMode.Instant? ==>
      (ResolveOrder(plan, m).Ok? <==> m.valid && 0.0 < m.bid <= m.ask)
      && (ResolveOrder(plan, m).Ok? ==>
            && ResolveOrder(plan, m).value.0 == (if plan.direction.Long? then Buy else Sell)
            && ResolveOrder(plan, m).value.1 == Reference(plan.direction, m))
  {
  }

  /** What the broker measures the levels from: a pending order's entry, or the quote a position closes at. */
  function Anchor(plan: Plan, m: Market, entry: real): real {
    if plan.orderMode.Pending? then entry else if plan.direction.Long? then m.bid else m.ask
  }

  /** A level lies past the entry by more than half a tick, and from the anchor by the protective distance. */
  predicate LevelFits(plan: Plan, m: Market, entry: real, price: real, side: int) {
    && Beyond(price, entry, side) > m.tickSize * 0.5
    && Beyond(price, Anchor(plan, m, entry), side) + TINY >= Protective(m)
  }

  /** Validation passes exactly when the stop is positive and fits on the losing side and the take profit, if there is
      one, fits on the winning side. */
  lemma ValidatesIff(plan: Plan, m: Market, entry: real)
    ensures ValidatePrices(plan, m, entry).None?
            <==> plan.stopLoss > 0.0
                 && LevelFits(plan, m, entry, plan.stopLoss, -ProfitSign(plan.direction))
                 && (plan.takeProfit > 0.0 ==> LevelFits(plan, m, entry, plan.takeProfit, ProfitSign(plan.direction)))
  {
  }
}
