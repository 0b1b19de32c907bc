/** Price planning: tick rounding, outward prices, pending-order geometry, order resolution and price
    validation, in exact real arithmetic. */
module Prices {
  import opened Wrappers
  import opened Decimals

  datatype Direction = Long | Short

  datatype OrderMode = Instant | Pending

  datatype AccountMode = Equity | Balance | Manual

  datatype RiskAuthority = Percent | Money

  datatype CommissionMode = OneSide | RoundTrip

  datatype OrderType = Buy | Sell | BuyLimit | BuyStop | SellLimit | SellStop

  datatype Market = Market(
    bid: real,
    ask: real,
    point: real,
    tickSize: real,
    digits: nat,
    volumeMin: real,
    volumeMax: real,
    volumeStep: real,
    volumeLimit: real,
    exposureLong: real,
    exposureShort: real,
    stopsLevelPoints: int,
    freezeLevelPoints: int,
    equity: real,
    balance: real,
    oneLotPriceLoss: real,
    valid: bool,
    allowLimit: bool,
    allowStop: bool)

  datatype Plan = Plan(
    direction: Direction,
    orderMode: OrderMode,
    accountMode: AccountMode,
    riskAuthority: RiskAuthority,
    commissionMode: CommissionMode,
    entry: real,
    stopLoss: real,
    takeProfit: real,
    manualAccountMoney: real,
    requestedRiskPercent: real,
    requestedRiskMoney: real,
    commissionPerLot: real,
    revision: int)

  // The slack of every price comparison, in price units.
  const TINY: real := 0.000000000001

  /** The price of n ticks. */
  function At(n: int, m: Market): real { n as real * m.tickSize }

  function Protective(m: Market): real {
    Max(MaxInt(m.stopsLevelPoints, m.freezeLevelPoints) as real * m.point, m.tickSize)
  }

  /** The nearest tick, halves upward. */
  function Nearest(price: real, m: Market): int
    requires m.tickSize > 0.0
  {
    (price / m.tickSize + 0.5).Floor
  }

  function Normalize(price: real, m: Market): real {
    if m.tickSize <= 0.0 then 0.0 else Round(At(Nearest(price, m), m), m.digits)
  }

  function DefaultLevelDistance(reference: real, m: Market): real {
    Max(Max(Protective(m) + m.tickSize, 100.0 * m.tickSize), Abs(reference) * 0.002)
  }

  function LegGap(m: Market): real {
    var spread := Max(0.0, m.ask - m.bid);
    Max(Max(Protective(m) + 4.0 * m.tickSize, 8.0 * m.tickSize), 2.0 * spread)
  }

  /** The ticks that cover a distance, at least one. */
  function TicksFor(distance: real, m: Market): int
    requires m.tickSize > 0.0
  {
    MaxInt(1, Ceil(distance / m.tickSize - TINY))
  }

  function Candidate(reference: real, sign: int, ticks: int, m: Market): real {
    Normalize(reference + At(sign * ticks, m), m)
  }

  predicate FarEnough(candidate: real, reference: real, distance: real, sign: int) {
    candidate > 0.0 && sign as real * (candidate - reference) + TINY >= distance
  }

  /** The first of `attempts` candidates, each one tick further away, that is far enough. */
  function OutwardFrom(reference: real, distance: real, sign: int, ticks: int, attempts: nat, m: Market): Option<real>
    decreases attempts
  {
    if attempts == 0 then None
    else if FarEnough(Candidate(reference, sign, ticks, m), reference, distance, sign) then
      Some(Candidate(reference, sign, ticks, m))
    else OutwardFrom(reference, distance, sign, ticks + 1, attempts - 1, m)
  }

  function Outward(reference: real, distance: real, sign: int, m: Market): Result<real>
    requires m.tickSize > 0.0
  {
    var price := OutwardFrom(reference, distance, sign, TicksFor(distance, m), 4, m);
    if price.Some? then Ok(price.value) else Err("outward price unavailable")
  }

  /** outward_price: the loop. */
  method OutwardPrice(reference: real, distance: real, sign: int, m: Market) returns (r: Result<real>)
    requires m.tickSize > 0.0
    ensures r == Outward(reference, distance, sign, m)
  {
    var ticks := TicksFor(distance, m);
    var attempts: nat := 4;
    ghost var whole := OutwardFrom(reference, distance, sign, ticks, attempts, m);
    while attempts > 0
      invariant OutwardFrom(reference, distance, sign, ticks, attempts, m) == whole
    {
      var candidate := Candidate(reference, sign, ticks, m);
      if FarEnough(candidate, reference, distance, sign) {
        return Ok(candidate);
      }
      ticks, attempts := ticks + 1, attempts - 1;
    }
    r := Err("outward price unavailable");
  }

  /** The visible price range of the chart and its height in pixels. */
  datatype View = View(visibleMin: Option<real>, visibleMax: Option<real>, chartHeight: int)

  predicate Coherent(v: View, reference: real) {
    && v.chartHeight > 0 && v.visibleMin.Some? && v.visibleMax.Some?
    && v.visibleMin.value <= reference <= v.visibleMax.value
    && v.visibleMax.value > v.visibleMin.value
  }

  /** The price height of 34 pixels. */
  function Visual(v: View): real
    requires v.chartHeight > 0 && v.visibleMin.Some? && v.visibleMax.Some?
  {
    (v.visibleMax.value - v.visibleMin.value) * 34.0 / v.chartHeight as real
  }

  function RequiredFreshGap(reference: real, m: Market, v: View, pending: bool): real {
    var gap := Max(DefaultLevelDistance(reference, m), 3.0 * LegGap(m));
    if Coherent(v, reference) then Max(gap, if pending then Visual(v) / 0.60 else Visual(v)) else gap
  }

  /** +1 for a price on the profit side of a direction, -1 for the stop side. */
  function ProfitSign(d: Direction): int { if d.Long? then 1 else -1 }

  /** The ticks between the reference and a limit entry, when there is room for one. */
  function LimitTicks(available: real, m: Market): Option<int>
    requires m.tickSize > 0.0
  {
    var minimum := TicksFor(LegGap(m), m);
    var room := (available / m.tickSize + TINY).Floor;
    if room - minimum < minimum then None
    else Some(MinInt(room - minimum, MaxInt(minimum, Ceil(room as real * 0.40 - TINY))))
  }

  function LimitEntry(reference: real, stop: real, d: Direction, m: Market): Result<real>
    requires m.tickSize > 0.0
  {
    var leg := LegGap(m);
    var target := LimitTicks(Abs(reference - stop), m);
    if target.None? then Err("limit geometry unavailable")
    else
      var sign := -ProfitSign(d);
      var entry := Candidate(reference, sign, target.value, m);
      var quoteLeg := if d.Long? then reference - entry else entry - reference;
      var stopLeg := if d.Long? then entry - stop else stop - entry;
      if quoteLeg + TINY < leg || stopLeg + TINY < leg then Err("limit geometry unavailable") else Ok(entry)
  }

  function StopEntry(reference: real, stop: real, d: Direction, m: Market): Result<real>
    requires m.tickSize > 0.0
  {
    var leg := LegGap(m);
    if d.Long? then Outward(reference, Max(leg, stop - reference + leg), 1, m)
    else Outward(reference, Max(leg, reference - stop + leg), -1, m)
  }

  function Reference(d: Direction, m: Market): real {
    Normalize(if d.Long? then m.ask else m.bid, m)
  }

  /** The entry of a fresh plan. */
  function FreshEntry(d: Direction, mode: OrderMode, reference: real, stop: real, m: Market): Result<real>
    requires m.tickSize > 0.0
  {
    if mode.Instant? then Ok(reference)
    else
      var limit := if m.allowLimit then LimitEntry(reference, stop, d, m) else Err("limit not allowed");
      if limit.Ok? then limit
      else if m.allowStop then StopEntry(reference, stop, d, m)
      else Outward(reference, LegGap(m), -ProfitSign(d), m)
  }

  /** The take profit of a fresh plan, when it has one, and the plan with all its prices. */
  function FreshTake(plan: Plan, entry: real, stop: real, gap: real, m: Market): Result<Plan>
    requires m.tickSize > 0.0
  {
    var take := if plan.takeProfit > 0.0 then Outward(entry, gap, ProfitSign(plan.direction), m) else Ok(0.0);
    if take.Err? then Err(take.message)
    else Ok(plan.(entry := entry, stopLoss := stop, takeProfit := take.value, revision := plan.revision + 1))
  }

  /** Entry and take profit for a stop. */
  function FreshFromStop(plan: Plan, reference: real, stop: real, gap: real, m: Market): Result<Plan>
    requires m.tickSize > 0.0
  {
    var entry := FreshEntry(plan.direction, plan.orderMode, reference, stop, m);
    if entry.Err? then Err(entry.message) else FreshTake(plan, entry.value, stop, gap, m)
  }

  /** Stop, entry and take profit around a reference. */
  function FreshLevels(plan: Plan, reference: real, gap: real, m: Market): Result<Plan>
    requires m.tickSize > 0.0
  {
    var stop := Outward(reference, gap, -ProfitSign(plan.direction), m);
    if stop.Err? then Err(stop.message) else FreshFromStop(plan, reference, stop.value, gap, m)
  }

  /** build_fresh_symbol_plan. */
  function BuildFreshPlan(plan: Plan, m: Market, v: View): Result<Plan> {
    if !m.valid || m.ask <= 0.0 || m.bid <= 0.0 || m.tickSize <= 0.0 then Err("quote invalid")
    else
      var reference := Reference(plan.direction, m);
      FreshLevels(plan, reference, RequiredFreshGap(reference, m, v, plan.orderMode.Pending?), m)
  }

  /** The entry of a plan that becomes pending. */
  function PendingEntry(reference: real, stop: real, d: Direction, m: Market): Result<real>
    requires m.tickSize > 0.0
  {
    if m.allowLimit then
      var limit := LimitEntry(reference, stop, d, m);
      if limit.Ok? || !m.allowStop then limit else StopEntry(reference, stop, d, m)
    else if m.allowStop then StopEntry(reference, stop, d, m)
    else Err("pending subtype unsupported")
  }

  /** change_order_mode. */
  function ChangeOrderMode(plan: Plan, m: Market, mode: OrderMode): Result<Plan> {
    if plan.orderMode == mode then Ok(plan)
    else if m.ask <= 0.0 || m.bid <= 0.0 || m.tickSize <= 0.0 then Err("quote invalid")
    else
      var reference := Reference(plan.direction, m);
      var entry := if mode.Pending? then PendingEntry(reference, plan.stopLoss, plan.direction, m) else Ok(reference);
      if entry.Err? then Err(entry.message)
      else Ok(plan.(orderMode := mode, entry := entry.value, revision := plan.revision + 1))
  }

  /** resolve_order: the order type and the effective entry. */
  function ResolveOrder(plan: Plan, m: Market): Result<(OrderType, real)> {
    if !m.valid || m.bid <= 0.0 || m.ask <= 0.0 then Err("quote invalid")
    else if m.ask < m.bid then Err("crossed quote")
    else if plan.orderMode.Instant? then
      Ok((if plan.direction.Long? then Buy else Sell, Reference(plan.direction, m)))
    else
      var entry := Normalize(plan.entry, m);
      var tolerance, minimum := m.tickSize * 0.5, Protective(m);
      if entry <= 0.0 then Err("pending entry invalid")
      else if plan.direction.Long? then
        if entry < m.ask - tolerance then
          if m.ask - entry + TINY < minimum then Err("buy limit inside broker distance")
          else if !m.allowLimit then Err("buy limit unsupported")
          else Ok((BuyLimit, entry))
        else if entry > m.ask + tolerance then
          if entry - m.ask + TINY < minimum then Err("buy stop inside broker distance")
          else if !m.allowStop then Err("buy stop unsupported")
          else Ok((BuyStop, entry))
        else Err("long pending ambiguous")
      else if entry > m.bid + tolerance then
        if entry - m.bid + TINY < minimum then Err("sell limit inside broker distance")
        else if !m.allowLimit then Err("sell limit unsupported")
        else Ok((SellLimit, entry))
      else if entry < m.bid - tolerance then
        if m.bid - entry + TINY < minimum then Err("sell stop inside broker distance")
        else if !m.allowStop then Err("sell stop unsupported")
        else Ok((SellStop, entry))
      else Err("short pending ambiguous")
  }

  /** _validate_prices; None means that it raises nothing. */
  function ValidatePrices(plan: Plan, m: Market, entry: real): Option<string> {
    var stop, take := plan.stopLoss, plan.takeProfit;
    var tp := take > 0.0;
    var tolerance, minimum := m.tickSize * 0.5, Protective(m);
    var long := plan.direction.Long?;
    if stop <= 0.0 then Some("stop invalid")
    else if long && stop >= entry - tolerance then Some("long stop crossed")
    else if long && tp && take <= entry + tolerance then Some("long take crossed")
    else if !long && stop <= entry + tolerance then Some("short stop crossed")
    else if !long && tp && take >= entry - tolerance then Some("short take crossed")
    else if plan.orderMode.Pending? then
      if (if long then entry - stop else stop - entry) + TINY < minimum then Some("pending stop inside broker distance")
      else if tp && (if long then take - entry else entry - take) + TINY < minimum then
        Some("pending take inside broker distance")
      else None
    else if long then
      if m.bid - stop + TINY < minimum then Some("long stop inside bid distance")
      else if tp && take - m.bid + TINY < minimum then Some("long take inside bid distance")
      else None
    else
      if stop - m.ask + TINY < minimum then Some("short stop inside ask distance")
      else if tp && m.ask - take + TINY < minimum then Some("short take inside ask distance")
      else None
  }
}
