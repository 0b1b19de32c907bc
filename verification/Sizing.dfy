/** calculate: the position size for a requested risk. */
module Sizing {
  import opened Wrappers
  import opened Decimals
  import opened Prices
  import opened Execution
  import opened Volume

  datatype Size = Size(
    orderType: OrderType,
    entry: real,
    basis: real,
    requestedMoney: real,
    requestedPercent: real,
    oneLotRisk: real,
    rawVolume: real,
    volume: real,
    actualMoney: real,
    actualPercent: real,
    capped: bool,
    raised: bool)

  // The absolute and the relative slack of a money comparison.
  const MONEY: real := 0.000000001
  const MONEY_SHARE: real := 0.000000000001

  function Tolerance(money: real): real { Max(MONEY, Abs(money) * MONEY_SHARE) }

  function Basis(plan: Plan, m: Market): real {
    match plan.accountMode
    case Equity => m.equity
    case Balance => m.balance
    case Manual => plan.manualAccountMoney
  }

  /** The risk the user asked for, as entered. */
  function Requested(plan: Plan): real {
    if plan.riskAuthority.Percent? then plan.requestedRiskPercent else plan.requestedRiskMoney
  }

  /** The requested risk in money, and as a percentage of the basis. */
  function Request(plan: Plan, basis: real): (real, real)
    requires basis > 0.0
  {
    if plan.riskAuthority.Percent? then (basis * plan.requestedRiskPercent / 100.0, plan.requestedRiskPercent)
    else (plan.requestedRiskMoney, plan.requestedRiskMoney / basis * 100.0)
  }

  function OneLotRisk(plan: Plan, m: Market): real {
    m.oneLotPriceLoss + plan.commissionPerLot * (if plan.commissionMode.OneSide? then 2.0 else 1.0)
  }

  /** The broker maximum, or what the symbol limit leaves of it. */
  function Cap(plan: Plan, m: Market): real {
    var exposure := if plan.direction.Long? then m.exposureLong else m.exposureShort;
    if m.volumeLimit > 0.0 then Min(m.volumeMax, Max(0.0, m.volumeLimit - exposure)) else m.volumeMax
  }

  predicate BrokerConstraints(m: Market) {
    && m.valid && m.tickSize > 0.0 && m.point > 0.0
    && m.volumeMin > 0.0 && m.volumeMax > 0.0 && m.volumeStep > 0.0 && m.volumeMax >= m.volumeMin
  }

  /** Everything that is checked before a volume is chosen. */
  predicate Accepts(plan: Plan, m: Market) {
    && BrokerConstraints(m) && Basis(plan, m) > 0.0 && Requested(plan) > 0.0
    && Executable(plan, m)
    && plan.commissionPerLot >= 0.0 && m.oneLotPriceLoss > 0.0
    && Cap(plan, m) + Epsilon(m.volumeStep) >= m.volumeMin
  }

  /** The money a volume risks. */
  function Risk(lot: real, v: real): real { lot * v }

  /** The requested risk does not reach the minimum volume. */
  predicate Raised(money: real, lot: real, minimum: real, step: real)
    requires lot > 0.0
  {
    money / lot + Epsilon(step) < minimum
  }

  /** The minimum volume fits below the cap and within the requested risk. */
  predicate Affordable(money: real, lot: real, minimum: real, cap: real) {
    cap >= minimum && Risk(lot, minimum) <= money + Tolerance(money)
  }

  /** A lattice volume within cap and risk; every greater one within the cap risks more than was requested. */
  ghost predicate Best(v: real, money: real, lot: real, minimum: real, cap: real, step: real) {
    && minimum <= v <= cap + Epsilon(step)
    && (exists k: nat :: v == Lots(minimum, step, k))
    && Risk(lot, v) <= money + Tolerance(money)
    && forall k :: v < Lots(minimum, step, k) <= cap + Epsilon(step) ==> Risk(lot, Lots(minimum, step, k)) > money
  }

  lemma EpsilonIsSmall(step: real)
    requires step > 0.0
    ensures 0.0 < Epsilon(step) < step
  {
  }

  lemma RiskOf(money: real, lot: real, v: real)
    requires lot > 0.0
    ensures v > money / lot <==> Risk(lot, v) > money
  {
    DivLe(money, v, lot);
  }

  lemma RiskOrder(lot: real, a: real, b: real)
    requires lot > 0.0 && a <= b
    ensures Risk(lot, a) <= Risk(lot, b)
  {
    MulLe(a, b, lot);
  }

  lemma ToleranceIsPositive(money: real)
    ensures Tolerance(money) > 0.0
  {
  }

  /** The volume one step below a lattice volume that fits is that lattice volume again, or 0 below the minimum. */
  lemma OneStepDown(requested: real, minimum: real, cap: real, step: real)
    requires Fits(requested, minimum, cap, step)
    ensures var k := Steps(requested, minimum, cap, step);
      Floored(Lots(minimum, step, k) - step, minimum, cap, step) == if k == 0 then 0.0 else Lots(minimum, step, k - 1)
  {
    var k := Steps(requested, minimum, cap, step);
    var below := Lots(minimum, step, k) - step;
    EpsilonIsSmall(step);
    StepsBracket(requested, minimum, cap, step);
    if k > 0 {
      assert below == Lots(minimum, step, k - 1);
      FlooredZeroIff(requested, minimum, cap, step);
      if k > 1 { LotsDiffer(minimum, step, 0, k - 1); }
      var j := Steps(below, minimum, cap, step);
      StepsBracket(below, minimum, cap, step);
      if j > k - 1 { LotsDiffer(minimum, step, k - 1, j); }
      if j < k - 1 { LotsDiffer(minimum, step, j, k - 1); }
    }
  }

  /** With room below the cap and a request that reaches the minimum, the request fits. */
  lemma RequestFits(money: real, lot: real, minimum: real, cap: real, step: real)
    requires money > 0.0 && lot > 0.0 && minimum > 0.0 && step > 0.0
    requires cap + Epsilon(step) >= minimum && !Raised(money, lot, minimum, step)
    ensures Fits(money / lot, minimum, cap, step) <==> cap >= minimum
  {
    DivLe(money, 0.0, lot);
    EpsilonIsSmall(step);
  }

  /** Every lattice volume above the first floor, within the cap, risks more than the request. */
  lemma AboveTheFloor(money: real, lot: real, minimum: real, cap: real, step: real, k: int)
    requires lot > 0.0 && Fits(money / lot, minimum, cap, step)
    requires Floored(money / lot, minimum, cap, step) < Lots(minimum, step, k) <= cap + Epsilon(step)
    ensures Risk(lot, Lots(minimum, step, k)) > money
  {
    EpsilonIsSmall(step);
    FlooredIsGreatest(money / lot, minimum, cap, step, k);
    RiskOf(money, lot, Lots(minimum, step, k));
  }

  /** The first floor is the best volume, if it is within the requested risk. */
  lemma FirstChance(money: real, lot: real, minimum: real, cap: real, step: real)
    requires lot > 0.0 && Fits(money / lot, minimum, cap, step)
    requires Risk(lot, Floored(money / lot, minimum, cap, step)) <= money + Tolerance(money)
    ensures Best(Floored(money / lot, minimum, cap, step), money, lot, minimum, cap, step)
    ensures Affordable(money, lot, minimum, cap)
  {
    var v := Floored(money / lot, minimum, cap, step);
    FlooredZeroIff(money / lot, minimum, cap, step);
    StepsBracket(money / lot, minimum, cap, step);
    RiskOrder(lot, minimum, v);
    forall k | v < Lots(minimum, step, k) <= cap + Epsilon(step)
      ensures Risk(lot, Lots(minimum, step, k)) > money
    {
      AboveTheFloor(money, lot, minimum, cap, step, k);
    }
  }

  /** Every lattice volume above the one a step below the k-th risks at least what the k-th does. */
  lemma AboveOneStepDown(lot: real, minimum: real, step: real, k: int, j: int)
    requires lot > 0.0 && step > 0.0 && Lots(minimum, step, k - 1) < Lots(minimum, step, j)
    ensures Risk(lot, Lots(minimum, step, j)) >= Risk(lot, Lots(minimum, step, k))
  {
    if j < k - 1 { LotsDiffer(minimum, step, j, k - 1); }
    if j > k { LotsDiffer(minimum, step, k, j); }
    RiskOrder(lot, Lots(minimum, step, k), Lots(minimum, step, j));
  }

  lemma LotsStep(minimum: real, step: real, k: int)
    ensures Lots(minimum, step, k - 1) == Lots(minimum, step, k) - step
    ensures Lots(minimum, step, 0) == minimum
    ensures step > 0.0 && k > 0 ==> Lots(minimum, step, k) > minimum
  {
    if step > 0.0 && k > 0 { LotsDiffer(minimum, step, 0, k); }
  }

  /** Otherwise the volume one step below is best, or the minimum itself risks too much. */
  lemma SecondChance(money: real, lot: real, minimum: real, cap: real, step: real)
    requires lot > 0.0 && Fits(money / lot, minimum, cap, step)
    requires Risk(lot, Floored(money / lot, minimum, cap, step)) > money + Tolerance(money)
    ensures var w := Floored(Floored(money / lot, minimum, cap, step) - step, minimum, cap, step);
      && (w > 0.0 <==> Affordable(money, lot, minimum, cap))
      && (w > 0.0 ==> Risk(lot, w) <= money && Best(w, money, lot, minimum, cap, step))
  {
    var raw := money / lot;
    var k := Steps(raw, minimum, cap, step);
    ToleranceIsPositive(money);
    EpsilonIsSmall(step);
    StepsBracket(raw, minimum, cap, step);
    OneStepDown(raw, minimum, cap, step);
    LotsStep(minimum, step, k);
    if k > 0 {
      var w := Lots(minimum, step, k - 1);
      LotsStep(minimum, step, k - 1);
      RiskOf(money, lot, w);
      RiskOrder(lot, minimum, w);
      forall j | w < Lots(minimum, step, j) <= cap + Epsilon(step)
        ensures Risk(lot, Lots(minimum, step, j)) > money
      {
        AboveOneStepDown(lot, minimum, step, k, j);
      }
    }
  }

  /** A volume raised to the minimum risks more than was requested. */
  lemma RaisedRisksMore(money: real, lot: real, minimum: real, step: real)
    requires lot > 0.0 && step > 0.0 && Raised(money, lot, minimum, step)
    ensures Risk(lot, minimum) > money
  {
    EpsilonIsSmall(step);
    RiskOf(money, lot, minimum);
  }

  /** What a size promises: the minimum, flagged and risking more than requested, or the best volume. */
  ghost predicate Keeps(size: Size, minimum: real, cap: real, step: real) {
    && size.oneLotRisk > 0.0
    && size.actualMoney == Risk(size.oneLotRisk, size.volume)
    && size.raised == Raised(size.requestedMoney, size.oneLotRisk, minimum, step)
    && size.capped == (size.rawVolume > cap + Epsilon(step))
    && minimum <= size.volume <= cap + Epsilon(step)
    && if size.raised then size.volume == minimum && size.actualMoney > size.requestedMoney
       else Best(size.volume, size.requestedMoney, size.oneLotRisk, minimum, cap, step)
  }

  /** The volume for a requested risk. */
  method ChooseVolume(money: real, lot: real, minimum: real, cap: real, step: real) returns (r: Result<real>)
    requires money > 0.0 && lot > 0.0 && minimum > 0.0 && step > 0.0 && Printable(minimum, step)
    requires cap + Epsilon(step) >= minimum
    ensures r.Ok? <==> Raised(money, lot, minimum, step) || Affordable(money, lot, minimum, cap)
    ensures r.Ok? && Raised(money, lot, minimum, step) ==> r.value == minimum && Risk(lot, minimum) > money
    ensures r.Ok? && !Raised(money, lot, minimum, step) ==> Best(r.value, money, lot, minimum, cap, step)
  {
    var raw := money / lot;
    var raised := raw + Epsilon(step) < minimum;
    if raised {
      RaisedRisksMore(money, lot, minimum, step);
      return Ok(minimum);
    }
    var volume := FloorVolume(raw, minimum, cap, step);
    RequestFits(money, lot, minimum, cap, step);
    FlooredZeroIff(raw, minimum, cap, step);
    if volume <= 0.0 { return Err("invalid volume"); }
    if Risk(lot, volume) <= money + Tolerance(money) {
      FirstChance(money, lot, minimum, cap, step);
      return Ok(volume);
    }
    SecondChance(money, lot, minimum, cap, step);
    volume := FloorVolume(volume - step, minimum, cap, step);
    if volume <= 0.0 { return Err("minimum exceeds requested risk"); }
    r := if Risk(lot, volume) > money + Tolerance(money) then Err("rounding proof failed") else Ok(volume);
  }

  // ---- what the numbers mean ----

  /** The numbers of a size, in the fields that the user and the broker supply. */
  ghost predicate Explained(size: Size, plan: Plan, m: Market) {
    // the account the percentages refer to
    && size.basis > 0.0
    && (plan.accountMode.Equity? ==> size.basis == m.equity)
    && (plan.accountMode.Balance? ==> size.basis == m.balance)
    && (plan.accountMode.Manual? ==> size.basis == plan.manualAccountMoney)
    // the entered number is the authority, the other one follows from it
    && (plan.riskAuthority.Percent? ==> size.requestedPercent == plan.requestedRiskPercent)
    && (plan.riskAuthority.Money? ==> size.requestedMoney == plan.requestedRiskMoney)
    && Times(size.basis, size.requestedPercent) == size.requestedMoney * 100.0
    && Times(size.basis, size.actualPercent) == size.actualMoney * 100.0
    // one lot loses the price distance and pays the commission, twice if it is quoted for one side
    && (plan.commissionMode.OneSide? ==>
          size.oneLotRisk == m.oneLotPriceLoss + plan.commissionPerLot + plan.commissionPerLot)
    && (plan.commissionMode.RoundTrip? ==> size.oneLotRisk == m.oneLotPriceLoss + plan.commissionPerLot)
    && Times(size.oneLotRisk, size.rawVolume) == size.requestedMoney
    && Times(size.oneLotRisk, size.volume) == size.actualMoney
  }

  /** A volume within the broker maximum that, together with what is open in its direction, is within the limit. */
  predicate Allowed(v: real, d: Direction, m: Market) {
    && v <= m.volumeMax + m.volumeStep * 0.000000001
    && (m.volumeLimit > 0.0 && d.Long? ==> v + m.exposureLong <= m.volumeLimit + m.volumeStep * 0.000000001)
    && (m.volumeLimit > 0.0 && d.Short? ==> v + m.exposureShort <= m.volumeLimit + m.volumeStep * 0.000000001)
  }

  /** A volume of the broker's lattice, allowed, and either the forced minimum, which risks more than was requested,
      or within the request up to the slack, when every greater allowed volume of the lattice risks more. */
  ghost predicate Promised(size: Size, d: Direction, m: Market) {
    && m.volumeMin <= size.volume && Allowed(size.volume, d, m)
    && (exists k: nat :: size.volume == Lots(m.volumeMin, m.volumeStep, k))
    && (size.raised <==> size.rawVolume + m.volumeStep * 0.000000001 < m.volumeMin)
    && (size.capped <==> !Allowed(size.rawVolume, d, m))
    && (size.raised ==> size.volume == m.volumeMin && size.actualMoney > size.requestedMoney)
    && (!size.raised ==>
          && size.actualMoney <= size.requestedMoney + Max(0.000000001, size.requestedMoney * 0.000000000001)
          && forall k :: Lots(m.volumeMin, m.volumeStep, k) > size.volume
                         && Allowed(Lots(m.volumeMin, m.volumeStep, k), d, m)
                         ==> Times(size.oneLotRisk, Lots(m.volumeMin, m.volumeStep, k)) > size.requestedMoney)
  }

  lemma ShareOf(whole: real, part: real)
    requires whole > 0.0
    ensures Times(whole, part / whole * 100.0) == part * 100.0
    ensures Times(whole, part / whole) == part
  {
    var q := part / whole;
    assert q * whole == part;
    assert Times(whole, q * 100.0) == q * whole * 100.0;
  }

  lemma PercentOf(whole: real, percent: real)
    ensures Times(whole, percent) == whole * percent / 100.0 * 100.0
  {
  }

  /** The request, for both authorities. */
  lemma RequestMeans(plan: Plan, basis: real)
    requires basis > 0.0
    ensures Times(basis, Request(plan, basis).1) == Request(plan, basis).0 * 100.0
  {
    if plan.riskAuthority.Percent? {
      PercentOf(basis, plan.requestedRiskPercent);
    } else {
      ShareOf(basis, plan.requestedRiskMoney);
    }
  }

  lemma WholeAndPositive(units: real)
    requires units > 0.0 && units.Floor as real == units
    ensures units >= 1.0
  {
  }

  /** At least one unit exceeds less than half a unit. */
  lemma UnitExceeds(x: real, slack: real, digits: nat)
    requires x > 0.0 && OnGrid(x, digits) && Units(slack, digits) < 0.5
    ensures x > slack
  {
    MulLt(0.0, x, Pow10(digits));
    WholeAndPositive(Units(x, digits));
    if x <= slack {
      UnitsOrder(x, slack, digits);
    }
  }

  lemma MinimumExceedsSlack(minimum: real, step: real)
    requires minimum > 0.0 && Printable(minimum, step)
    ensures minimum > Epsilon(step)
  {
    UnitExceeds(minimum, Epsilon(step), StepDigits(step));
  }

  /** The cap is the greatest allowed volume, as far as volumes from the minimum on are concerned. */
  lemma CapMeans(v: real, plan: Plan, m: Market)
    requires m.volumeMin > 0.0 && m.volumeStep > 0.0 && Printable(m.volumeMin, m.volumeStep)
    requires v >= m.volumeMin || Cap(plan, m) + Epsilon(m.volumeStep) >= m.volumeMin
    ensures v <= Cap(plan, m) + Epsilon(m.volumeStep) <==> Allowed(v, plan.direction, m)
  {
    MinimumExceedsSlack(m.volumeMin, m.volumeStep);
  }

  lemma BestIsPromised(size: Size, plan: Plan, m: Market)
    requires BrokerConstraints(m) && Printable(m.volumeMin, m.volumeStep) && size.requestedMoney > 0.0
    requires Cap(plan, m) + Epsilon(m.volumeStep) >= m.volumeMin
    requires Keeps(size, m.volumeMin, Cap(plan, m), m.volumeStep)
    requires size.rawVolume == size.requestedMoney / size.oneLotRisk
    ensures Promised(size, plan.direction, m)
  {
    CapMeans(size.volume, plan, m);
    CapMeans(size.rawVolume, plan, m);
    if size.raised {
      assert size.volume == Lots(m.volumeMin, m.volumeStep, 0);
    } else {
      forall k | Lots(m.volumeMin, m.volumeStep, k) > size.volume
                 && Allowed(Lots(m.volumeMin, m.volumeStep, k), plan.direction, m)
        ensures Times(size.oneLotRisk, Lots(m.volumeMin, m.volumeStep, k)) > size.requestedMoney
      {
        CapMeans(Lots(m.volumeMin, m.volumeStep, k), plan, m);
        assert Times(size.oneLotRisk, Lots(m.volumeMin, m.volumeStep, k))
            == Risk(size.oneLotRisk, Lots(m.volumeMin, m.volumeStep, k));
      }
    }
  }

  lemma SizeIsExplained(size: Size, plan: Plan, m: Market)
    requires Basis(plan, m) > 0.0 && OneLotRisk(plan, m) > 0.0
    requires size.basis == Basis(plan, m) && size.oneLotRisk == OneLotRisk(plan, m)
    requires (size.requestedMoney, size.requestedPercent) == Request(plan, size.basis)
    requires size.rawVolume == size.requestedMoney / size.oneLotRisk
    requires size.actualMoney == Risk(size.oneLotRisk, size.volume)
    requires size.actualPercent == size.actualMoney / size.basis * 100.0
    ensures Explained(size, plan, m)
  {
    RequestMeans(plan, size.basis);
    ShareOf(size.basis, size.actualMoney);
    ShareOf(size.oneLotRisk, size.requestedMoney);
  }

  lemma RequestIsPositive(plan: Plan, basis: real)
    requires basis > 0.0 && Requested(plan) > 0.0
    ensures Request(plan, basis).0 > 0.0
  {
    if plan.riskAuthority.Percent? {
      MulLt(0.0, basis, plan.requestedRiskPercent);
    }
  }

  /** A size as it is computed. */
  ghost predicate Sized(size: Size, plan: Plan, m: Market) {
    && Accepts(plan, m)
    && size.basis == Basis(plan, m) && size.oneLotRisk == OneLotRisk(plan, m)
    && (size.requestedMoney, size.requestedPercent) == Request(plan, size.basis)
    && size.oneLotRisk > 0.0 && size.rawVolume == size.requestedMoney / size.oneLotRisk
    && size.actualPercent == size.actualMoney / size.basis * 100.0
    && Keeps(size, m.volumeMin, Cap(plan, m), m.volumeStep)
  }

  /** A size that is not raised risks no more than its percentage of the account, up to the slack. */
  predicate WithinPercent(size: Size, percent: real) {
    var share := size.basis * percent / 100.0;
    size.actualMoney <= share + Max(0.000000001, share * 0.000000000001)
  }

  lemma MoneyWithinPercent(size: Size, percent: real)
    requires size.requestedMoney == size.basis * percent / 100.0 && size.requestedMoney > 0.0
    requires size.actualMoney <= size.requestedMoney + Tolerance(size.requestedMoney)
    ensures WithinPercent(size, percent)
  {
  }

  lemma SizedIsPositive(size: Size, plan: Plan, m: Market)
    requires Sized(size, plan, m)
    ensures size.requestedMoney > 0.0
  {
    RequestIsPositive(plan, size.basis);
  }

  lemma SizedIsExplained(size: Size, plan: Plan, m: Market)
    requires Sized(size, plan, m)
    ensures Explained(size, plan, m)
  {
    SizeIsExplained(size, plan, m);
  }

  lemma SizedIsPromised(size: Size, plan: Plan, m: Market)
    requires Sized(size, plan, m) && Printable(m.volumeMin, m.volumeStep)
    ensures Promised(size, plan.direction, m)
  {
    SizedIsPositive(size, plan, m);
    BestIsPromised(size, plan, m);
  }

  lemma SizedIsWithinPercent(size: Size, plan: Plan, m: Market)
    requires Sized(size, plan, m) && plan.riskAuthority.Percent? && !size.raised
    ensures WithinPercent(size, plan.requestedRiskPercent)
  {
    SizedIsPositive(size, plan, m);
    MoneyWithinPercent(size, plan.requestedRiskPercent);
  }

  /** calculate. It succeeds exactly when the inputs are accepted and the minimum volume is either forced or
      affordable, so the branch after the second floor never fails. */
  method Calculate(plan: Plan, m: Market) returns (r: Result<Size>)
    requires m.volumeStep > 0.0 && m.volumeMin > 0.0 ==> Printable(m.volumeMin, m.volumeStep)
    ensures r.Ok? ==> Sized(r.value, plan, m) && ResolveOrder(plan, m) == Ok((r.value.orderType, r.value.entry))
    ensures r.Ok? ==> Explained(r.value, plan, m) && Promised(r.value, plan.direction, m)
    ensures r.Ok? && plan.riskAuthority.Percent? && !r.value.raised
            ==> WithinPercent(r.value, plan.requestedRiskPercent)
    ensures Accepts(plan, m) ==>
      var money, lot := Request(plan, Basis(plan, m)).0, OneLotRisk(plan, m);
      lot > 0.0
      && (r.Ok? <==> Raised(money, lot, m.volumeMin, m.volumeStep)
                     || Affordable(money, lot, m.volumeMin, Cap(plan, m)))
  {
    if !m.valid { return Err("symbol data invalid"); }
    if m.tickSize <= 0.0 || m.point <= 0.0 || m.volumeMin <= 0.0 || m.volumeMax <= 0.0 || m.volumeStep <= 0.0 {
      return Err("broker constraints invalid");
    }
    if m.volumeMax < m.volumeMin { return Err("broker constraints invalid"); }
    var basis := Basis(plan, m);
    if basis <= 0.0 { return Err("account basis invalid"); }
    if Requested(plan) <= 0.0 {
      return Err(if plan.riskAuthority.Percent? then "risk percent invalid" else "risk money invalid");
    }
    var request := Request(plan, basis);
    var order := ResolveOrder(plan, m);
    if order.Err? { return Err(order.message); }
    var refused := ValidatePrices(plan, m, order.value.1);
    if refused.Some? { return Err(refused.value); }
    if plan.commissionPerLot < 0.0 { return Err("commission invalid"); }
    if m.oneLotPriceLoss <= 0.0 { return Err("one-lot loss invalid"); }
    var lot := OneLotRisk(plan, m);
    var cap := Cap(plan, m);
    if cap + Epsilon(m.volumeStep) < m.volumeMin { return Err("no volume remains"); }
    RequestIsPositive(plan, basis);
    var volume := ChooseVolume(request.0, lot, m.volumeMin, cap, m.volumeStep);
    if volume.Err? { return Err(volume.message); }
    var raw, actual := request.0 / lot, Risk(lot, volume.value);
    r := Ok(Size(order.value.0, order.value.1, basis, request.0, request.1, lot, raw, volume.value, actual,
                 actual / basis * 100.0, raw > cap + Epsilon(m.volumeStep), raw + Epsilon(m.volumeStep) < m.volumeMin));
    SizedIsExplained(r.value, plan, m);
    SizedIsPromised(r.value, plan, m);
    if plan.riskAuthority.Percent? && !r.value.raised { SizedIsWithinPercent(r.value, plan, m); }
  }
}
