/** Lot sizes: the volume lattice and the position size for a requested risk. */
module Volume {
  import opened Decimals
  import opened Prices
  import opened Execution

  // The relative slack of the volume lattice.
  const RELATIVE: real := 0.000000001

  function Epsilon(step: real): real { step * RELATIVE }

  // ---- the decimals of a step ----

  predicate Prints(step: real, digits: nat) {
    Abs(step - Round(step, digits)) <= Max(TINY, Epsilon(step))
  }

  /** decimals_for_step: the fewest decimals that print the step, or eight when no fewer do. */
  method DecimalsForStep(step: real) returns (digits: nat)
    ensures digits == StepDigits(step)
    ensures step > 0.0 ==>
      && digits <= 8 && (digits == 8 || Prints(step, digits))
      && forall d :: 0 <= d < digits ==> !Prints(step, d)
    ensures step <= 0.0 ==> digits == 2
  {
    if step <= 0.0 { return 2; }
    for k := 0 to 9
      invariant StepDigits(step) == StepDigitsFrom(step, k)
      invariant forall d :: 0 <= d < k ==> !Prints(step, d)
    {
      if Prints(step, k) { return k; }
    }
    return 8;
  }

  function StepDigitsFrom(step: real, digits: nat): (r: nat)
    requires digits <= 9
    ensures r <= 8 && (r == 8 || Prints(step, r))
    ensures forall d :: digits <= d < r ==> !Prints(step, d)
    decreases 9 - digits
  {
    if digits == 9 then 8 else if Prints(step, digits) then digits else StepDigitsFrom(step, digits + 1)
  }

  function StepDigits(step: real): nat { if step <= 0.0 then 2 else StepDigitsFrom(step, 0) }

  // ---- the lattice ----

  /** The volume of k steps above the minimum. */
  function Lots(minimum: real, step: real, k: int): real { minimum + k as real * step }

  /** Minimum and step have only printed decimals, and the slack is less than half a unit of the last one. */
  ghost predicate Printable(minimum: real, step: real) {
    && OnGrid(minimum, StepDigits(step)) && OnGrid(step, StepDigits(step))
    && Units(Epsilon(step), StepDigits(step)) < 0.5
  }

  predicate Fits(requested: real, minimum: real, maximum: real, step: real) {
    && requested > 0.0 && minimum > 0.0 && maximum > 0.0 && step > 0.0
    && minimum <= maximum
    && minimum <= Min(requested, maximum) + Epsilon(step)
  }

  /** The number of steps that fit. */
  function Steps(requested: real, minimum: real, maximum: real, step: real): int
    requires step > 0.0
  {
    ((Min(requested, maximum) - minimum + Epsilon(step)) / step).Floor
  }

  /** The greatest lattice volume within the request and the maximum, or 0. */
  function Floored(requested: real, minimum: real, maximum: real, step: real): real {
    if !Fits(requested, minimum, maximum, step) then 0.0
    else Lots(minimum, step, Steps(requested, minimum, maximum, step))
  }

  lemma LotsDiffer(minimum: real, step: real, j: int, k: int)
    requires step > 0.0 && j < k
    ensures Lots(minimum, step, j) + step <= Lots(minimum, step, k)
  {
    MulLe(j as real + 1.0, k as real, step);
    Distributes(j as real, 1.0, step);
  }

  /** The steps are the greatest number whose volume fits. */
  lemma StepsBracket(requested: real, minimum: real, maximum: real, step: real)
    requires Fits(requested, minimum, maximum, step)
    ensures var k := Steps(requested, minimum, maximum, step);
      k >= 0 && Lots(minimum, step, k) <= Min(requested, maximum) + Epsilon(step) < Lots(minimum, step, k) + step
  {
    FloorDiv(Min(requested, maximum) - minimum + Epsilon(step), step);
  }

  /** Zero exactly when nothing fits. */
  lemma FlooredZeroIff(requested: real, minimum: real, maximum: real, step: real)
    ensures Floored(requested, minimum, maximum, step) == 0.0 <==> !Fits(requested, minimum, maximum, step)
    ensures Fits(requested, minimum, maximum, step) ==> Floored(requested, minimum, maximum, step) >= minimum
  {
    if Fits(requested, minimum, maximum, step) {
      var k := Steps(requested, minimum, maximum, step);
      StepsBracket(requested, minimum, maximum, step);
      if k > 0 { LotsDiffer(minimum, step, 0, k); }
    }
  }

  /** Otherwise it is the greatest lattice volume that fits. */
  lemma FlooredIsGreatest(requested: real, minimum: real, maximum: real, step: real, k: int)
    requires Fits(requested, minimum, maximum, step)
    ensures Floored(requested, minimum, maximum, step) <= Min(requested, maximum) + Epsilon(step)
    ensures Lots(minimum, step, k) <= Min(requested, maximum) + Epsilon(step)
            ==> Lots(minimum, step, k) <= Floored(requested, minimum, maximum, step)
  {
    var best := Steps(requested, minimum, maximum, step);
    StepsBracket(requested, minimum, maximum, step);
    if k > best {
      LotsDiffer(minimum, step, best, k);
    } else if k < best {
      LotsDiffer(minimum, step, k, best);
    }
  }

  /** A larger request never gives a smaller volume. */
  lemma FlooredIsMonotone(a: real, b: real, minimum: real, maximum: real, step: real)
    requires a <= b
    ensures Floored(a, minimum, maximum, step) <= Floored(b, minimum, maximum, step)
  {
    FlooredZeroIff(b, minimum, maximum, step);
    if Fits(a, minimum, maximum, step) {
      FlooredIsGreatest(a, minimum, maximum, step, 0);
      FlooredIsGreatest(b, minimum, maximum, step, Steps(a, minimum, maximum, step));
    }
  }

  // ---- the code of floor_volume ----

  lemma {:induction false} LotsOnGrid(minimum: real, step: real, k: nat, digits: nat)
    requires OnGrid(minimum, digits) && OnGrid(step, digits)
    ensures OnGrid(Lots(minimum, step, k), digits)
  {
    if k == 0 {
      assert Lots(minimum, step, 0) == minimum;
    } else {
      LotsOnGrid(minimum, step, k - 1, digits);
      SumOnGrid(Lots(minimum, step, k - 1), step, digits);
      assert Lots(minimum, step, k) == Lots(minimum, step, k - 1) + step;
    }
  }

  /** The clamp to the maximum is undone by the rounding. */
  lemma ClampRoundsBack(volume: real, maximum: real, step: real, digits: nat)
    requires OnGrid(volume, digits) && step > 0.0 && Units(Epsilon(step), digits) < 0.5
    requires volume <= maximum + Epsilon(step)
    ensures Round(Min(volume, maximum), digits) == volume
  {
    if volume > maximum {
      UnitsOrder(-Epsilon(step), maximum - volume, digits);
      UnitsOrder(maximum - volume, 0.0, digits);
      UnitsAdd(0.0, Epsilon(step), digits);
      assert Units(0.0, digits) == 0.0;
      RoundNear(maximum, volume, digits);
    } else {
      RoundOnGrid(volume, digits);
    }
  }

  /** floor_volume. */
  method FloorVolume(requested: real, minimum: real, maximum: real, step: real) returns (r: real)
    requires step > 0.0 && minimum > 0.0 ==> Printable(minimum, step)
    ensures r == Floored(requested, minimum, maximum, step)
  {
    if requested <= 0.0 || minimum <= 0.0 || maximum <= 0.0 || step <= 0.0 { return 0.0; }
    if maximum < minimum { return 0.0; }
    var capped := Min(requested, maximum);
    var epsilon := Epsilon(step);
    if capped + epsilon < minimum { return 0.0; }
    var count := ((capped - minimum + epsilon) / step).Floor;
    var volume := Lots(minimum, step, count);
    StepsBracket(requested, minimum, maximum, step);
    FlooredZeroIff(requested, minimum, maximum, step);
    if volume > capped + epsilon { volume := volume - step; }
    if volume + epsilon < minimum { return 0.0; }
    assert volume == Floored(requested, minimum, maximum, step);
    var digits := DecimalsForStep(step);
    LotsOnGrid(minimum, step, count, digits);
    ClampRoundsBack(volume, maximum, step, digits);
    volume := Round(Min(volume, maximum), digits);
    if volume > capped + epsilon { volume := Round(volume - step, digits); }
    r := if volume + epsilon >= minimum then volume else 0.0;
  }

  /** Too few decimals round a step to zero, which does not print it. */
  lemma RoundsToZero(step: real, digits: nat)
    requires step > TINY && 0.0 <= Units(step, digits) < 0.5
    ensures !Prints(step, digits)
  {
    RoundToNearest(Units(step, digits), 0);
    assert Round(step, digits) == 0.0;
  }

  lemma HundredthOnGrid()
    ensures OnGrid(0.01, 2) && Units(0.01, 0) == 0.01 && Units(0.01, 1) == 0.1 && Units(Epsilon(0.01), 2) < 0.5
  {
    assert Pow10(1) == 10.0;
    assert Pow10(2) == 10.0 * Pow10(1);
    Whole(Units(0.01, 2), 1);
  }

  /** The hundredth-lot lattice of the default market meets the requirement. */
  lemma HundredthsArePrintable()
    ensures StepDigits(0.01) == 2 && Printable(0.01, 0.01)
  {
    HundredthOnGrid();
    RoundsToZero(0.01, 0);
    RoundsToZero(0.01, 1);
    RoundOnGrid(0.01, 2);
    assert StepDigitsFrom(0.01, 0) == StepDigitsFrom(0.01, 1) == StepDigitsFrom(0.01, 2);
  }
}
