/**
 * The static description of one battery: capacity, state-of-charge band,
 * power limits and efficiency, fixed once at construction.
 */
module BatterySpec {
  import opened Milp
  import opened Rounding
  import opened StorageRows

  /**
   * `batterySize` in kWh; `minSoc`, `maxSoc` as fractions of the size;
   * power limits in kW; `efficiency` is the share of stored energy that can
   * be discharged. The two ratios are power per kWh of capacity.
   */
  datatype Battery = Battery(
    batterySize: real,
    minSoc: real,
    maxSoc: real,
    maxDischargePower: real,
    maxChargePower: real,
    efficiency: real,
    dischargeRatio: real,
    chargeRatio: real)

  /**
   * Builds a battery. A lower bound outside [0, 1) becomes 0 and an upper
   * bound outside (0, 1] becomes 1; every other argument is stored as given.
   * The ratios divide by the size, so the size must not be zero, and are
   * rounded to three decimals.
   */
  function NewBattery(
    batterySize: real, minSoc: real, maxSoc: real,
    maxDischargePower: real, maxChargePower: real, efficiency: real): (b: Battery)
    requires batterySize != 0.0
    ensures 0.0 <= b.minSoc < 1.0
    ensures 0.0 < b.maxSoc <= 1.0
    ensures 0.0 <= minSoc < 1.0 ==> b.minSoc == minSoc
    ensures !(0.0 <= minSoc < 1.0) ==> b.minSoc == 0.0
    ensures 0.0 < maxSoc <= 1.0 ==> b.maxSoc == maxSoc
    ensures !(0.0 < maxSoc <= 1.0) ==> b.maxSoc == 1.0
    ensures b.batterySize == batterySize && b.efficiency == efficiency
    ensures b.maxDischargePower == maxDischargePower && b.maxChargePower == maxChargePower
    ensures -0.0005 <= b.dischargeRatio - maxDischargePower / batterySize <= 0.0005
    ensures -0.0005 <= b.chargeRatio - maxChargePower / batterySize <= 0.0005
  {
    assert Pow10(3) == 1000.0;
    RoundClose(maxDischargePower / batterySize, 3);
    RoundClose(maxChargePower / batterySize, 3);
    Battery(
      batterySize,
      if 0.0 <= minSoc < 1.0 then minSoc else 0.0,
      if 0.0 < maxSoc <= 1.0 then maxSoc else 1.0,
      maxDischargePower,
      maxChargePower,
      efficiency,
      Round(maxDischargePower / batterySize, 3),
      Round(maxChargePower / batterySize, 3))
  }

  /** Clamping is idempotent: rebuilding a battery from the values it stores gives it back. */
  lemma NewBatteryIdempotent(
    batterySize: real, minSoc: real, maxSoc: real,
    maxDischargePower: real, maxChargePower: real, efficiency: real)
    requires batterySize != 0.0
    ensures var b := NewBattery(batterySize, minSoc, maxSoc, maxDischargePower, maxChargePower, efficiency);
      NewBattery(b.batterySize, b.minSoc, b.maxSoc, b.maxDischargePower, b.maxChargePower, b.efficiency) == b
  {
  }

  /**
   * Clamping treats the two bounds separately, so it never enforces
   * `minSoc < maxSoc`: a lower bound of 0.9 with an upper bound of 0.5 is kept.
   */
  lemma ClampingKeepsInvertedBand()
    ensures var b := NewBattery(1.0, 0.9, 0.5, 1.0, 1.0, 1.0);
      b.minSoc == 0.9 && b.maxSoc == 0.5 && EffectiveSize(b) < 0.0
  {
  }

  /** The usable energy band in kWh. */
  function EffectiveSize(b: Battery): real {
    (b.maxSoc - b.minSoc) * b.batterySize
  }

  /** The two state-of-charge coefficients of the recurrence are defined. */
  predicate RatesDefined(b: Battery) {
    b.batterySize * b.efficiency != 0.0
  }

  /** The cutoff rate, which divides by effective size times efficiency, is defined. */
  predicate CutoffRateDefined(b: Battery) {
    EffectiveSize(b) * b.efficiency != 0.0
  }

  /** Whenever the cutoff rate is defined, so are the recurrence coefficients. */
  lemma CutoffRateDefinedRates(b: Battery)
    requires CutoffRateDefined(b)
    ensures RatesDefined(b)
  {
  }

  /** State of charge gained per kWh charged. */
  function ChargeCoeff(b: Battery): real
    requires RatesDefined(b)
  {
    1.0 / b.batterySize
  }

  /** The coefficient the recurrence rows put on a charge: `-1 / size`. */
  function ChargeEntry(b: Battery): (k: real)
    requires RatesDefined(b)
    ensures k == -ChargeCoeff(b)
  {
    -1.0 / b.batterySize
  }

  /** State of charge lost per kWh discharged: the loss is scaled up by the efficiency. */
  function DischargeCoeff(b: Battery): real
    requires RatesDefined(b)
  {
    1.0 / (b.batterySize * b.efficiency)
  }

  /** The objective's penalty per kWh discharged: `cutoff` per full cycle of the usable band. */
  function CutoffRate(b: Battery, cutoff: real): real
    requires CutoffRateDefined(b)
  {
    cutoff / (EffectiveSize(b) * b.efficiency)
  }

  /**
   * Along the recurrence, charging exactly the usable band's worth of
   * energy with no discharge takes the battery from its minimum to its
   * maximum state of charge.
   */
  lemma FullChargeFillsBand(b: Battery, socs: seq<real>, xs: seq<real>, ys: seq<real>, end: real)
    requires RatesDefined(b) && 1 <= |socs|
    requires SocTrajectory(socs, xs, ys, b.minSoc, end, ChargeCoeff(b), DischargeCoeff(b))
    requires Sum(xs) == 0.0 && Sum(ys) == EffectiveSize(b)
    ensures end == b.maxSoc
  {
    TelescopedEnd(socs, xs, ys, b.minSoc, end, ChargeCoeff(b), DischargeCoeff(b));
    var s := b.batterySize;
    assert s != 0.0;
    assert ChargeCoeff(b) * s == 1.0;
    assert ChargeCoeff(b) * EffectiveSize(b) == (b.maxSoc - b.minSoc) * (ChargeCoeff(b) * s);
  }

  /**
   * Along the recurrence, discharging the usable band times the efficiency
   * with no charge takes the battery from its maximum to its minimum state
   * of charge: the efficiency loss is charged to the battery.
   */
  lemma FullDischargeEmptiesBand(b: Battery, socs: seq<real>, xs: seq<real>, ys: seq<real>, end: real)
    requires RatesDefined(b) && 1 <= |socs|
    requires SocTrajectory(socs, xs, ys, b.maxSoc, end, ChargeCoeff(b), DischargeCoeff(b))
    requires Sum(ys) == 0.0 && Sum(xs) == EffectiveSize(b) * b.efficiency
    ensures end == b.minSoc
  {
    TelescopedEnd(socs, xs, ys, b.maxSoc, end, ChargeCoeff(b), DischargeCoeff(b));
    var se := b.batterySize * b.efficiency;
    assert DischargeCoeff(b) * se == 1.0;
    assert EffectiveSize(b) * b.efficiency == (b.maxSoc - b.minSoc) * se;
    assert DischargeCoeff(b) * Sum(xs) == (b.maxSoc - b.minSoc) * (DischargeCoeff(b) * se);
  }

  /**
   * A discharge that runs the battery from its maximum down to its minimum
   * state of charge, with no charge, pays exactly `cutoff` at the cutoff
   * rate: the rate is `cutoff` per full cycle of the usable band.
   */
  lemma FullCyclePaysCutoff(b: Battery, cutoff: real, socs: seq<real>, xs: seq<real>, ys: seq<real>)
    requires CutoffRateDefined(b) && RatesDefined(b) && 1 <= |socs|
    requires SocTrajectory(socs, xs, ys, b.maxSoc, b.minSoc, ChargeCoeff(b), DischargeCoeff(b))
    requires Sum(ys) == 0.0
    ensures CutoffRate(b, cutoff) * Sum(xs) == cutoff
  {
    TelescopedEnd(socs, xs, ys, b.maxSoc, b.minSoc, ChargeCoeff(b), DischargeCoeff(b));
    var se := b.batterySize * b.efficiency;
    var band := b.maxSoc - b.minSoc;
    assert DischargeCoeff(b) * Sum(xs) == band;
    assert DischargeCoeff(b) * se == 1.0;
    assert Sum(xs) == band * se by {
      assert Sum(xs) == (DischargeCoeff(b) * se) * Sum(xs);
      assert (DischargeCoeff(b) * se) * Sum(xs) == (DischargeCoeff(b) * Sum(xs)) * se;
    }
    var ee := EffectiveSize(b) * b.efficiency;
    assert band * se == ee;
    assert CutoffRate(b, cutoff) * ee == cutoff;
  }
}
