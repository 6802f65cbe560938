/**
 * The net-metering scheduler: under net metering every kWh bought or sold
 * is settled at the same price, so only the battery's own flows matter.
 * The solver's variables form four blocks of `T` periods each:
 *
 *   x   discharge (kWh)                offset 0
 *   y   charge (kWh)                   offset T
 *   soc state of charge                offset 2T
 *   z   no-discharge flag (integral)   offset 3T
 */
module EpexNetMetering {
  import opened Wrappers
  import opened Milp
  import opened Rounding
  import opened BatterySpec
  import opened StorageRows

  /** The Big-M constant of the rows that keep charging and discharging apart. */
  const BigM: real := 10000000.0

  /** The objective's coefficient on each discharge: the price it earns, negated, plus the cutoff rate. */
  function DischargeCosts(prices: seq<real>, rate: real): (c: seq<real>)
    ensures |c| == |prices|
    ensures forall i :: 0 <= i < |prices| ==> c[i] == -prices[i] + rate
  {
    seq(|prices|, i requires 0 <= i < |prices| => -prices[i] + rate)
  }

  /**
   * The objective: the cutoff rate minus the price on discharges, the price
   * on charges, and 0 on states of charge and flags.
   */
  function Objective(prices: seq<real>, rate: real): (c: seq<real>)
    ensures |c| == 4 * |prices|
  {
    DischargeCosts(prices, rate) + prices + Zeros(2 * |prices|)
  }

  /** Period `i`'s yield: what the discharge earns minus what the charge costs. */
  function YieldTerm(discharges: seq<real>, charges: seq<real>, prices: seq<real>, i: nat): real
    requires |discharges| == |prices| && |charges| == |prices| && i < |prices|
  {
    discharges[i] * prices[i] - charges[i] * prices[i]
  }

  /** The first `k` periods' yield. */
  function NetYieldUpTo(discharges: seq<real>, charges: seq<real>, prices: seq<real>, k: nat): real
    requires |discharges| == |prices| && |charges| == |prices| && k <= |prices|
    decreases k
  {
    if k == 0 then 0.0
    else NetYieldUpTo(discharges, charges, prices, k - 1) + YieldTerm(discharges, charges, prices, k - 1)
  }

  function NetYield(discharges: seq<real>, charges: seq<real>, prices: seq<real>): real
    requires |discharges| == |prices| && |charges| == |prices|
  {
    NetYieldUpTo(discharges, charges, prices, |prices|)
  }

  /** Adding period `i`'s earnings minus its costs to the first `i` periods' yield gives the first `i + 1` periods'. */
  lemma NetYieldStep(discharges: seq<real>, charges: seq<real>, prices: seq<real>, i: nat, total: real, dis: real, cha: real)
    requires |discharges| == |prices| && |charges| == |prices| && i < |prices|
    requires total == NetYieldUpTo(discharges, charges, prices, i)
    requires dis == discharges[i] * prices[i] && cha == charges[i] * prices[i]
    ensures total + (dis - cha) == NetYieldUpTo(discharges, charges, prices, i + 1)
  {
  }

  /** Adds up the periods' earnings minus costs, period by period. */
  method SumYield(discharge: seq<real>, charge: seq<real>, prices: seq<real>) returns (total: real)
    requires |discharge| == |prices| && |charge| == |prices|
    ensures total == NetYield(discharge, charge, prices)
  {
    total := 0.0;
    for i := 0 to |prices|
      invariant total == NetYieldUpTo(discharge, charge, prices, i)
    {
      var dis := discharge[i] * prices[i];
      var cha := charge[i] * prices[i];
      NetYieldStep(discharge, charge, prices, i, total, dis, cha);
      total := total + (dis - cha);
    }
  }

  /** The yield is the price-weighted discharge minus the price-weighted charge. */
  lemma {:induction false} NetYieldAsDots(discharges: seq<real>, charges: seq<real>, prices: seq<real>, k: nat)
    requires |discharges| == |prices| && |charges| == |prices| && k <= |prices|
    ensures NetYieldUpTo(discharges, charges, prices, k)
         == PartialDot(prices, discharges, k) - PartialDot(prices, charges, k)
    decreases k
  {
    if k > 0 {
      NetYieldAsDots(discharges, charges, prices, k - 1);
    }
  }

  /** A battery that does nothing yields nothing. */
  lemma {:induction false} IdleNetYield(prices: seq<real>, k: nat)
    requires k <= |prices|
    ensures NetYieldUpTo(Zeros(|prices|), Zeros(|prices|), prices, k) == 0.0
    decreases k
  {
    if k > 0 {
      IdleNetYield(prices, k - 1);
    }
  }

  /** Charges and discharges trade places: the yield changes sign. */
  lemma {:induction false} NetYieldSwapped(discharges: seq<real>, charges: seq<real>, prices: seq<real>, k: nat)
    requires |discharges| == |prices| && |charges| == |prices| && k <= |prices|
    ensures NetYieldUpTo(charges, discharges, prices, k) == -NetYieldUpTo(discharges, charges, prices, k)
    decreases k
  {
    if k > 0 {
      NetYieldSwapped(discharges, charges, prices, k - 1);
    }
  }

  lemma {:induction false} PartialDotDischargeCosts(prices: seq<real>, rate: real, w: seq<real>, m: nat)
    requires |w| == |prices| && m <= |prices|
    ensures PartialDot(DischargeCosts(prices, rate), w, m) == rate * Sum(w[..m]) - PartialDot(prices, w, m)
    decreases m
  {
    if m > 0 {
      PartialDotDischargeCosts(prices, rate, w, m - 1);
      assert w[..m][..m - 1] == w[..m - 1];
    }
  }

  /**
   * At any point the objective equals the cutoff rate on the total
   * discharge minus the yield of the discharge and charge blocks; the
   * states of charge and the flags do not count.
   */
  lemma ObjectiveValue(prices: seq<real>, rate: real, v: seq<real>)
    requires |v| == 4 * |prices|
    ensures var T := |prices|;
      Dot(Objective(prices, rate), v) == rate * Sum(v[..T]) - NetYield(v[..T], v[T..2 * T], prices)
  {
    var T := |prices|;
    ObjectiveDropsState(prices, rate, v);
    FlowBlocksValue(prices, rate, v);
    NetYieldAsDots(v[..T], v[T..2 * T], prices, T);
  }

  /** The states of charge and the flags add nothing to the objective. */
  lemma ObjectiveDropsState(prices: seq<real>, rate: real, v: seq<real>)
    requires |v| == 4 * |prices|
    ensures Dot(Objective(prices, rate), v) == Dot(DischargeCosts(prices, rate) + prices, v[..2 * |prices|])
  {
    var T := |prices|;
    DotSplitAt(DischargeCosts(prices, rate) + prices, Zeros(2 * T), v);
    DotZeros(v[2 * T..]);
  }

  /** The discharge and charge blocks at `v`: the rate on the discharge, minus its price, plus the charge's price. */
  lemma FlowBlocksValue(prices: seq<real>, rate: real, v: seq<real>)
    requires |v| == 4 * |prices|
    ensures var T := |prices|;
      Dot(DischargeCosts(prices, rate) + prices, v[..2 * T])
      == rate * Sum(v[..T]) - Dot(prices, v[..T]) + Dot(prices, v[T..2 * T])
  {
    var T := |prices|;
    var w, x := v[..2 * T], v[..T];
    DotSplitAt(DischargeCosts(prices, rate), prices, w);
    assert w[..T] == x && w[T..] == v[T..2 * T];
    PartialDotDischargeCosts(prices, rate, x, T);
    assert x[..T] == x;
  }

  /** `|x|`. */
  function Abs(x: real): (r: real)
    ensures 0.0 <= r && (r == x || r == -x)
  {
    if x < 0.0 then -x else x
  }

  /** Amounts as the schedule reports them: rounded to 4 places. */
  function Reported(xs: seq<real>): (r: seq<real>)
    ensures |r| == |xs|
  {
    seq(|xs|, i requires 0 <= i < |xs| => Round(xs[i], 4))
  }

  /** Amounts made non-negative, then rounded to 4 places. */
  function ReportedAbs(xs: seq<real>): (r: seq<real>)
    ensures |r| == |xs|
  {
    seq(|xs|, i requires 0 <= i < |xs| => Round(Abs(xs[i]), 4))
  }

  /**
   * A reported amount is within half a step of the fourth decimal of the
   * amount it reports; a reported absolute amount is never negative, and a
   * zero is reported as zero.
   */
  lemma ReportedClose(xs: seq<real>, i: nat)
    requires i < |xs|
    ensures -0.00005 <= Reported(xs)[i] - xs[i] <= 0.00005
    ensures 0.0 <= ReportedAbs(xs)[i] && -0.00005 <= ReportedAbs(xs)[i] - Abs(xs[i]) <= 0.00005
    ensures xs[i] == 0.0 ==> Reported(xs)[i] == 0.0 && ReportedAbs(xs)[i] == 0.0
  {
    assert Pow10(4) == 10000.0;
    RoundClose(xs[i], 4);
    RoundClose(Abs(xs[i]), 4);
    RoundNonNegative(Abs(xs[i]), 4);
    RoundZero(4);
  }

  /** The net-metering scheduler for one horizon. */
  class EpexOptimizerNM {
    const prices: seq<real>
    const battery: Battery
    const cutoff: real
    const startSoc: real
    const endSoc: real
    /** The number of periods. */
    const T: nat
    /** The solver's point after a successful solve. */
    var opt: Option<seq<real>>
    var yieldInPeriod: Option<real>

    predicate Valid()
      reads this`opt
    {
      T == |prices| && (opt.Some? ==> |opt.value| == 4 * T)
    }

    /** Takes the prices and the battery; the horizon is one period per price. */
    constructor (prices: seq<real>, battery: Battery, startSoc: real, endSoc: real, cutoff: real)
      ensures Valid() && opt.None? && yieldInPeriod.None?
      ensures this.prices == prices && this.battery == battery && this.cutoff == cutoff
      ensures this.startSoc == startSoc && this.endSoc == endSoc && T == |prices|
    {
      this.prices := prices;
      this.battery := battery;
      this.cutoff := cutoff;
      this.startSoc := startSoc;
      this.endSoc := endSoc;
      this.T := |prices|;
      opt := None;
      yieldInPeriod := None;
    }

    /** The column a bound row of the first four blocks constrains: discharge, charge, then soc twice. */
    function BoundColumn(r: nat): (c: nat)
      requires r < 4 * |prices|
      ensures c < 4 * |prices|
    {
      if r < 3 * |prices| then r else 2 * |prices| + (r - 3 * |prices|)
    }

    /** The coefficient of that column: -1 for the minimum-soc rows, 1 otherwise. */
    function BoundCoefficient(r: nat): real {
      if 3 * |prices| <= r then MinusOne() else 1.0
    }

    /**
     * Inequality row `r`, block by block: discharge and charge below the
     * power limits, soc below the maximum, soc above the minimum, then the
     * two Big-M rows.
     */
    function IneqRow(r: nat): (row: seq<real>)
      requires r < 6 * |prices|
      ensures |row| == 4 * |prices|
    {
      var T := |prices|;
      var n := 4 * T;
      if r < 4 * T then Unit(n, BoundColumn(r), BoundCoefficient(r))
      else if r < 5 * T then BigMDischargeRow(n, 3 * T, 0, BigM, r - 4 * T)
      else BigMChargeRow(n, 3 * T, T, BigM, r - 5 * T)
    }

    /** The right-hand side of inequality row `r`; the power limits apply per period as they are. */
    function IneqBound(r: nat): real
      requires r < 6 * |prices|
    {
      var T := |prices|;
      if r < T then battery.maxDischargePower
      else if r < 2 * T then battery.maxChargePower
      else if r < 3 * T then battery.maxSoc
      else if r < 4 * T then -battery.minSoc
      else if r < 5 * T then BigM
      else 0.0
    }

    /** The inequality system: exactly `6T` rows, each `4T` wide. */
    function IneqLhs(): (a: seq<seq<real>>)
      ensures |a| == 6 * |prices|
      ensures forall r :: 0 <= r < |a| ==> |a[r]| == 4 * |prices|
    {
      seq(6 * |prices|, r requires 0 <= r < 6 * |prices| => IneqRow(r))
    }

    function IneqRhs(): (b: seq<real>)
      ensures |b| == 6 * |prices|
    {
      seq(6 * |prices|, r requires 0 <= r < 6 * |prices| => IneqBound(r))
    }

    /** Equality row `i`: the state-of-charge recurrence of period `i`. */
    function EqRow(i: nat): (row: seq<real>)
      requires i < |prices| && RatesDefined(battery)
      ensures |row| == 4 * |prices|
    {
      var T := |prices|;
      SocRow(4 * T, T, 2 * T, 0, T, DischargeCoeff(battery), ChargeEntry(battery), i)
    }

    function EqBound(i: nat): real {
      SocBound(|prices|, startSoc, endSoc, i)
    }

    /** The equality system: one recurrence row per period. */
    function EqLhs(): (a: seq<seq<real>>)
      requires RatesDefined(battery)
      ensures |a| == |prices|
      ensures forall r :: 0 <= r < |a| ==> a[r] == EqRow(r)
    {
      seq(|prices|, r requires 0 <= r < |prices| => EqRow(r))
    }

    function EqRhs(): (b: seq<real>)
      ensures |b| == |prices|
      ensures forall r :: 0 <= r < |b| ==> b[r] == EqBound(r)
    {
      seq(|prices|, r requires 0 <= r < |prices| => EqBound(r))
    }

    /** The program handed to the solver. */
    function Problem(): (lp: Milp)
      requires CutoffRateDefined(battery)
      ensures |lp.c| == 4 * |prices| && |lp.integrality| == 4 * |prices|
    {
      CutoffRateDefinedRates(battery);
      var T := |prices|;
      Milp(Objective(prices, CutoffRate(battery, cutoff)), IneqLhs(), IneqRhs(), EqLhs(), EqRhs(), IntegralityMask(3 * T, T))
    }

    /**
     * Period `i` of the point `v` keeps to every limit: discharge and charge
     * within the power limits, the state of charge inside the battery's
     * band, and the Big-M pair on the flag.
     */
    predicate WithinLimits(v: seq<real>, i: nat)
      requires |v| == 4 * |prices| && i < |prices|
    {
      var T := |prices|;
      && v[i] <= battery.maxDischargePower
      && v[T + i] <= battery.maxChargePower
      && battery.minSoc <= v[2 * T + i] <= battery.maxSoc
      && v[i] + BigM * v[3 * T + i] <= BigM
      && v[T + i] - BigM * v[3 * T + i] <= 0.0
    }

    /** Inequality row `r` holds at `v`. */
    predicate IneqRowHolds(v: seq<real>, r: nat)
      requires |v| == 4 * |prices| && r < 6 * |prices|
    {
      Dot(IneqRow(r), v) <= IneqBound(r)
    }

    /** The value at `v` of a bound row: the signed variable it limits. */
    lemma BoundRowValue(v: seq<real>, r: nat)
      requires |v| == 4 * |prices| && r < 4 * |prices|
      ensures Dot(IneqRow(r), v) == if 3 * |prices| <= r then -v[BoundColumn(r)] else v[BoundColumn(r)]
    {
      var c, k := BoundColumn(r), BoundCoefficient(r);
      DotOne(4 * |prices|, c, k, v);
      assert MinusOne() * v[c] == -v[c];
    }

    /** The value at `v` of the discharge Big-M row of period `i`. */
    lemma BigMDischargeValue(v: seq<real>, i: nat)
      requires |v| == 4 * |prices| && i < |prices|
      ensures var T := |prices|; Dot(IneqRow(4 * T + i), v) == v[i] + BigM * v[3 * T + i]
    {
      var T := |prices|;
      assert IneqRow(4 * T + i) == BigMDischargeRow(4 * T, 3 * T, 0, BigM, i);
      BigMDischargeRowValue(4 * T, 3 * T, 0, BigM, i, v);
    }

    /** The value at `v` of the charge Big-M row of period `i`. */
    lemma BigMChargeValue(v: seq<real>, i: nat)
      requires |v| == 4 * |prices| && i < |prices|
      ensures var T := |prices|; Dot(IneqRow(5 * T + i), v) == v[T + i] - BigM * v[3 * T + i]
    {
      var T := |prices|;
      assert IneqRow(5 * T + i) == BigMChargeRow(4 * T, 3 * T, T, BigM, i);
      BigMChargeRowValue(4 * T, 3 * T, T, BigM, i, v);
    }

    /** The power rows of period `i` hold exactly when discharge and charge stay within the power limits. */
    lemma PowerRowsMeaning(v: seq<real>, i: nat)
      requires |v| == 4 * |prices| && i < |prices|
      ensures var T := |prices|;
        (IneqRowHolds(v, i) && IneqRowHolds(v, T + i))
        <==> v[i] <= battery.maxDischargePower && v[T + i] <= battery.maxChargePower
    {
      var T := |prices|;
      BoundRowValue(v, i);
      BoundRowValue(v, T + i);
      assert BoundColumn(i) == i && BoundColumn(T + i) == T + i;
    }

    /** The two soc rows of period `i` hold exactly when its soc lies in the battery's band. */
    lemma SocBandRowsMeaning(v: seq<real>, i: nat)
      requires |v| == 4 * |prices| && i < |prices|
      ensures var T := |prices|;
        (IneqRowHolds(v, 2 * T + i) && IneqRowHolds(v, 3 * T + i)) <==> battery.minSoc <= v[2 * T + i] <= battery.maxSoc
    {
      var T := |prices|;
      BoundRowValue(v, 2 * T + i);
      BoundRowValue(v, 3 * T + i);
      assert BoundColumn(2 * T + i) == 2 * T + i && BoundColumn(3 * T + i) == 2 * T + i;
    }

    /** The Big-M rows of period `i` hold exactly when the pair of Big-M inequalities does. */
    lemma BigMRowsMeaning(v: seq<real>, i: nat)
      requires |v| == 4 * |prices| && i < |prices|
      ensures var T := |prices|;
        (IneqRowHolds(v, 4 * T + i) && IneqRowHolds(v, 5 * T + i))
        <==> v[i] + BigM * v[3 * T + i] <= BigM && v[T + i] - BigM * v[3 * T + i] <= 0.0
    {
      BigMDischargeValue(v, i);
      BigMChargeValue(v, i);
    }

    /** The six rows of period `i` hold exactly when the period keeps to its limits. */
    lemma IneqPeriodMeaning(v: seq<real>, i: nat)
      requires |v| == 4 * |prices| && i < |prices|
      ensures var T := |prices|;
        (&& IneqRowHolds(v, i) && IneqRowHolds(v, T + i) && IneqRowHolds(v, 2 * T + i)
         && IneqRowHolds(v, 3 * T + i) && IneqRowHolds(v, 4 * T + i) && IneqRowHolds(v, 5 * T + i))
        <==> WithinLimits(v, i)
    {
      PowerRowsMeaning(v, i);
      SocBandRowsMeaning(v, i);
      BigMRowsMeaning(v, i);
    }

    /** A row of a satisfied inequality system holds. */
    lemma IneqRowHoldsWhenSatisfied(v: seq<real>, r: nat)
      requires |v| == 4 * |prices| && r < 6 * |prices|
      requires SatisfiesLe(IneqLhs(), IneqRhs(), v)
      ensures IneqRowHolds(v, r)
    {
      assert IneqLhs()[r] == IneqRow(r) && IneqRhs()[r] == IneqBound(r);
    }

    /** The inequality system holds at `v` exactly when every period keeps to its limits. */
    lemma IneqRowsMeaning(v: seq<real>)
      requires |v| == 4 * |prices|
      ensures SatisfiesLe(IneqLhs(), IneqRhs(), v) <==> forall i :: 0 <= i < |prices| ==> WithinLimits(v, i)
    {
      if SatisfiesLe(IneqLhs(), IneqRhs(), v) {
        SatisfiedRowsHold(v);
        forall i | 0 <= i < |prices|
          ensures WithinLimits(v, i)
        {
          RowsHoldWithinLimits(v, i);
        }
      }
      if forall i :: 0 <= i < |prices| ==> WithinLimits(v, i) {
        LimitsSatisfyIneq(v);
      }
    }

    /** Every row of a satisfied inequality system holds. */
    lemma SatisfiedRowsHold(v: seq<real>)
      requires |v| == 4 * |prices|
      requires SatisfiesLe(IneqLhs(), IneqRhs(), v)
      ensures forall r :: 0 <= r < 6 * |prices| ==> IneqRowHolds(v, r)
    {
      forall r | 0 <= r < 6 * |prices| {
        IneqRowHoldsWhenSatisfied(v, r);
      }
    }

    /** A period all of whose rows hold keeps to its limits. */
    lemma RowsHoldWithinLimits(v: seq<real>, i: nat)
      requires |v| == 4 * |prices| && i < |prices|
      requires forall r :: 0 <= r < 6 * |prices| ==> IneqRowHolds(v, r)
      ensures WithinLimits(v, i)
    {
      IneqPeriodMeaning(v, i);
    }

    /** A point whose periods all keep to their limits satisfies the inequality system. */
    lemma LimitsSatisfyIneq(v: seq<real>)
      requires |v| == 4 * |prices|
      requires forall i :: 0 <= i < |prices| ==> WithinLimits(v, i)
      ensures SatisfiesLe(IneqLhs(), IneqRhs(), v)
    {
      forall r | 0 <= r < 6 * |prices|
        ensures |IneqLhs()[r]| == |v| && Dot(IneqLhs()[r], v) <= IneqRhs()[r]
      {
        assert IneqLhs()[r] == IneqRow(r) && IneqRhs()[r] == IneqBound(r);
        IneqRowHoldsWithinLimits(v, r);
      }
    }

    /** Every row holds at a point whose periods all keep to their limits. */
    lemma IneqRowHoldsWithinLimits(v: seq<real>, r: nat)
      requires |v| == 4 * |prices| && r < 6 * |prices|
      requires forall i :: 0 <= i < |prices| ==> WithinLimits(v, i)
      ensures IneqRowHolds(v, r)
    {
      var T := |prices|;
      var i :=
        if r < T then r else if r < 2 * T then r - T else if r < 3 * T then r - 2 * T
        else if r < 4 * T then r - 3 * T else if r < 5 * T then r - 4 * T else r - 5 * T;
      IneqRowHoldsInPeriod(v, r, i);
    }

    /** Each of the six rows of a period that keeps to its limits holds. */
    lemma IneqRowHoldsInPeriod(v: seq<real>, r: nat, i: nat)
      requires |v| == 4 * |prices| && r < 6 * |prices| && i < |prices|
      requires WithinLimits(v, i)
      requires var T := |prices|;
        r == i || r == T + i || r == 2 * T + i || r == 3 * T + i || r == 4 * T + i || r == 5 * T + i
      ensures IneqRowHolds(v, r)
    {
      IneqPeriodMeaning(v, i);
    }

    /** Equality row `r` holds at `v`. */
    predicate EqRowHolds(v: seq<real>, r: nat)
      requires RatesDefined(battery) && |v| == 4 * |prices| && r < |prices|
    {
      Dot(EqRow(r), v) == EqBound(r)
    }

    /**
     * The state-of-charge recurrence over the horizon, read from the soc,
     * discharge and charge blocks of `v`, from the start soc to the end soc.
     */
    predicate Recurrence(v: seq<real>)
      requires RatesDefined(battery) && |v| == 4 * |prices|
    {
      var T := |prices|;
      SocTrajectory(v[2 * T..3 * T], v[..T], v[T..2 * T], startSoc, endSoc, ChargeCoeff(battery), DischargeCoeff(battery))
    }

    /** Recurrence row `i` holds exactly when period `i` moves the state of charge as the recurrence says. */
    lemma SocRowHolds(v: seq<real>, i: nat)
      requires RatesDefined(battery) && |v| == 4 * |prices| && i < |prices|
      ensures var T := |prices|;
        EqRowHolds(v, i)
        <==> PeriodMoves(v[2 * T..3 * T], v[..T], v[T..2 * T], startSoc, endSoc, ChargeCoeff(battery), DischargeCoeff(battery), i)
    {
      var T := |prices|;
      SocRowMeaning(4 * T, T, 2 * T, 0, T, ChargeCoeff(battery), DischargeCoeff(battery), ChargeEntry(battery), startSoc, endSoc, v, i);
      assert v[2 * T..2 * T + T] == v[2 * T..3 * T];
      assert v[0..0 + T] == v[..T];
      assert v[T..T + T] == v[T..2 * T];
    }

    /** The equality system holds at `v` exactly when the recurrence does. */
    lemma EqRowsMeaning(v: seq<real>)
      requires RatesDefined(battery) && |v| == 4 * |prices|
      ensures SatisfiesEq(EqLhs(), EqRhs(), v) <==> Recurrence(v)
    {
      if SatisfiesEq(EqLhs(), EqRhs(), v) {
        RowsGiveRecurrence(v);
      }
      if Recurrence(v) {
        RecurrenceGivesRows(v);
      }
    }

    lemma RowsGiveRecurrence(v: seq<real>)
      requires RatesDefined(battery) && |v| == 4 * |prices|
      requires SatisfiesEq(EqLhs(), EqRhs(), v)
      ensures Recurrence(v)
    {
      forall i | 0 <= i < |prices|
        ensures PeriodMoves(v[2 * |prices|..3 * |prices|], v[..|prices|], v[|prices|..2 * |prices|], startSoc, endSoc, ChargeCoeff(battery), DischargeCoeff(battery), i)
      {
        assert EqRowHolds(v, i);
        SocRowHolds(v, i);
      }
    }

    lemma RecurrenceGivesRows(v: seq<real>)
      requires RatesDefined(battery) && |v| == 4 * |prices|
      requires Recurrence(v)
      ensures SatisfiesEq(EqLhs(), EqRhs(), v)
    {
      forall r | 0 <= r < |prices|
        ensures |EqLhs()[r]| == |v| && Dot(EqLhs()[r], v) == EqRhs()[r]
      {
        SocRowHolds(v, r);
        assert EqRowHolds(v, r);
      }
    }

    /**
     * No equality row involves the first state of charge: replacing it by
     * any value keeps the system satisfied or unsatisfied.
     */
    lemma FirstSocFree(v: seq<real>, s: real)
      requires RatesDefined(battery) && |v| == 4 * |prices| && 0 < |prices|
      ensures SatisfiesEq(EqLhs(), EqRhs(), v) <==> SatisfiesEq(EqLhs(), EqRhs(), v[2 * |prices| := s])
    {
      var T := |prices|;
      var c := 2 * T;
      forall r | 0 <= r < T
        ensures Dot(EqLhs()[r], v[c := s]) == Dot(EqLhs()[r], v)
      {
        SocRowIgnoresFirstSoc(4 * T, T, 2 * T, 0, T, DischargeCoeff(battery), ChargeEntry(battery), r);
        DotPointUpdate(EqLhs()[r], v, c, s);
      }
    }

    /** `lhs` and `rhs` hold the first rows of the inequality system. */
    predicate IneqBuilt(lhs: seq<seq<real>>, rhs: seq<real>) {
      && |lhs| == |rhs| <= 6 * |prices|
      && lhs == IneqLhs()[..|lhs|]
      && rhs == IneqRhs()[..|rhs|]
    }

    lemma IneqBuiltStep(lhs: seq<seq<real>>, rhs: seq<real>, row: seq<real>, bound: real)
      requires IneqBuilt(lhs, rhs) && |lhs| < 6 * |prices|
      requires row == IneqRow(|lhs|) && bound == IneqBound(|lhs|)
      ensures IneqBuilt(lhs + [row], rhs + [bound])
    {
      var a, b := IneqLhs(), IneqRhs();
      PrefixExtend(a, lhs, row);
      PrefixExtend(b, rhs, bound);
    }

    lemma IneqBuiltComplete(lhs: seq<seq<real>>, rhs: seq<real>)
      requires IneqBuilt(lhs, rhs) && |lhs| == 6 * |prices|
      ensures lhs == IneqLhs() && rhs == IneqRhs()
    {
      assert IneqLhs()[..6 * |prices|] == IneqLhs();
      assert IneqRhs()[..6 * |prices|] == IneqRhs();
    }

    /** Builds the inequality rows: power limits, soc limits, then the Big-M pair. */
    method CreateInequalityConstraints() returns (lhs: seq<seq<real>>, rhs: seq<real>)
      requires Valid()
      ensures lhs == IneqLhs() && rhs == IneqRhs()
    {
      lhs, rhs := [], [];
      lhs, rhs := AddPowerLimitRows(lhs, rhs);
      lhs, rhs := AddSocLimitRows(lhs, rhs);
      lhs, rhs := AddBigMRows(lhs, rhs);
      IneqBuiltComplete(lhs, rhs);
    }

    /** Appends `x <= max discharge power`, then `y <= max charge power`, for every period. */
    method AddPowerLimitRows(lhs0: seq<seq<real>>, rhs0: seq<real>) returns (lhs: seq<seq<real>>, rhs: seq<real>)
      requires Valid() && IneqBuilt(lhs0, rhs0) && |lhs0| == 0
      ensures IneqBuilt(lhs, rhs) && |lhs| == 2 * T
    {
      var n := 4 * T;
      lhs, rhs := lhs0, rhs0;
      for i := 0 to T
        invariant |lhs| == |rhs| == i
        invariant IneqBuilt(lhs, rhs)
      {
        var row := Zeros(n);
        row := row[i := 1.0];
        var bound := battery.maxDischargePower;
        IneqBuiltStep(lhs, rhs, row, bound);
        lhs, rhs := lhs + [row], rhs + [bound];
      }
      for i := 0 to T
        invariant |lhs| == |rhs| == T + i
        invariant IneqBuilt(lhs, rhs)
      {
        var row := Zeros(n);
        row := row[i + T := 1.0];
        var bound := battery.maxChargePower;
        IneqBuiltStep(lhs, rhs, row, bound);
        lhs, rhs := lhs + [row], rhs + [bound];
      }
    }

    /** Appends `soc <= maxSoc`, then `-soc <= -minSoc`, for every period. */
    method AddSocLimitRows(lhs0: seq<seq<real>>, rhs0: seq<real>) returns (lhs: seq<seq<real>>, rhs: seq<real>)
      requires Valid() && IneqBuilt(lhs0, rhs0) && |lhs0| == 2 * T
      ensures IneqBuilt(lhs, rhs) && |lhs| == 4 * T
    {
      var n := 4 * T;
      lhs, rhs := lhs0, rhs0;
      for i := 0 to T
        invariant |lhs| == |rhs| == 2 * T + i
        invariant IneqBuilt(lhs, rhs)
      {
        var row := Zeros(n);
        row := row[2 * T + i := 1.0];
        var bound := battery.maxSoc;
        IneqBuiltStep(lhs, rhs, row, bound);
        lhs, rhs := lhs + [row], rhs + [bound];
      }
      for i := 0 to T
        invariant |lhs| == |rhs| == 3 * T + i
        invariant IneqBuilt(lhs, rhs)
      {
        var row := Zeros(n);
        row := row[2 * T + i := -1.0];
        var bound := -battery.minSoc;
        IneqBuiltStep(lhs, rhs, row, bound);
        lhs, rhs := lhs + [row], rhs + [bound];
      }
    }

    /** Appends `x + M z <= M`, then `y - M z <= 0`, for every period. */
    method AddBigMRows(lhs0: seq<seq<real>>, rhs0: seq<real>) returns (lhs: seq<seq<real>>, rhs: seq<real>)
      requires Valid() && IneqBuilt(lhs0, rhs0) && |lhs0| == 4 * T
      ensures IneqBuilt(lhs, rhs) && |lhs| == 6 * T
    {
      var n := 4 * T;
      lhs, rhs := lhs0, rhs0;
      for i := 0 to T
        invariant |lhs| == |rhs| == 4 * T + i
        invariant IneqBuilt(lhs, rhs)
      {
        var row := Zeros(n);
        row := row[i + 3 * T := BigM];
        row := row[i := 1.0];
        var bound := BigM;
        IneqBuiltStep(lhs, rhs, row, bound);
        lhs, rhs := lhs + [row], rhs + [bound];
      }
      for i := 0 to T
        invariant |lhs| == |rhs| == 5 * T + i
        invariant IneqBuilt(lhs, rhs)
      {
        var row := Zeros(n);
        row := row[i + 3 * T := -BigM];
        row := row[i + T := 1.0];
        var bound := 0.0;
        IneqBuiltStep(lhs, rhs, row, bound);
        lhs, rhs := lhs + [row], rhs + [bound];
      }
    }

    /**
     * Builds one recurrence row per period, anchored at the start soc and
     * the end soc; a single period gets the one row that holds both anchors.
     */
    method CreateEqualityConstraints() returns (lhs: seq<seq<real>>, rhs: seq<real>)
      requires Valid() && RatesDefined(battery)
      ensures lhs == EqLhs() && rhs == EqRhs()
    {
      var n := 4 * T;
      var dischargeEntry := 1.0 / (battery.batterySize * battery.efficiency);
      var chargeEntry := -1.0 / battery.batterySize;
      assert dischargeEntry == DischargeCoeff(battery) && chargeEntry == ChargeEntry(battery);
      lhs, rhs := [], [];
      for i := 0 to T
        invariant |lhs| == |rhs| == i
        invariant lhs == EqLhs()[..i] && rhs == EqRhs()[..i]
      {
        var row := Zeros(n);
        var bound: real;
        if T == 1 {
          row := row[0 * T + i := dischargeEntry];
          row := row[1 * T + i := chargeEntry];
          bound := startSoc - endSoc;
        } else if i == 0 {
          row := row[2 * T + i + 1 := 1.0];
          row := row[0 * T + i := dischargeEntry];
          row := row[1 * T + i := chargeEntry];
          bound := startSoc;
        } else if i < T - 1 {
          row := row[2 * T + i := -1.0];
          row := row[2 * T + i + 1 := 1.0];
          row := row[0 * T + i := dischargeEntry];
          row := row[1 * T + i := chargeEntry];
          bound := 0.0;
        } else {
          row := row[2 * T + i := -1.0];
          row := row[0 * T + i := dischargeEntry];
          row := row[1 * T + i := chargeEntry];
          bound := -endSoc;
        }
        assert row == EqRow(i) && bound == EqBound(i);
        assert EqLhs()[..i + 1] == EqLhs()[..i] + [EqLhs()[i]];
        assert EqRhs()[..i + 1] == EqRhs()[..i] + [EqRhs()[i]];
        lhs, rhs := lhs + [row], rhs + [bound];
      }
      assert EqLhs()[..T] == EqLhs() && EqRhs()[..T] == EqRhs();
    }

    /**
     * Builds the program and hands it to `solver`. A successful result is
     * kept; a failed one leaves no result at all.
     */
    method LPOptimize(solver: Milp -> SolverResult)
      requires Valid() && CutoffRateDefined(battery) && SolverSound(solver)
      modifies this`opt
      ensures Valid()
      ensures var res := solver(Problem());
        opt == if res.success then Some(res.x) else None
      ensures opt.Some? ==> Solved()
    {
      CutoffRateDefinedRates(battery);
      var c := Objective(prices, CutoffRate(battery, cutoff));
      var aUb, bUb := CreateInequalityConstraints();
      var aEq, bEq := CreateEqualityConstraints();
      var integrality := IntegralityMask(3 * T, T);
      var res := solver(Milp(c, aUb, bUb, aEq, bEq, integrality));
      if res.success {
        opt := Some(res.x);
      } else {
        opt := None;
      }
    }

    /** The solver's point, once a solve has succeeded and the point is feasible. */
    predicate Solved()
      reads this`opt
    {
      && Valid() && CutoffRateDefined(battery) && RatesDefined(battery)
      && opt.Some? && Feasible(Problem(), opt.value)
    }

    /** Total discharge per period, made non-negative and rounded to 4 places; all zero without a solution. */
    function Discharges(): (r: seq<real>)
      reads this`opt
      requires Valid()
      ensures |r| == T
      ensures opt.None? ==> r == Zeros(T)
    {
      if opt.None? then Zeros(T) else ReportedAbs(opt.value[..T])
    }

    /** Total charge per period, rounded to 4 places; all zero without a solution. */
    function Charges(): (r: seq<real>)
      reads this`opt
      requires Valid()
      ensures |r| == T
      ensures opt.None? ==> r == Zeros(T)
    {
      if opt.None? then Zeros(T) else Reported(opt.value[T..2 * T])
    }

    /**
     * The state of charge per period, the first replaced by the start
     * value because no row constrains it; all zero without a solution.
     * An empty solved horizon has no first entry to replace.
     */
    function Socs(): (r: seq<real>)
      reads this`opt
      requires Valid() && (opt.Some? ==> T > 0)
      ensures |r| == T
      ensures opt.None? ==> r == Zeros(T)
      ensures opt.Some? ==> r[0] == startSoc && forall i :: 0 < i < T ==> r[i] == opt.value[2 * T + i]
    {
      if opt.None? then Zeros(T) else opt.value[2 * T..3 * T][0 := startSoc]
    }

    /**
     * The yield of the schedule: what its discharges earn minus what its
     * charges cost, at the reported (rounded) amounts. Without a solution
     * it is 0 and the stored yield is left as it was; with one it is stored.
     */
    method ComputeYield() returns (periodYield: real)
      requires Valid()
      modifies this`yieldInPeriod
      ensures opt.None? ==> periodYield == 0.0 && yieldInPeriod == old(yieldInPeriod)
      ensures opt.Some? ==> periodYield == NetYield(Discharges(), Charges(), prices) && yieldInPeriod == Some(periodYield)
    {
      if opt.None? {
        return 0.0;
      }
      var discharge := Discharges();
      var charge := Charges();
      var total := SumYield(discharge, charge, prices);
      yieldInPeriod := Some(total);
      periodYield := total;
    }

    /**
     * The points the solver may return are exactly the non-negative points
     * with whole-number flags whose periods keep to their limits and that
     * follow the recurrence.
     */
    lemma ProblemMeaning(v: seq<real>)
      requires CutoffRateDefined(battery) && RatesDefined(battery)
      ensures var T := |prices|;
        Feasible(Problem(), v)
        <==> && |v| == 4 * T
             && (forall j :: 0 <= j < |v| ==> 0.0 <= v[j])
             && (forall j :: 3 * T <= j < |v| ==> IsInteger(v[j]))
             && (forall i :: 0 <= i < T ==> WithinLimits(v, i))
             && Recurrence(v)
    {
      var T := |prices|;
      if |v| == 4 * T {
        IneqRowsMeaning(v);
        EqRowsMeaning(v);
        assert Problem().integrality == IntegralityMask(3 * T, T);
        MaskedIntegral(3 * T, T, v);
      }
    }

    /** Every reported discharge is non-negative, solved or not. */
    lemma DischargesNonNegative()
      requires Valid()
      ensures forall i :: 0 <= i < T ==> 0.0 <= Discharges()[i]
    {
      forall i | 0 <= i < T
        ensures 0.0 <= Discharges()[i]
      {
        if opt.Some? {
          ReportedClose(opt.value[..T], i);
        }
      }
    }

    /** What feasibility says about the solver's point, block by block. */
    lemma SolvedPoint()
      requires Solved()
      ensures var v := opt.value;
        && T == |prices| && |v| == 4 * T
        && (forall j :: 0 <= j < |v| ==> 0.0 <= v[j])
        && (forall j :: 3 * T <= j < 4 * T ==> IsInteger(v[j]))
        && (forall i :: 0 <= i < T ==> WithinLimits(v, i))
        && Recurrence(v)
    {
      var v := opt.value;
      IneqRowsMeaning(v);
      EqRowsMeaning(v);
      assert Problem().integrality == IntegralityMask(3 * T, T);
    }

    /** The limits of every period, read on the blocks of `v`. */
    lemma BlockLimits(v: seq<real>)
      requires |v| == 4 * |prices|
      requires forall i :: 0 <= i < |prices| ==> WithinLimits(v, i)
      ensures var n := |prices|;
        forall i :: 0 <= i < n ==>
          && v[..n][i] <= battery.maxDischargePower
          && v[n..2 * n][i] <= battery.maxChargePower
          && battery.minSoc <= v[2 * n..3 * n][i] <= battery.maxSoc
    {
      var n := |prices|;
      forall i | 0 <= i < n
        ensures && v[..n][i] <= battery.maxDischargePower
                && v[n..2 * n][i] <= battery.maxChargePower
                && battery.minSoc <= v[2 * n..3 * n][i] <= battery.maxSoc
      {
        assert WithinLimits(v, i);
      }
    }

    /**
     * The solver's discharge and charge of every period stay within the
     * power limits, and every state of charge after the first stays inside
     * the battery's band.
     */
    lemma SolvedWithinLimits()
      requires Solved()
      ensures forall i :: 0 <= i < T ==>
        && opt.value[..T][i] <= battery.maxDischargePower
        && opt.value[T..2 * T][i] <= battery.maxChargePower
        && (0 < i ==> battery.minSoc <= Socs()[i] <= battery.maxSoc)
    {
      SolvedPoint();
      var v := opt.value;
      BlockLimits(v);
      assert forall i :: 0 < i < T ==> Socs()[i] == v[2 * T..3 * T][i];
    }

    /** No period of `v` both charges and discharges, given the Big-M rows, the bounds and an integral flag. */
    lemma BlockExclusive(v: seq<real>)
      requires |v| == 4 * |prices|
      requires forall j :: 0 <= j < |v| ==> 0.0 <= v[j]
      requires forall j :: 3 * |prices| <= j < 4 * |prices| ==> IsInteger(v[j])
      requires forall i :: 0 <= i < |prices| ==> WithinLimits(v, i)
      ensures var n := |prices|;
        forall i :: 0 <= i < n ==> v[..n][i] == 0.0 || v[n..2 * n][i] == 0.0
    {
      var n := |prices|;
      forall i | 0 <= i < n
        ensures v[..n][i] == 0.0 || v[n..2 * n][i] == 0.0
      {
        assert WithinLimits(v, i);
        assert IsInteger(v[3 * n + i]);
        BigMExclusive(v[i], v[n + i], v[3 * n + i], BigM);
      }
    }

    /**
     * A solved schedule never charges and discharges in the same period,
     * neither in the solver's point nor in the rounded amounts reported.
     */
    lemma SolvedNeverChargesWhileDischarging()
      requires Solved()
      ensures forall i :: 0 <= i < T ==> opt.value[..T][i] == 0.0 || opt.value[T..2 * T][i] == 0.0
      ensures forall i :: 0 <= i < T ==> Discharges()[i] == 0.0 || Charges()[i] == 0.0
    {
      SolvedPoint();
      var v := opt.value;
      BlockExclusive(v);
      assert Discharges() == ReportedAbs(v[..T]) && Charges() == Reported(v[T..2 * T]);
      forall i | 0 <= i < T
        ensures ReportedAbs(v[..T])[i] == 0.0 || Reported(v[T..2 * T])[i] == 0.0
      {
        ReportedClose(v[..T], i);
        ReportedClose(v[T..2 * T], i);
      }
    }

    /**
     * The reported states of charge follow the recurrence from the start soc
     * to the end soc over the solver's discharges and charges, and over the
     * horizon the end soc is the start soc plus what was charged minus what
     * was discharged, each scaled.
     */
    lemma SolvedTrajectory()
      requires Solved() && 0 < T
      ensures SocTrajectory(Socs(), opt.value[..T], opt.value[T..2 * T], startSoc, endSoc, ChargeCoeff(battery), DischargeCoeff(battery))
      ensures endSoc == startSoc + ChargeCoeff(battery) * Sum(opt.value[T..2 * T]) - DischargeCoeff(battery) * Sum(opt.value[..T])
    {
      SolvedRecurrence();
      ReportedSocs();
      var v := opt.value;
      var cc, dc := ChargeCoeff(battery), DischargeCoeff(battery);
      var socs, xs, ys := v[2 * T..3 * T], v[..T], v[T..2 * T];
      TrajectoryIgnoresFirstSoc(socs, xs, ys, startSoc, endSoc, cc, dc, startSoc);
      TelescopedEnd(socs[0 := startSoc], xs, ys, startSoc, endSoc, cc, dc);
    }

    /** A solved point follows the recurrence. */
    lemma SolvedRecurrence()
      requires Solved()
      ensures T == |prices| && |opt.value| == 4 * T && Recurrence(opt.value)
    {
      SolvedPoint();
    }

    /** A solved point's reported states of charge are its soc block with the first replaced by the start soc. */
    lemma ReportedSocs()
      requires Valid() && opt.Some? && 0 < T
      ensures Socs() == opt.value[2 * T..3 * T][0 := startSoc]
    {
    }

    /**
     * The solver minimises the cutoff rate on the total discharge minus the
     * yield of its own discharges and charges; `ComputeYield` reports that
     * yield on the rounded amounts.
     */
    lemma SolvedObjective()
      requires Valid() && opt.Some? && CutoffRateDefined(battery)
      ensures Dot(Objective(prices, CutoffRate(battery, cutoff)), opt.value)
        == CutoffRate(battery, cutoff) * Sum(opt.value[..T]) - NetYield(opt.value[..T], opt.value[T..2 * T], prices)
    {
      ObjectiveValue(prices, CutoffRate(battery, cutoff), opt.value);
    }
  }
}
