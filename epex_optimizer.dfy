/**
 * The general scheduler: a battery behind a household connection with
 * separate buy and sell prices. The solver's variables form eight blocks of
 * `T` periods each, in this order:
 *
 *   gx  discharge sold to the grid (kWh)       offset 0
 *   zx  discharge used by the household (kWh)  offset T
 *   gy  charge bought from the grid (kWh)      offset 2T
 *   zy  charge taken from solar feed-in (kWh)  offset 3T
 *   x   total discharge                        offset 4T
 *   y   total charge                           offset 5T
 *   soc state of charge                        offset 6T
 *   z   no-discharge flag (integral)           offset 7T
 */
module EpexTariff {
  import opened Wrappers
  import opened Milp
  import opened Rounding
  import opened BatterySpec
  import opened StorageRows

  /** The Big-M constant of the rows that keep charging and discharging apart. */
  const BigM: real := 1000.0

  /** Missing usage or feed-in readings count as 0; present readings pass through. */
  function ReplaceMissing(xs: seq<Option<real>>): (r: seq<real>)
    ensures |r| == |xs|
    ensures forall i :: 0 <= i < |xs| ==> (xs[i].Some? ==> r[i] == xs[i].value) && (xs[i].None? ==> r[i] == 0.0)
  {
    seq(|xs|, i requires 0 <= i < |xs| => xs[i].GetOr(0.0))
  }

  /** Every reading of `values`, none missing. */
  function Present(values: seq<real>): (r: seq<Option<real>>)
    ensures |r| == |values|
    ensures forall i :: 0 <= i < |values| ==> r[i] == Some(values[i])
  {
    seq(|values|, i requires 0 <= i < |values| => Some(values[i]))
  }

  /** A series with no missing readings comes through unchanged. */
  lemma ReplaceMissingPresent(values: seq<real>)
    ensures ReplaceMissing(Present(values)) == values
  {
  }

  /** The consumer price: the market price plus VAT, plus the fixed tax per kWh. */
  function TaxedPrices(prices: seq<real>, taxRate: real, taxPerKwh: real): (r: seq<real>)
    ensures |r| == |prices|
    ensures forall i :: 0 <= i < |prices| ==> r[i] == prices[i] * (1.0 + taxRate) + taxPerKwh
  {
    seq(|prices|, i requires 0 <= i < |prices| => prices[i] * (1.0 + taxRate) + taxPerKwh)
  }

  /** Unless VAT is -100%, the market prices can be read back from the consumer prices. */
  lemma TaxedPricesInvertible(prices: seq<real>, taxRate: real, taxPerKwh: real, i: nat)
    requires taxRate != -1.0 && i < |prices|
    ensures (TaxedPrices(prices, taxRate, taxPerKwh)[i] - taxPerKwh) / (1.0 + taxRate) == prices[i]
  {
    var t := TaxedPrices(prices, taxRate, taxPerKwh)[i];
    var d := 1.0 + taxRate;
    assert t - taxPerKwh == prices[i] * d;
    assert (prices[i] * d) / d == prices[i];
  }

  /** With non-negative VAT and fixed tax, a consumer price is never below the market price it comes from. */
  lemma TaxedPricesNotBelow(prices: seq<real>, taxRate: real, taxPerKwh: real, i: nat)
    requires 0.0 <= taxRate && 0.0 <= taxPerKwh && i < |prices| && 0.0 <= prices[i]
    ensures prices[i] <= TaxedPrices(prices, taxRate, taxPerKwh)[i]
  {
    assert prices[i] * taxRate >= 0.0;
  }

  /**
   * The share of an hour one period lasts, as the constructor leaves it:
   * set for "hour" and "quarter" only. For any other interval it announces
   * that it assumes an hour but sets nothing, so the first solve fails.
   */
  function IntervalFractionAsWritten(interval: string): (f: Option<real>)
    ensures f.Some? <==> interval == "hour" || interval == "quarter"
  {
    if interval == "hour" then Some(1.0)
    else if interval == "quarter" then Some(0.25)
    else None
  }

  /** An unknown interval such as "day" leaves the fraction unset, not at the announced hour. */
  lemma UnknownIntervalLeavesFractionUnset()
    ensures IntervalFractionAsWritten("day") == None
  {
  }

  /**
   * The share of an hour one period lasts, with the announced fallback:
   * a quarter of an hour for "quarter", a whole hour otherwise. Power
   * limits in kW times this give kWh per period.
   */
  function IntervalFraction(interval: string): (f: real)
    ensures interval == "quarter" ==> f == 0.25
    ensures interval != "quarter" ==> f == 1.0
  {
    if interval == "quarter" then 0.25 else 1.0
  }

  /** On the two recognised intervals the fallback changes nothing. */
  lemma IntervalFractionAgrees(interval: string)
    requires IntervalFractionAsWritten(interval).Some?
    ensures IntervalFractionAsWritten(interval) == Some(IntervalFraction(interval))
  {
  }

  /**
   * The objective: `-price` on grid discharges, `-taxed price` on
   * self-used discharges, `+taxed price` on grid charges, `+price` on solar
   * charges, the cutoff `rate` on total discharges and 0 on total charges,
   * states of charge and flags.
   */
  function Objective(prices: seq<real>, pricesTax: seq<real>, rate: real): (c: seq<real>)
    requires |pricesTax| == |prices|
    ensures |c| == 8 * |prices|
  {
    PricedBlocks(prices, pricesTax, rate) + Zeros(3 * |prices|)
  }

  /** The five blocks of the objective that carry a price or the cutoff rate. */
  function PricedBlocks(prices: seq<real>, pricesTax: seq<real>, rate: real): (c: seq<real>)
    requires |pricesTax| == |prices|
    ensures |c| == 5 * |prices|
  {
    Negated(prices) + Negated(pricesTax) + pricesTax + prices + Constant(|prices|, rate)
  }

  /** Period `i`'s change in energy cost: grid and solar charges cost, grid sales and self-use save. */
  function ExtraTerm(gx: seq<real>, zx: seq<real>, gy: seq<real>, zy: seq<real>, prices: seq<real>, pricesTax: seq<real>, i: nat): real
    requires |gx| == |prices| && |zx| == |prices| && |gy| == |prices| && |zy| == |prices| && |pricesTax| == |prices|
    requires i < |prices|
  {
    gy[i] * pricesTax[i] + zy[i] * prices[i] - zx[i] * pricesTax[i] - gx[i] * prices[i]
  }

  /** The first `k` periods' change in energy cost. */
  function ExtraCostUpTo(gx: seq<real>, zx: seq<real>, gy: seq<real>, zy: seq<real>, prices: seq<real>, pricesTax: seq<real>, k: nat): real
    requires |gx| == |prices| && |zx| == |prices| && |gy| == |prices| && |zy| == |prices| && |pricesTax| == |prices|
    requires k <= |prices|
    decreases k
  {
    if k == 0 then 0.0
    else ExtraCostUpTo(gx, zx, gy, zy, prices, pricesTax, k - 1) + ExtraTerm(gx, zx, gy, zy, prices, pricesTax, k - 1)
  }

  function ExtraCost(gx: seq<real>, zx: seq<real>, gy: seq<real>, zy: seq<real>, prices: seq<real>, pricesTax: seq<real>): real
    requires |gx| == |prices| && |zx| == |prices| && |gy| == |prices| && |zy| == |prices| && |pricesTax| == |prices|
  {
    ExtraCostUpTo(gx, zx, gy, zy, prices, pricesTax, |prices|)
  }

  /** Period `i`'s cost without a battery: usage at the taxed price minus feed-in at the market price, rounded to 6 places. */
  function BaselineTerm(use: seq<real>, feedin: seq<real>, prices: seq<real>, pricesTax: seq<real>, i: nat): real
    requires |use| == |prices| && |feedin| == |prices| && |pricesTax| == |prices| && i < |prices|
  {
    Round(-feedin[i] * prices[i] + use[i] * pricesTax[i], 6)
  }

  /** The first `k` periods' cost without a battery. */
  function OriginalCostUpTo(use: seq<real>, feedin: seq<real>, prices: seq<real>, pricesTax: seq<real>, k: nat): real
    requires |use| == |prices| && |feedin| == |prices| && |pricesTax| == |prices| && k <= |prices|
    decreases k
  {
    if k == 0 then 0.0
    else OriginalCostUpTo(use, feedin, prices, pricesTax, k - 1) + BaselineTerm(use, feedin, prices, pricesTax, k - 1)
  }

  lemma ExtraCostStep(gx: seq<real>, zx: seq<real>, gy: seq<real>, zy: seq<real>, prices: seq<real>, pricesTax: seq<real>, i: nat)
    requires |gx| == |prices| && |zx| == |prices| && |gy| == |prices| && |zy| == |prices| && |pricesTax| == |prices|
    requires i < |prices|
    ensures ExtraCostUpTo(gx, zx, gy, zy, prices, pricesTax, i + 1)
         == ExtraCostUpTo(gx, zx, gy, zy, prices, pricesTax, i) + ExtraTerm(gx, zx, gy, zy, prices, pricesTax, i)
  {
  }

  lemma OriginalCostStep(use: seq<real>, feedin: seq<real>, prices: seq<real>, pricesTax: seq<real>, i: nat)
    requires |use| == |prices| && |feedin| == |prices| && |pricesTax| == |prices| && i < |prices|
    ensures OriginalCostUpTo(use, feedin, prices, pricesTax, i + 1)
         == OriginalCostUpTo(use, feedin, prices, pricesTax, i) + BaselineTerm(use, feedin, prices, pricesTax, i)
  {
  }

  /** The extra cost splits into four price-weighted sums, one per flow. */
  lemma {:induction false} ExtraCostAsDots(gx: seq<real>, zx: seq<real>, gy: seq<real>, zy: seq<real>, prices: seq<real>, pricesTax: seq<real>, k: nat)
    requires |gx| == |prices| && |zx| == |prices| && |gy| == |prices| && |zy| == |prices| && |pricesTax| == |prices|
    requires k <= |prices|
    ensures ExtraCostUpTo(gx, zx, gy, zy, prices, pricesTax, k)
         == PartialDot(pricesTax, gy, k) + PartialDot(prices, zy, k) - PartialDot(pricesTax, zx, k) - PartialDot(prices, gx, k)
    decreases k
  {
    if k > 0 {
      ExtraCostAsDots(gx, zx, gy, zy, prices, pricesTax, k - 1);
    }
  }

  /** A battery that does nothing changes nothing in the cost. */
  lemma {:induction false} IdleExtraCost(prices: seq<real>, pricesTax: seq<real>, k: nat)
    requires |pricesTax| == |prices| && k <= |prices|
    ensures var idle := Zeros(|prices|);
      ExtraCostUpTo(idle, idle, idle, idle, prices, pricesTax, k) == 0.0
    decreases k
  {
    if k > 0 {
      IdleExtraCost(prices, pricesTax, k - 1);
    }
  }

  /** Over the whole horizon, the extra cost splits into the four price-weighted flows. */
  lemma ExtraCostAsFullDots(gx: seq<real>, zx: seq<real>, gy: seq<real>, zy: seq<real>, prices: seq<real>, pricesTax: seq<real>)
    requires |gx| == |prices| && |zx| == |prices| && |gy| == |prices| && |zy| == |prices| && |pricesTax| == |prices|
    ensures ExtraCost(gx, zx, gy, zy, prices, pricesTax)
         == Dot(pricesTax, gy) + Dot(prices, zy) - Dot(pricesTax, zx) - Dot(prices, gx)
  {
    ExtraCostAsDots(gx, zx, gy, zy, prices, pricesTax, |prices|);
  }

  /**
   * At any point the objective equals the extra energy cost of its flows
   * plus the cutoff rate on the total discharge; no other block counts.
   */
  lemma ObjectiveValue(prices: seq<real>, pricesTax: seq<real>, rate: real, v: seq<real>)
    requires |pricesTax| == |prices| && |v| == 8 * |prices|
    ensures var T := |prices|;
      Dot(Objective(prices, pricesTax, rate), v)
      == ExtraCost(v[..T], v[T..2 * T], v[2 * T..3 * T], v[3 * T..4 * T], prices, pricesTax) + rate * Sum(v[4 * T..5 * T])
  {
    var T := |prices|;
    ObjectiveDropsState(prices, pricesTax, rate, v);
    PricedBlocksValue(prices, pricesTax, rate, v);
    ExtraCostAsFullDots(v[..T], v[T..2 * T], v[2 * T..3 * T], v[3 * T..4 * T], prices, pricesTax);
  }

  /** The objective at `v`, given names for the flow blocks of `v`. */
  lemma ObjectiveAtFlows(
    prices: seq<real>, pricesTax: seq<real>, rate: real, v: seq<real>,
    gx: seq<real>, zx: seq<real>, gy: seq<real>, zy: seq<real>, x: seq<real>)
    requires |pricesTax| == |prices| && |v| == 8 * |prices|
    requires var T := |prices|;
      && gx == v[..T] && zx == v[T..2 * T] && gy == v[2 * T..3 * T] && zy == v[3 * T..4 * T]
      && x == v[4 * T..5 * T]
    ensures Dot(Objective(prices, pricesTax, rate), v) == ExtraCost(gx, zx, gy, zy, prices, pricesTax) + rate * Sum(x)
  {
    ObjectiveValue(prices, pricesTax, rate, v);
  }

  /** The total charges, states of charge and flags add nothing to the objective. */
  lemma ObjectiveDropsState(prices: seq<real>, pricesTax: seq<real>, rate: real, v: seq<real>)
    requires |pricesTax| == |prices| && |v| == 8 * |prices|
    ensures Dot(Objective(prices, pricesTax, rate), v) == Dot(PricedBlocks(prices, pricesTax, rate), v[..5 * |prices|])
  {
    var T := |prices|;
    DotSplitAt(PricedBlocks(prices, pricesTax, rate), Zeros(3 * T), v);
    DotZeros(v[5 * T..]);
  }

  /** The priced blocks at `v`, block by block. */
  lemma PricedBlocksValue(prices: seq<real>, pricesTax: seq<real>, rate: real, v: seq<real>)
    requires |pricesTax| == |prices| && |v| == 8 * |prices|
    ensures var T := |prices|;
      Dot(PricedBlocks(prices, pricesTax, rate), v[..5 * T])
      == -Dot(prices, v[..T]) - Dot(pricesTax, v[T..2 * T]) + Dot(pricesTax, v[2 * T..3 * T])
         + Dot(prices, v[3 * T..4 * T]) + rate * Sum(v[4 * T..5 * T])
  {
    var T := |prices|;
    var w := v[..5 * T];
    FirstFiveBlocks(prices, pricesTax, rate, w);
    assert w[..T] == v[..T] && w[T..2 * T] == v[T..2 * T] && w[2 * T..3 * T] == v[2 * T..3 * T];
    assert w[3 * T..4 * T] == v[3 * T..4 * T] && w[4 * T..] == v[4 * T..5 * T];
  }

  /** The five priced blocks of the objective, taken one block at a time. */
  lemma FirstFiveBlocks(prices: seq<real>, pricesTax: seq<real>, rate: real, w: seq<real>)
    requires |pricesTax| == |prices| && |w| == 5 * |prices|
    ensures var T := |prices|;
      Dot(PricedBlocks(prices, pricesTax, rate), w)
      == -Dot(prices, w[..T]) - Dot(pricesTax, w[T..2 * T]) + Dot(pricesTax, w[2 * T..3 * T])
         + Dot(prices, w[3 * T..4 * T]) + rate * Sum(w[4 * T..])
  {
    var T := |prices|;
    var a4 := Negated(prices) + Negated(pricesTax) + pricesTax + prices;
    assert w == w[..4 * T] + w[4 * T..];
    DotAppend(a4, Constant(T, rate), w[..4 * T], w[4 * T..]);
    DotConstant(rate, w[4 * T..]);
    FirstFourBlocks(prices, pricesTax, w[..4 * T]);
    assert w[..4 * T][..T] == w[..T] && w[..4 * T][T..2 * T] == w[T..2 * T];
    assert w[..4 * T][2 * T..3 * T] == w[2 * T..3 * T] && w[..4 * T][3 * T..] == w[3 * T..4 * T];
  }

  lemma FirstFourBlocks(prices: seq<real>, pricesTax: seq<real>, w: seq<real>)
    requires |pricesTax| == |prices| && |w| == 4 * |prices|
    ensures var T := |prices|;
      Dot(Negated(prices) + Negated(pricesTax) + pricesTax + prices, w)
      == -Dot(prices, w[..T]) - Dot(pricesTax, w[T..2 * T]) + Dot(pricesTax, w[2 * T..3 * T]) + Dot(prices, w[3 * T..])
  {
    var T := |prices|;
    var a3 := Negated(prices) + Negated(pricesTax) + pricesTax;
    assert w == w[..3 * T] + w[3 * T..];
    DotAppend(a3, prices, w[..3 * T], w[3 * T..]);
    FirstThreeBlocks(prices, pricesTax, w[..3 * T]);
    assert w[..3 * T][..T] == w[..T] && w[..3 * T][T..2 * T] == w[T..2 * T] && w[..3 * T][2 * T..] == w[2 * T..3 * T];
  }

  lemma FirstThreeBlocks(prices: seq<real>, pricesTax: seq<real>, w: seq<real>)
    requires |pricesTax| == |prices| && |w| == 3 * |prices|
    ensures var T := |prices|;
      Dot(Negated(prices) + Negated(pricesTax) + pricesTax, w)
      == -Dot(prices, w[..T]) - Dot(pricesTax, w[T..2 * T]) + Dot(pricesTax, w[2 * T..])
  {
    var T := |prices|;
    var a2 := Negated(prices) + Negated(pricesTax);
    assert w == w[..2 * T] + w[2 * T..];
    DotAppend(a2, pricesTax, w[..2 * T], w[2 * T..]);
    assert w[..2 * T] == w[..T] + w[T..2 * T];
    DotAppend(Negated(prices), Negated(pricesTax), w[..T], w[T..2 * T]);
    DotNegated(prices, w[..T]);
    DotNegated(pricesTax, w[T..2 * T]);
  }

  /** The general scheduler for one household and one horizon. */
  class EpexOptimizer {
    const battery: Battery
    const startSoc: real
    const endSoc: real
    const taxPerKwh: real
    const taxRate: real
    const allowGridDischarge: bool
    const allowGridCharge: bool
    const cutoff: real
    const interval: string
    const intervalFraction: real
    const electricityUse: seq<real>
    const electricityFeedin: seq<real>
    const prices: seq<real>
    const pricesTax: seq<real>

    /** The number of periods, known only once a solve has started. */
    var T: nat
    var periodsSet: bool
    /** The solver's point after a successful solve. */
    var opt: Option<seq<real>>
    var yieldInPeriod: Option<real>

    /** The four series cover the same periods. */
    predicate SeriesAligned() {
      |electricityUse| == |prices| && |electricityFeedin| == |prices| && |pricesTax| == |prices|
    }

    predicate Valid()
      reads this`T, this`periodsSet, this`opt
    {
      && SeriesAligned()
      && (periodsSet ==> T == |prices|)
      && (opt.Some? ==> periodsSet && |opt.value| == 8 * T)
    }

    /**
     * Reads the household's series and the tariff. Missing usage and
     * feed-in readings become 0, prices are taken as they are, and the
     * taxed price is derived from them.
     */
    constructor (
      use: seq<Option<real>>, feedin: seq<Option<real>>, prices: seq<real>, battery: Battery,
      startSoc: real, endSoc: real, taxRate: real, taxPerKwh: real,
      allowGridDischarge: bool, allowGridCharge: bool, cutoff: real, interval: string)
      requires |use| == |prices| && |feedin| == |prices|
      ensures Valid() && !periodsSet && opt.None? && yieldInPeriod.None?
      ensures this.battery == battery && this.startSoc == startSoc && this.endSoc == endSoc
      ensures this.taxRate == taxRate && this.taxPerKwh == taxPerKwh && this.cutoff == cutoff
      ensures this.allowGridDischarge == allowGridDischarge && this.allowGridCharge == allowGridCharge
      ensures this.interval == interval && intervalFraction == IntervalFraction(interval)
      ensures electricityUse == ReplaceMissing(use) && electricityFeedin == ReplaceMissing(feedin)
      ensures this.prices == prices && pricesTax == TaxedPrices(prices, taxRate, taxPerKwh)
    {
      this.battery := battery;
      this.startSoc := startSoc;
      this.endSoc := endSoc;
      this.taxPerKwh := taxPerKwh;
      this.taxRate := taxRate;
      this.allowGridDischarge := allowGridDischarge;
      this.allowGridCharge := allowGridCharge;
      this.cutoff := cutoff;
      this.interval := interval;
      this.intervalFraction := IntervalFraction(interval);
      this.electricityUse := ReplaceMissing(use);
      this.electricityFeedin := ReplaceMissing(feedin);
      this.prices := prices;
      this.pricesTax := TaxedPrices(prices, taxRate, taxPerKwh);
      opt := None;
      yieldInPeriod := None;
      periodsSet := false;
    }

    /**
     * The column a bound row of the first six blocks constrains: soc twice
     * (above and below), solar charge, self-use discharge, discharge and
     * charge.
     */
    function BoundColumn(r: nat): (c: nat)
      requires r < 6 * |prices|
      ensures c < 8 * |prices|
    {
      var T := |prices|;
      if r < T then 6 * T + r
      else if r < 2 * T then 6 * T + (r - T)
      else if r < 3 * T then 3 * T + (r - 2 * T)
      else if r < 4 * T then T + (r - 3 * T)
      else if r < 5 * T then 4 * T + (r - 4 * T)
      else 5 * T + (r - 5 * T)
    }

    /** The coefficient of that column: -1 for the minimum-soc rows, 1 otherwise. */
    function BoundCoefficient(r: nat): real {
      if |prices| <= r < 2 * |prices| then MinusOne() else 1.0
    }

    /**
     * Inequality row `r`, block by block: soc below the maximum, soc above
     * the minimum, solar charge below feed-in, self-use below usage,
     * discharge and charge below their per-period limits, then the two
     * Big-M rows.
     */
    function IneqRow(r: nat): (row: seq<real>)
      requires r < 8 * |prices|
      ensures |row| == 8 * |prices|
    {
      var T := |prices|;
      var n := 8 * T;
      if r < 6 * T then Unit(n, BoundColumn(r), BoundCoefficient(r))
      else if r < 7 * T then BigMDischargeRow(n, 7 * T, 4 * T, BigM, r - 6 * T)
      else BigMChargeRow(n, 7 * T, 5 * T, BigM, r - 7 * T)
    }

    /** The right-hand side of inequality row `r`. */
    function IneqBound(r: nat): real
      requires SeriesAligned() && r < 8 * |prices|
    {
      var T := |prices|;
      if r < T then battery.maxSoc
      else if r < 2 * T then -battery.minSoc
      else if r < 3 * T then electricityFeedin[r - 2 * T]
      else if r < 4 * T then electricityUse[r - 3 * T]
      else if r < 5 * T then battery.maxDischargePower * intervalFraction
      else if r < 6 * T then battery.maxChargePower * intervalFraction
      else if r < 7 * T then BigM
      else 0.0
    }

    /** The inequality system: exactly `8T` rows, each `8T` wide. */
    function IneqLhs(): (a: seq<seq<real>>)
      ensures |a| == 8 * |prices|
      ensures forall r :: 0 <= r < |a| ==> |a[r]| == 8 * |prices|
    {
      seq(8 * |prices|, r requires 0 <= r < 8 * |prices| => IneqRow(r))
    }

    function IneqRhs(): (b: seq<real>)
      requires SeriesAligned()
      ensures |b| == 8 * |prices|
    {
      seq(8 * |prices|, r requires 0 <= r < 8 * |prices| => IneqBound(r))
    }

    /** Equality row `r`: first the state-of-charge recurrence, then the charge split, then the discharge split. */
    function EqRow(r: nat): (row: seq<real>)
      requires r < 3 * |prices| && RatesDefined(battery)
      ensures |row| == 8 * |prices|
    {
      var T := |prices|;
      var n := 8 * T;
      if r < T then SocRow(n, T, 6 * T, 4 * T, 5 * T, DischargeCoeff(battery), ChargeEntry(battery), r)
      else if r < 2 * T then Zeros(n)[2 * T + (r - T) := 1.0][3 * T + (r - T) := 1.0][5 * T + (r - T) := MinusOne()]
      else Zeros(n)[r - 2 * T := 1.0][T + (r - 2 * T) := 1.0][4 * T + (r - 2 * T) := MinusOne()]
    }

    function EqBound(r: nat): real
      requires r < 3 * |prices|
    {
      if r < |prices| then SocBound(|prices|, startSoc, endSoc, r) else 0.0
    }

    /** The row `sum(gx) = 0` that forbids selling to the grid, unless selling is allowed. */
    function SellBanRows(): (a: seq<seq<real>>)
      ensures |a| == if allowGridDischarge then 0 else 1
    {
      if allowGridDischarge then [] else [Indicator(8 * |prices|, 0, |prices|)]
    }

    /** The row `sum(gy) = 0` that forbids buying from the grid, unless buying is allowed. */
    function BuyBanRows(): (a: seq<seq<real>>)
      ensures |a| == if allowGridCharge then 0 else 1
    {
      if allowGridCharge then [] else [Indicator(8 * |prices|, 2 * |prices|, |prices|)]
    }

    /** The optional rows that forbid selling to and buying from the grid. */
    function GridRows(): (a: seq<seq<real>>)
      ensures |a| == (if allowGridDischarge then 0 else 1) + (if allowGridCharge then 0 else 1)
      ensures forall r :: 0 <= r < |a| ==> |a[r]| == 8 * |prices|
    {
      SellBanRows() + BuyBanRows()
    }

    /** The `3T` rows every problem has: recurrence, charge split, discharge split. */
    function EqBlock(): (a: seq<seq<real>>)
      requires RatesDefined(battery)
      ensures |a| == 3 * |prices|
      ensures forall r :: 0 <= r < |a| ==> a[r] == EqRow(r)
    {
      seq(3 * |prices|, r requires 0 <= r < 3 * |prices| => EqRow(r))
    }

    function EqBlockBounds(): (b: seq<real>)
      ensures |b| == 3 * |prices|
      ensures forall r :: 0 <= r < |b| ==> b[r] == EqBound(r)
    {
      seq(3 * |prices|, r requires 0 <= r < 3 * |prices| => EqBound(r))
    }

    /** The equality system: `3T` rows, plus one per forbidden grid direction. */
    function EqLhs(): (a: seq<seq<real>>)
      requires RatesDefined(battery)
      ensures |a| == 3 * |prices| + (if allowGridDischarge then 0 else 1) + (if allowGridCharge then 0 else 1)
      ensures forall r :: 0 <= r < |a| ==> |a[r]| == 8 * |prices|
    {
      EqBlock() + GridRows()
    }

    function EqRhs(): (b: seq<real>)
      ensures |b| == 3 * |prices| + (if allowGridDischarge then 0 else 1) + (if allowGridCharge then 0 else 1)
    {
      EqBlockBounds() + Zeros(|GridRows()|)
    }

    /** The program handed to the solver. */
    function Problem(): (lp: Milp)
      requires SeriesAligned() && CutoffRateDefined(battery)
      ensures |lp.c| == 8 * |prices| && |lp.integrality| == 8 * |prices|
    {
      CutoffRateDefinedRates(battery);
      var T := |prices|;
      Milp(
        Objective(prices, pricesTax, CutoffRate(battery, cutoff)),
        IneqLhs(), IneqRhs(), EqLhs(), EqRhs(),
        IntegralityMask(7 * T, T))
    }

    /**
     * Period `i` of the point `v` keeps to every limit: the state of charge
     * inside the battery's band, the solar charge within the feed-in, the
     * self-use within the usage, discharge and charge within what the power
     * limits deliver in one period, and the Big-M pair on the flag.
     */
    predicate WithinLimits(v: seq<real>, i: nat)
      requires SeriesAligned() && |v| == 8 * |prices| && i < |prices|
    {
      var T := |prices|;
      && battery.minSoc <= v[6 * T + i] <= battery.maxSoc
      && v[3 * T + i] <= electricityFeedin[i]
      && v[T + i] <= electricityUse[i]
      && v[4 * T + i] <= battery.maxDischargePower * intervalFraction
      && v[5 * T + i] <= battery.maxChargePower * intervalFraction
      && v[4 * T + i] + BigM * v[7 * T + i] <= BigM
      && v[5 * T + i] - BigM * v[7 * T + i] <= 0.0
    }

    /** Inequality row `r` holds at `v`. */
    predicate IneqRowHolds(v: seq<real>, r: nat)
      requires SeriesAligned() && |v| == 8 * |prices| && r < 8 * |prices|
    {
      Dot(IneqRow(r), v) <= IneqBound(r)
    }

    /** The value at `v` of a bound row: the signed variable it limits. */
    lemma BoundRowValue(v: seq<real>, r: nat)
      requires |v| == 8 * |prices| && r < 6 * |prices|
      ensures Dot(IneqRow(r), v) == if |prices| <= r < 2 * |prices| then -v[BoundColumn(r)] else v[BoundColumn(r)]
    {
      var c, k := BoundColumn(r), BoundCoefficient(r);
      DotOne(8 * |prices|, c, k, v);
      assert MinusOne() * v[c] == -v[c];
    }

    /** The value at `v` of the discharge Big-M row of period `i`. */
    lemma BigMDischargeValue(v: seq<real>, i: nat)
      requires |v| == 8 * |prices| && i < |prices|
      ensures var T := |prices|; Dot(IneqRow(6 * T + i), v) == v[4 * T + i] + BigM * v[7 * T + i]
    {
      var T := |prices|;
      assert IneqRow(6 * T + i) == BigMDischargeRow(8 * T, 7 * T, 4 * T, BigM, i);
      BigMDischargeRowValue(8 * T, 7 * T, 4 * T, BigM, i, v);
    }

    /** The value at `v` of the charge Big-M row of period `i`. */
    lemma BigMChargeValue(v: seq<real>, i: nat)
      requires |v| == 8 * |prices| && i < |prices|
      ensures var T := |prices|; Dot(IneqRow(7 * T + i), v) == v[5 * T + i] - BigM * v[7 * T + i]
    {
      var T := |prices|;
      assert IneqRow(7 * T + i) == BigMChargeRow(8 * T, 7 * T, 5 * T, BigM, i);
      BigMChargeRowValue(8 * T, 7 * T, 5 * T, BigM, i, v);
    }

    /** The two soc rows of period `i` hold exactly when its soc lies in the battery's band. */
    lemma SocBandRowsMeaning(v: seq<real>, i: nat)
      requires SeriesAligned() && |v| == 8 * |prices| && i < |prices|
      ensures var T := |prices|;
        (IneqRowHolds(v, i) && IneqRowHolds(v, T + i)) <==> battery.minSoc <= v[6 * T + i] <= battery.maxSoc
    {
      var T := |prices|;
      BoundRowValue(v, i);
      BoundRowValue(v, T + i);
      assert BoundColumn(i) == 6 * T + i && BoundColumn(T + i) == 6 * T + i;
    }

    /** The feed-in and usage rows of period `i` hold exactly when self-use and solar charge stay within them. */
    lemma SiteRowsMeaning(v: seq<real>, i: nat)
      requires SeriesAligned() && |v| == 8 * |prices| && i < |prices|
      ensures var T := |prices|;
        (IneqRowHolds(v, 2 * T + i) && IneqRowHolds(v, 3 * T + i))
        <==> v[3 * T + i] <= electricityFeedin[i] && v[T + i] <= electricityUse[i]
    {
      var T := |prices|;
      BoundRowValue(v, 2 * T + i);
      BoundRowValue(v, 3 * T + i);
      assert BoundColumn(2 * T + i) == 3 * T + i && BoundColumn(3 * T + i) == T + i;
    }

    /** The power rows of period `i` hold exactly when discharge and charge stay within one period's power. */
    lemma PowerRowsMeaning(v: seq<real>, i: nat)
      requires SeriesAligned() && |v| == 8 * |prices| && i < |prices|
      ensures var T := |prices|;
        (IneqRowHolds(v, 4 * T + i) && IneqRowHolds(v, 5 * T + i))
        <==> v[4 * T + i] <= battery.maxDischargePower * intervalFraction && v[5 * T + i] <= battery.maxChargePower * intervalFraction
    {
      var T := |prices|;
      BoundRowValue(v, 4 * T + i);
      BoundRowValue(v, 5 * T + i);
      assert BoundColumn(4 * T + i) == 4 * T + i && BoundColumn(5 * T + i) == 5 * T + i;
    }

    /** The Big-M rows of period `i` hold exactly when the pair of Big-M inequalities does. */
    lemma BigMRowsMeaning(v: seq<real>, i: nat)
      requires SeriesAligned() && |v| == 8 * |prices| && i < |prices|
      ensures var T := |prices|;
        (IneqRowHolds(v, 6 * T + i) && IneqRowHolds(v, 7 * T + i))
        <==> v[4 * T + i] + BigM * v[7 * T + i] <= BigM && v[5 * T + i] - BigM * v[7 * T + i] <= 0.0
    {
      BigMDischargeValue(v, i);
      BigMChargeValue(v, i);
    }

    /** The eight rows of period `i` hold exactly when the period keeps to its limits. */
    lemma IneqPeriodMeaning(v: seq<real>, i: nat)
      requires SeriesAligned() && |v| == 8 * |prices| && i < |prices|
      ensures var T := |prices|;
        (&& IneqRowHolds(v, i) && IneqRowHolds(v, T + i) && IneqRowHolds(v, 2 * T + i)
         && IneqRowHolds(v, 3 * T + i) && IneqRowHolds(v, 4 * T + i) && IneqRowHolds(v, 5 * T + i)
         && IneqRowHolds(v, 6 * T + i) && IneqRowHolds(v, 7 * T + i))
        <==> WithinLimits(v, i)
    {
      SocBandRowsMeaning(v, i);
      SiteRowsMeaning(v, i);
      PowerRowsMeaning(v, i);
      BigMRowsMeaning(v, i);
    }

    /** A row of a satisfied inequality system holds. */
    lemma IneqRowHoldsWhenSatisfied(v: seq<real>, r: nat)
      requires SeriesAligned() && |v| == 8 * |prices| && r < 8 * |prices|
      requires SatisfiesLe(IneqLhs(), IneqRhs(), v)
      ensures IneqRowHolds(v, r)
    {
      assert IneqLhs()[r] == IneqRow(r) && IneqRhs()[r] == IneqBound(r);
    }

    /**
     * The inequality system holds at `v` exactly when every period keeps to
     * its limits.
     */
    lemma IneqRowsMeaning(v: seq<real>)
      requires SeriesAligned() && |v| == 8 * |prices|
      ensures SatisfiesLe(IneqLhs(), IneqRhs(), v) <==> forall i :: 0 <= i < |prices| ==> WithinLimits(v, i)
    {
      if SatisfiesLe(IneqLhs(), IneqRhs(), v) {
        SatisfiedRowsHold(v);
        forall i | 0 <= i < |prices|
          ensures WithinLimits(v, i)
        {
          RowsHoldWithinLimits(v, i);
        }
      }
      if forall i :: 0 <= i < |prices| ==> WithinLimits(v, i) {
        LimitsSatisfyIneq(v);
      }
    }

    /** Every row of a satisfied inequality system holds. */
    lemma SatisfiedRowsHold(v: seq<real>)
      requires SeriesAligned() && |v| == 8 * |prices|
      requires SatisfiesLe(IneqLhs(), IneqRhs(), v)
      ensures forall r :: 0 <= r < 8 * |prices| ==> IneqRowHolds(v, r)
    {
      forall r | 0 <= r < 8 * |prices| {
        IneqRowHoldsWhenSatisfied(v, r);
      }
    }

    /** A period all of whose rows hold keeps to its limits. */
    lemma RowsHoldWithinLimits(v: seq<real>, i: nat)
      requires SeriesAligned() && |v| == 8 * |prices| && i < |prices|
      requires forall r :: 0 <= r < 8 * |prices| ==> IneqRowHolds(v, r)
      ensures WithinLimits(v, i)
    {
      IneqPeriodMeaning(v, i);
    }

    /** A point whose periods all keep to their limits satisfies the inequality system. */
    lemma LimitsSatisfyIneq(v: seq<real>)
      requires SeriesAligned() && |v| == 8 * |prices|
      requires forall i :: 0 <= i < |prices| ==> WithinLimits(v, i)
      ensures SatisfiesLe(IneqLhs(), IneqRhs(), v)
    {
      forall r | 0 <= r < 8 * |prices|
        ensures |IneqLhs()[r]| == |v| && Dot(IneqLhs()[r], v) <= IneqRhs()[r]
      {
        assert IneqLhs()[r] == IneqRow(r) && IneqRhs()[r] == IneqBound(r);
        IneqRowHoldsWithinLimits(v, r);
      }
    }

    /** Every row holds at a point whose periods all keep to their limits. */
    lemma IneqRowHoldsWithinLimits(v: seq<real>, r: nat)
      requires SeriesAligned() && |v| == 8 * |prices| && r < 8 * |prices|
      requires forall i :: 0 <= i < |prices| ==> WithinLimits(v, i)
      ensures IneqRowHolds(v, r)
    {
      var T := |prices|;
      var i :=
        if r < T then r else if r < 2 * T then r - T else if r < 3 * T then r - 2 * T
        else if r < 4 * T then r - 3 * T else if r < 5 * T then r - 4 * T
        else if r < 6 * T then r - 5 * T else if r < 7 * T then r - 6 * T else r - 7 * T;
      IneqRowHoldsInPeriod(v, r, i);
    }

    /** Each of the eight rows of a period that keeps to its limits holds. */
    lemma IneqRowHoldsInPeriod(v: seq<real>, r: nat, i: nat)
      requires SeriesAligned() && |v| == 8 * |prices| && r < 8 * |prices| && i < |prices|
      requires WithinLimits(v, i)
      requires var T := |prices|;
        r == i || r == T + i || r == 2 * T + i || r == 3 * T + i
        || r == 4 * T + i || r == 5 * T + i || r == 6 * T + i || r == 7 * T + i
      ensures IneqRowHolds(v, r)
    {
      IneqPeriodMeaning(v, i);
    }

    /** Equality row `r` holds at `v`. */
    predicate EqRowHolds(v: seq<real>, r: nat)
      requires RatesDefined(battery) && |v| == 8 * |prices| && r < 3 * |prices|
    {
      Dot(EqRow(r), v) == EqBound(r)
    }

    /**
     * The state-of-charge recurrence over the horizon, read from the soc,
     * discharge and charge blocks of `v`, from the start soc to the end soc.
     */
    predicate Recurrence(v: seq<real>)
      requires RatesDefined(battery) && |v| == 8 * |prices|
    {
      var T := |prices|;
      SocTrajectory(v[6 * T..7 * T], v[4 * T..5 * T], v[5 * T..6 * T], startSoc, endSoc, ChargeCoeff(battery), DischargeCoeff(battery))
    }

    /** Period `i` splits its charge into grid and solar parts and its discharge into grid and self-use parts. */
    predicate FlowsSplit(v: seq<real>, i: nat)
      requires |v| == 8 * |prices| && i < |prices|
    {
      var T := |prices|;
      v[2 * T + i] + v[3 * T + i] == v[5 * T + i] && v[i] + v[T + i] == v[4 * T + i]
    }

    /** Recurrence row `i` holds exactly when period `i` moves the state of charge as the recurrence says. */
    lemma SocRowHolds(v: seq<real>, i: nat)
      requires RatesDefined(battery) && |v| == 8 * |prices| && i < |prices|
      ensures var T := |prices|;
        EqRowHolds(v, i)
        <==> PeriodMoves(v[6 * T..7 * T], v[4 * T..5 * T], v[5 * T..6 * T], startSoc, endSoc, ChargeCoeff(battery), DischargeCoeff(battery), i)
    {
      var T := |prices|;
      EqRowIsSocRow(i);
      SocRowMeaning(8 * T, T, 6 * T, 4 * T, 5 * T, ChargeCoeff(battery), DischargeCoeff(battery), ChargeEntry(battery), startSoc, endSoc, v, i);
      assert v[6 * T..6 * T + T] == v[6 * T..7 * T];
      assert v[4 * T..4 * T + T] == v[4 * T..5 * T];
      assert v[5 * T..5 * T + T] == v[5 * T..6 * T];
    }

    /** The first `T` equality rows are the shared recurrence rows over the soc, discharge and charge blocks. */
    lemma EqRowIsSocRow(i: nat)
      requires RatesDefined(battery) && i < |prices|
      ensures var T := |prices|;
        && EqRow(i) == SocRow(8 * T, T, 6 * T, 4 * T, 5 * T, DischargeCoeff(battery), ChargeEntry(battery), i)
        && EqBound(i) == SocBound(T, startSoc, endSoc, i)
    {
    }

    /** The first `T` rows hold exactly when the recurrence does. */
    lemma SocRowsMeaning(v: seq<real>)
      requires RatesDefined(battery) && |v| == 8 * |prices|
      ensures (forall r :: 0 <= r < |prices| ==> EqRowHolds(v, r)) <==> Recurrence(v)
    {
      if forall r :: 0 <= r < |prices| ==> EqRowHolds(v, r) {
        SocRowsGiveRecurrence(v);
      }
      if Recurrence(v) {
        RecurrenceGivesSocRows(v);
      }
    }

    lemma SocRowsGiveRecurrence(v: seq<real>)
      requires RatesDefined(battery) && |v| == 8 * |prices|
      requires forall r :: 0 <= r < |prices| ==> EqRowHolds(v, r)
      ensures Recurrence(v)
    {
      forall i | 0 <= i < |prices| {
        SocRowHolds(v, i);
      }
    }

    lemma RecurrenceGivesSocRows(v: seq<real>)
      requires RatesDefined(battery) && |v| == 8 * |prices|
      requires Recurrence(v)
      ensures forall r :: 0 <= r < |prices| ==> EqRowHolds(v, r)
    {
      forall r | 0 <= r < |prices|
        ensures EqRowHolds(v, r)
      {
        SocRowHolds(v, r);
      }
    }

    /** The value at `v` of charge split row `r`, for period `i = r - T`: `gy + zy - y`. */
    lemma ChargeSplitRowValue(v: seq<real>, r: nat)
      requires RatesDefined(battery) && |v| == 8 * |prices| && |prices| <= r < 2 * |prices|
      ensures var T := |prices|; var i := r - T;
        Dot(EqRow(r), v) == v[2 * T + i] + v[3 * T + i] - v[5 * T + i]
    {
      var T := |prices|;
      var i := r - T;
      var a, b, c, down := 2 * T + i, 3 * T + i, 5 * T + i, MinusOne();
      assert EqRow(r) == Zeros(8 * T)[a := 1.0][b := 1.0][c := down];
      DotThree(8 * T, a, 1.0, b, 1.0, c, down, v);
      assert down * v[c] == -v[c];
    }

    /** The value at `v` of discharge split row `r`, for period `i = r - 2T`: `gx + zx - x`. */
    lemma DischargeSplitRowValue(v: seq<real>, r: nat)
      requires RatesDefined(battery) && |v| == 8 * |prices| && 2 * |prices| <= r < 3 * |prices|
      ensures var T := |prices|; var i := r - 2 * T;
        Dot(EqRow(r), v) == v[i] + v[T + i] - v[4 * T + i]
    {
      var T := |prices|;
      var i := r - 2 * T;
      var a, b, c, down := i, T + i, 4 * T + i, MinusOne();
      assert EqRow(r) == Zeros(8 * T)[a := 1.0][b := 1.0][c := down];
      DotThree(8 * T, a, 1.0, b, 1.0, c, down, v);
      assert down * v[c] == -v[c];
    }

    /** The two split rows of period `i` hold exactly when its flows split. */
    lemma FlowRowsMeaning(v: seq<real>, i: nat)
      requires RatesDefined(battery) && |v| == 8 * |prices| && i < |prices|
      ensures var T := |prices|;
        (EqRowHolds(v, T + i) && EqRowHolds(v, 2 * T + i)) <==> FlowsSplit(v, i)
    {
      var T := |prices|;
      ChargeSplitRowValue(v, T + i);
      DischargeSplitRowValue(v, 2 * T + i);
    }

    /** Rows `T` to `3T` hold exactly when every period's flows split. */
    lemma SplitRowsMeaning(v: seq<real>)
      requires RatesDefined(battery) && |v| == 8 * |prices|
      ensures (forall r :: |prices| <= r < 3 * |prices| ==> EqRowHolds(v, r))
        <==> forall i :: 0 <= i < |prices| ==> FlowsSplit(v, i)
    {
      if forall r :: |prices| <= r < 3 * |prices| ==> EqRowHolds(v, r) {
        SplitRowsGiveFlows(v);
      }
      if forall i :: 0 <= i < |prices| ==> FlowsSplit(v, i) {
        FlowsGiveSplitRows(v);
      }
    }

    lemma SplitRowsGiveFlows(v: seq<real>)
      requires RatesDefined(battery) && |v| == 8 * |prices|
      requires forall r :: |prices| <= r < 3 * |prices| ==> EqRowHolds(v, r)
      ensures forall i :: 0 <= i < |prices| ==> FlowsSplit(v, i)
    {
      var T := |prices|;
      forall i | 0 <= i < T
        ensures FlowsSplit(v, i)
      {
        assert EqRowHolds(v, T + i) && EqRowHolds(v, 2 * T + i);
        FlowRowsMeaning(v, i);
      }
    }

    lemma FlowsGiveSplitRows(v: seq<real>)
      requires RatesDefined(battery) && |v| == 8 * |prices|
      requires forall i :: 0 <= i < |prices| ==> FlowsSplit(v, i)
      ensures forall r :: |prices| <= r < 3 * |prices| ==> EqRowHolds(v, r)
    {
      var T := |prices|;
      forall r | T <= r < 3 * T
        ensures EqRowHolds(v, r)
      {
        if r < 2 * T {
          ChargeSplitRowValue(v, r);
          assert FlowsSplit(v, r - T);
        } else {
          DischargeSplitRowValue(v, r);
          assert FlowsSplit(v, r - 2 * T);
        }
      }
    }

    /**
     * The grid-ban rows hold exactly when the total sold to the grid is 0
     * where selling is banned, and the total bought from it is 0 where
     * buying is banned.
     */
    lemma GridRowsMeaning(v: seq<real>)
      requires |v| == 8 * |prices|
      ensures var T := |prices|;
        SatisfiesEq(GridRows(), Zeros(|GridRows()|), v)
        <==> (!allowGridDischarge ==> Sum(v[0..T]) == 0.0) && (!allowGridCharge ==> Sum(v[2 * T..3 * T]) == 0.0)
    {
      var T := |prices|;
      var sell, buy := SellBanRows(), BuyBanRows();
      assert Zeros(|GridRows()|) == Zeros(|sell|) + Zeros(|buy|);
      SatisfiesEqAppend(sell, Zeros(|sell|), buy, Zeros(|buy|), v);
      if !allowGridDischarge {
        assert Zeros(|sell|) == [0.0];
        SatisfiesEqSingle(Indicator(8 * T, 0, T), 0.0, v);
        DotIndicator(8 * T, 0, T, v);
      }
      if !allowGridCharge {
        assert Zeros(|buy|) == [0.0];
        SatisfiesEqSingle(Indicator(8 * T, 2 * T, T), 0.0, v);
        DotIndicator(8 * T, 2 * T, T, v);
      }
    }

    /**
     * The equality system holds at `v` exactly when the recurrence holds,
     * every period's flows split, and the banned grid directions carry
     * nothing in total.
     */
    lemma EqRowsMeaning(v: seq<real>)
      requires RatesDefined(battery) && |v| == 8 * |prices|
      ensures var T := |prices|;
        SatisfiesEq(EqLhs(), EqRhs(), v)
        <==> && Recurrence(v)
             && (forall i :: 0 <= i < T ==> FlowsSplit(v, i))
             && (!allowGridDischarge ==> Sum(v[0..T]) == 0.0)
             && (!allowGridCharge ==> Sum(v[2 * T..3 * T]) == 0.0)
    {
      SatisfiesEqAppend(EqBlock(), EqBlockBounds(), GridRows(), Zeros(|GridRows()|), v);
      EqBlockMeaning(v);
      GridRowsMeaning(v);
    }

    /** The first `3T` rows hold exactly when the recurrence holds and every period's flows split. */
    lemma EqBlockMeaning(v: seq<real>)
      requires RatesDefined(battery) && |v| == 8 * |prices|
      ensures SatisfiesEq(EqBlock(), EqBlockBounds(), v)
        <==> Recurrence(v) && forall i :: 0 <= i < |prices| ==> FlowsSplit(v, i)
    {
      var T := |prices|;
      if SatisfiesEq(EqBlock(), EqBlockBounds(), v) {
        forall r | 0 <= r < 3 * T
          ensures EqRowHolds(v, r)
        {
          assert EqBlock()[r] == EqRow(r) && EqBlockBounds()[r] == EqBound(r);
        }
      }
      if forall r :: 0 <= r < 3 * T ==> EqRowHolds(v, r) {
        forall r | 0 <= r < 3 * T
          ensures |EqBlock()[r]| == |v| && Dot(EqBlock()[r], v) == EqBlockBounds()[r]
        {
          assert EqRowHolds(v, r);
        }
      }
      SocRowsMeaning(v);
      SplitRowsMeaning(v);
    }

    /**
     * No equality row involves the first state of charge: replacing it by
     * any value keeps the system satisfied or unsatisfied. Only the soc band
     * limits it, which is why the schedule reports the start soc in its place.
     */
    lemma FirstSocFree(v: seq<real>, s: real)
      requires RatesDefined(battery) && |v| == 8 * |prices| && 0 < |prices|
      ensures SatisfiesEq(EqLhs(), EqRhs(), v) <==> SatisfiesEq(EqLhs(), EqRhs(), v[6 * |prices| := s])
    {
      var c := 6 * |prices|;
      forall r | 0 <= r < |EqLhs()|
        ensures Dot(EqLhs()[r], v[c := s]) == Dot(EqLhs()[r], v)
      {
        EqLhsFirstSocZero(r);
        DotPointUpdate(EqLhs()[r], v, c, s);
      }
    }

    /** Every equality row has coefficient 0 on the first state of charge. */
    lemma EqLhsFirstSocZero(r: nat)
      requires RatesDefined(battery) && 0 < |prices| && r < |EqLhs()|
      ensures EqLhs()[r][6 * |prices|] == 0.0
    {
      var T := |prices|;
      if r < 3 * T {
        assert EqLhs()[r] == EqRow(r);
        if r < T {
          EqRowIsSocRow(r);
          SocRowIgnoresFirstSoc(8 * T, T, 6 * T, 4 * T, 5 * T, DischargeCoeff(battery), ChargeEntry(battery), r);
        }
      } else {
        assert EqLhs()[r] == GridRows()[r - 3 * T];
      }
    }

    /** `lhs` and `rhs` hold the first rows of the inequality system. */
    predicate IneqBuilt(lhs: seq<seq<real>>, rhs: seq<real>)
      requires SeriesAligned()
    {
      && |lhs| == |rhs| <= 8 * |prices|
      && lhs == IneqLhs()[..|lhs|]
      && rhs == IneqRhs()[..|rhs|]
    }

    lemma IneqBuiltStep(lhs: seq<seq<real>>, rhs: seq<real>, row: seq<real>, bound: real)
      requires SeriesAligned() && IneqBuilt(lhs, rhs) && |lhs| < 8 * |prices|
      requires row == IneqRow(|lhs|) && bound == IneqBound(|lhs|)
      ensures IneqBuilt(lhs + [row], rhs + [bound])
    {
      var a, b := IneqLhs(), IneqRhs();
      PrefixExtend(a, lhs, row);
      PrefixExtend(b, rhs, bound);
    }

    lemma IneqBuiltComplete(lhs: seq<seq<real>>, rhs: seq<real>)
      requires SeriesAligned() && IneqBuilt(lhs, rhs) && |lhs| == 8 * |prices|
      ensures lhs == IneqLhs() && rhs == IneqRhs()
    {
      assert IneqLhs()[..8 * |prices|] == IneqLhs();
      assert IneqRhs()[..8 * |prices|] == IneqRhs();
    }

    /** Builds the inequality rows: soc limits, flow limits, power limits, then the Big-M pair. */
    method CreateInequalityConstraints() returns (lhs: seq<seq<real>>, rhs: seq<real>)
      requires Valid() && periodsSet
      ensures lhs == IneqLhs() && rhs == IneqRhs()
    {
      lhs, rhs := [], [];
      lhs, rhs := AddSocLimitRows(lhs, rhs);
      lhs, rhs := AddFlowLimitRows(lhs, rhs);
      lhs, rhs := AddPowerLimitRows(lhs, rhs);
      lhs, rhs := AddBigMRows(lhs, rhs);
      IneqBuiltComplete(lhs, rhs);
    }

    /** Appends `soc <= maxSoc`, then `-soc <= -minSoc`, for every period. */
    method AddSocLimitRows(lhs0: seq<seq<real>>, rhs0: seq<real>) returns (lhs: seq<seq<real>>, rhs: seq<real>)
      requires Valid() && periodsSet && IneqBuilt(lhs0, rhs0) && |lhs0| == 0
      ensures IneqBuilt(lhs, rhs) && |lhs| == 2 * T
    {
      var n := 8 * T;
      lhs, rhs := lhs0, rhs0;
      for i := 0 to T
        invariant |lhs| == |rhs| == i
        invariant IneqBuilt(lhs, rhs)
      {
        var row := Zeros(n);
        row := row[6 * T + i := 1.0];
        var bound := battery.maxSoc;
        IneqBuiltStep(lhs, rhs, row, bound);
        lhs, rhs := lhs + [row], rhs + [bound];
      }
      for i := 0 to T
        invariant |lhs| == |rhs| == T + i
        invariant IneqBuilt(lhs, rhs)
      {
        var row := Zeros(n);
        row := row[6 * T + i := -1.0];
        var bound := -battery.minSoc;
        IneqBuiltStep(lhs, rhs, row, bound);
        lhs, rhs := lhs + [row], rhs + [bound];
      }
    }

    /** Appends `zy <= feed-in`, then `zx <= usage`, for every period. */
    method AddFlowLimitRows(lhs0: seq<seq<real>>, rhs0: seq<real>) returns (lhs: seq<seq<real>>, rhs: seq<real>)
      requires Valid() && periodsSet && IneqBuilt(lhs0, rhs0) && |lhs0| == 2 * T
      ensures IneqBuilt(lhs, rhs) && |lhs| == 4 * T
    {
      var n := 8 * T;
      lhs, rhs := lhs0, rhs0;
      for i := 0 to T
        invariant |lhs| == |rhs| == 2 * T + i
        invariant IneqBuilt(lhs, rhs)
      {
        var row := Zeros(n);
        row := row[i + 3 * T := 1.0];
        var bound := electricityFeedin[i];
        IneqBuiltStep(lhs, rhs, row, bound);
        lhs, rhs := lhs + [row], rhs + [bound];
      }
      for i := 0 to T
        invariant |lhs| == |rhs| == 3 * T + i
        invariant IneqBuilt(lhs, rhs)
      {
        var row := Zeros(n);
        row := row[i + T := 1.0];
        var bound := electricityUse[i];
        IneqBuiltStep(lhs, rhs, row, bound);
        lhs, rhs := lhs + [row], rhs + [bound];
      }
    }

    /** Appends the per-period discharge limit, then the charge limit. */
    method AddPowerLimitRows(lhs0: seq<seq<real>>, rhs0: seq<real>) returns (lhs: seq<seq<real>>, rhs: seq<real>)
      requires Valid() && periodsSet && IneqBuilt(lhs0, rhs0) && |lhs0| == 4 * T
      ensures IneqBuilt(lhs, rhs) && |lhs| == 6 * T
    {
      var n := 8 * T;
      lhs, rhs := lhs0, rhs0;
      for i := 0 to T
        invariant |lhs| == |rhs| == 4 * T + i
        invariant IneqBuilt(lhs, rhs)
      {
        var row := Zeros(n);
        row := row[i + 4 * T := 1.0];
        var bound := battery.maxDischargePower * intervalFraction;
        IneqBuiltStep(lhs, rhs, row, bound);
        lhs, rhs := lhs + [row], rhs + [bound];
      }
      for i := 0 to T
        invariant |lhs| == |rhs| == 5 * T + i
        invariant IneqBuilt(lhs, rhs)
      {
        var row := Zeros(n);
        row := row[i + 5 * T := 1.0];
        var bound := battery.maxChargePower * intervalFraction;
        IneqBuiltStep(lhs, rhs, row, bound);
        lhs, rhs := lhs + [row], rhs + [bound];
      }
    }

    /** Appends `x + M z <= M`, then `y - M z <= 0`, for every period. */
    method AddBigMRows(lhs0: seq<seq<real>>, rhs0: seq<real>) returns (lhs: seq<seq<real>>, rhs: seq<real>)
      requires Valid() && periodsSet && IneqBuilt(lhs0, rhs0) && |lhs0| == 6 * T
      ensures IneqBuilt(lhs, rhs) && |lhs| == 8 * T
    {
      var n := 8 * T;
      lhs, rhs := lhs0, rhs0;
      for i := 0 to T
        invariant |lhs| == |rhs| == 6 * T + i
        invariant IneqBuilt(lhs, rhs)
      {
        var row := Zeros(n);
        row := row[i + 7 * T := BigM];
        row := row[i + 4 * T := 1.0];
        var bound := BigM;
        IneqBuiltStep(lhs, rhs, row, bound);
        lhs, rhs := lhs + [row], rhs + [bound];
      }
      for i := 0 to T
        invariant |lhs| == |rhs| == 7 * T + i
        invariant IneqBuilt(lhs, rhs)
      {
        var row := Zeros(n);
        row := row[i + 7 * T := -BigM];
        row := row[i + 5 * T := 1.0];
        var bound := 0.0;
        IneqBuiltStep(lhs, rhs, row, bound);
        lhs, rhs := lhs + [row], rhs + [bound];
      }
    }

    /** `lhs` and `rhs` hold the first rows of the equality system. */
    predicate EqBuilt(lhs: seq<seq<real>>, rhs: seq<real>)
      requires RatesDefined(battery)
    {
      && |lhs| == |rhs| <= |EqLhs()|
      && lhs == EqLhs()[..|lhs|]
      && rhs == EqRhs()[..|rhs|]
    }

    lemma EqBuiltStep(lhs: seq<seq<real>>, rhs: seq<real>, row: seq<real>, bound: real)
      requires RatesDefined(battery) && EqBuilt(lhs, rhs) && |lhs| < |EqLhs()|
      requires row == EqLhs()[|lhs|] && bound == EqRhs()[|lhs|]
      ensures EqBuilt(lhs + [row], rhs + [bound])
    {
      var a, b := EqLhs(), EqRhs();
      PrefixExtend(a, lhs, row);
      PrefixExtend(b, rhs, bound);
    }

    lemma EqBuiltComplete(lhs: seq<seq<real>>, rhs: seq<real>)
      requires RatesDefined(battery) && EqBuilt(lhs, rhs) && |lhs| == |EqLhs()|
      ensures lhs == EqLhs() && rhs == EqRhs()
    {
      assert EqLhs()[..|lhs|] == EqLhs();
      assert EqRhs()[..|rhs|] == EqRhs();
    }

    /** Builds the equality rows: the soc recurrence, the two flow splits, then the optional grid bans. */
    method CreateEqualityConstraints() returns (lhs: seq<seq<real>>, rhs: seq<real>)
      requires Valid() && periodsSet && RatesDefined(battery)
      ensures lhs == EqLhs() && rhs == EqRhs()
    {
      lhs, rhs := [], [];
      lhs, rhs := AddSocRecurrenceRows(lhs, rhs);
      lhs, rhs := AddFlowSplitRows(lhs, rhs);
      lhs, rhs := AddGridBanRows(lhs, rhs);
      EqBuiltComplete(lhs, rhs);
    }

    /**
     * Appends one recurrence row per period, anchored at the start soc and
     * the end soc; a single period gets the one row that holds both anchors.
     */
    method AddSocRecurrenceRows(lhs0: seq<seq<real>>, rhs0: seq<real>) returns (lhs: seq<seq<real>>, rhs: seq<real>)
      requires Valid() && periodsSet && RatesDefined(battery) && EqBuilt(lhs0, rhs0) && |lhs0| == 0
      ensures EqBuilt(lhs, rhs) && |lhs| == T
    {
      lhs, rhs := lhs0, rhs0;
      for i := 0 to T
        invariant |lhs| == |rhs| == i
        invariant EqBuilt(lhs, rhs)
      {
        var row, bound := SocRecurrenceRow(i);
        assert EqLhs()[i] == EqRow(i);
        EqBuiltStep(lhs, rhs, row, bound);
        lhs, rhs := lhs + [row], rhs + [bound];
      }
    }

    /**
     * The recurrence row of period `i` and its right-hand side: the first
     * row links the start soc to the next, the middle rows link consecutive
     * socs, the last links the last soc to the end soc.
     */
    method SocRecurrenceRow(i: nat) returns (row: seq<real>, bound: real)
      requires Valid() && periodsSet && RatesDefined(battery) && i < T
      ensures row == SocRow(8 * T, T, 6 * T, 4 * T, 5 * T, DischargeCoeff(battery), ChargeEntry(battery), i)
      ensures bound == SocBound(T, startSoc, endSoc, i)
    {
      var n := 8 * T;
      var dischargeEntry := 1.0 / (battery.batterySize * battery.efficiency);
      var chargeEntry := -1.0 / battery.batterySize;
      assert dischargeEntry == DischargeCoeff(battery) && chargeEntry == ChargeEntry(battery);
      row := Zeros(n);
      if T == 1 {
        row := row[4 * T + i := dischargeEntry];
        row := row[5 * T + i := chargeEntry];
        bound := startSoc - endSoc;
      } else if i == 0 {
        row := row[6 * T + i + 1 := 1.0];
        row := row[4 * T + i := dischargeEntry];
        row := row[5 * T + i := chargeEntry];
        bound := startSoc;
      } else if i < T - 1 {
        row := row[6 * T + i := -1.0];
        row := row[6 * T + i + 1 := 1.0];
        row := row[4 * T + i := dischargeEntry];
        row := row[5 * T + i := chargeEntry];
        bound := 0.0;
      } else {
        row := row[6 * T + i := -1.0];
        row := row[4 * T + i := dischargeEntry];
        row := row[5 * T + i := chargeEntry];
        bound := -endSoc;
      }
    }

    /** Appends `gy + zy - y = 0`, then `gx + zx - x = 0`, for every period. */
    method AddFlowSplitRows(lhs0: seq<seq<real>>, rhs0: seq<real>) returns (lhs: seq<seq<real>>, rhs: seq<real>)
      requires Valid() && periodsSet && RatesDefined(battery) && EqBuilt(lhs0, rhs0) && |lhs0| == T
      ensures EqBuilt(lhs, rhs) && |lhs| == 3 * T
    {
      lhs, rhs := AddChargeSplitRows(lhs0, rhs0);
      lhs, rhs := AddDischargeSplitRows(lhs, rhs);
    }

    /** Appends `gy + zy - y = 0` for every period. */
    method AddChargeSplitRows(lhs0: seq<seq<real>>, rhs0: seq<real>) returns (lhs: seq<seq<real>>, rhs: seq<real>)
      requires Valid() && periodsSet && RatesDefined(battery) && EqBuilt(lhs0, rhs0) && |lhs0| == T
      ensures EqBuilt(lhs, rhs) && |lhs| == 2 * T
    {
      var n := 8 * T;
      lhs, rhs := lhs0, rhs0;
      for i := 0 to T
        invariant |lhs| == |rhs| == T + i
        invariant EqBuilt(lhs, rhs)
      {
        var row := Zeros(n);
        row := row[i + 2 * T := 1.0];
        row := row[i + 3 * T := 1.0];
        row := row[i + 5 * T := -1.0];
        assert EqLhs()[T + i] == EqRow(T + i);
        EqBuiltStep(lhs, rhs, row, 0.0);
        lhs, rhs := lhs + [row], rhs + [0.0];
      }
    }

    /** Appends `gx + zx - x = 0` for every period. */
    method AddDischargeSplitRows(lhs0: seq<seq<real>>, rhs0: seq<real>) returns (lhs: seq<seq<real>>, rhs: seq<real>)
      requires Valid() && periodsSet && RatesDefined(battery) && EqBuilt(lhs0, rhs0) && |lhs0| == 2 * T
      ensures EqBuilt(lhs, rhs) && |lhs| == 3 * T
    {
      var n := 8 * T;
      lhs, rhs := lhs0, rhs0;
      for i := 0 to T
        invariant |lhs| == |rhs| == 2 * T + i
        invariant EqBuilt(lhs, rhs)
      {
        var row := Zeros(n);
        row := row[i := 1.0];
        row := row[i + T := 1.0];
        row := row[i + 4 * T := -1.0];
        assert EqLhs()[2 * T + i] == EqRow(2 * T + i);
        EqBuiltStep(lhs, rhs, row, 0.0);
        lhs, rhs := lhs + [row], rhs + [0.0];
      }
    }

    /** Appends `sum(gx) = 0` unless grid discharge is allowed, then `sum(gy) = 0` unless grid charge is allowed. */
    method AddGridBanRows(lhs0: seq<seq<real>>, rhs0: seq<real>) returns (lhs: seq<seq<real>>, rhs: seq<real>)
      requires Valid() && periodsSet && RatesDefined(battery) && EqBuilt(lhs0, rhs0) && |lhs0| == 3 * T
      ensures EqBuilt(lhs, rhs) && |lhs| == |EqLhs()|
    {
      var n := 8 * T;
      lhs, rhs := lhs0, rhs0;
      if !allowGridDischarge {
        var row := Zeros(n);
        for i := 0 to T
          invariant |row| == n
          invariant forall j :: 0 <= j < n ==> row[j] == if j < i then 1.0 else 0.0
        {
          row := row[i := 1.0];
        }
        assert row == Indicator(n, 0, T);
        EqBuiltStep(lhs, rhs, row, 0.0);
        lhs, rhs := lhs + [row], rhs + [0.0];
      }
      if !allowGridCharge {
        var row := Zeros(n);
        for i := 0 to T
          invariant |row| == n
          invariant forall j :: 0 <= j < n ==> row[j] == if 2 * T <= j < 2 * T + i then 1.0 else 0.0
        {
          row := row[i + 2 * T := 1.0];
        }
        assert row == Indicator(n, 2 * T, T);
        EqBuiltStep(lhs, rhs, row, 0.0);
        lhs, rhs := lhs + [row], rhs + [0.0];
      }
    }

    /**
     * Fixes the horizon, builds the program and hands it to `solver`. A
     * successful result is kept; a failed one leaves no result at all.
     */
    method LPOptimize(solver: Milp -> SolverResult)
      requires Valid() && CutoffRateDefined(battery) && SolverSound(solver)
      modifies this
      ensures Valid() && periodsSet && T == |prices|
      ensures yieldInPeriod == old(yieldInPeriod)
      ensures var res := solver(Problem());
        opt == if res.success then Some(res.x) else None
      ensures opt.Some? ==> Feasible(Problem(), opt.value) && Solved()
    {
      T := |prices|;
      periodsSet := true;
      CutoffRateDefinedRates(battery);
      var c := Objective(prices, pricesTax, CutoffRate(battery, cutoff));
      var aUb, bUb := CreateInequalityConstraints();
      var aEq, bEq := CreateEqualityConstraints();
      var integrality := IntegralityMask(7 * T, T);
      var res := solver(Milp(c, aUb, bUb, aEq, bEq, integrality));
      if res.success {
        opt := Some(res.x);
      } else {
        opt := None;
      }
    }

    /** The solver's point, once a solve has succeeded and the point is feasible. */
    predicate Solved()
      reads this`T, this`periodsSet, this`opt
    {
      && Valid() && periodsSet && CutoffRateDefined(battery) && RatesDefined(battery)
      && opt.Some? && Feasible(Problem(), opt.value)
    }

    /** Energy sold to the grid per period; all zero without a solution. */
    function GridDischarges(): (r: seq<real>)
      reads this`T, this`periodsSet, this`opt
      requires Valid() && periodsSet
      ensures |r| == T
      ensures opt.None? ==> r == Zeros(T)
    {
      if opt.None? then Zeros(T) else opt.value[..T]
    }

    /** Energy discharged for the household's own use per period; all zero without a solution. */
    function SelfuseDischarges(): (r: seq<real>)
      reads this`T, this`periodsSet, this`opt
      requires Valid() && periodsSet
      ensures |r| == T
      ensures opt.None? ==> r == Zeros(T)
    {
      if opt.None? then Zeros(T) else opt.value[T..2 * T]
    }

    /** Energy bought from the grid to charge per period; all zero without a solution. */
    function GridCharges(): (r: seq<real>)
      reads this`T, this`periodsSet, this`opt
      requires Valid() && periodsSet
      ensures |r| == T
      ensures opt.None? ==> r == Zeros(T)
    {
      if opt.None? then Zeros(T) else opt.value[2 * T..3 * T]
    }

    /** Solar feed-in stored instead of sold, per period; all zero without a solution. */
    function SolarCharges(): (r: seq<real>)
      reads this`T, this`periodsSet, this`opt
      requires Valid() && periodsSet
      ensures |r| == T
      ensures opt.None? ==> r == Zeros(T)
    {
      if opt.None? then Zeros(T) else opt.value[3 * T..4 * T]
    }

    /** Total discharge per period; all zero without a solution. */
    function Discharges(): (r: seq<real>)
      reads this`T, this`periodsSet, this`opt
      requires Valid() && periodsSet
      ensures |r| == T
      ensures opt.None? ==> r == Zeros(T)
    {
      if opt.None? then Zeros(T) else opt.value[4 * T..5 * T]
    }

    /** Total charge per period; all zero without a solution. */
    function Charges(): (r: seq<real>)
      reads this`T, this`periodsSet, this`opt
      requires Valid() && periodsSet
      ensures |r| == T
      ensures opt.None? ==> r == Zeros(T)
    {
      if opt.None? then Zeros(T) else opt.value[5 * T..6 * T]
    }

    /**
     * The state of charge per period, the first replaced by the start
     * value because no row constrains it; all zero without a solution.
     * An empty solved horizon has no first entry to replace.
     */
    function Socs(): (r: seq<real>)
      reads this`T, this`periodsSet, this`opt
      requires Valid() && periodsSet && (opt.Some? ==> T > 0)
      ensures |r| == T
      ensures opt.None? ==> r == Zeros(T)
      ensures opt.Some? ==> r[0] == startSoc && forall i :: 0 < i < T ==> r[i] == opt.value[6 * T + i]
    {
      if opt.None? then Zeros(T) else opt.value[6 * T..7 * T][0 := startSoc]
    }

    /** The household's cost over the horizon without a battery, term by term rounded to 6 places. */
    function OriginalCost(): real
      requires SeriesAligned()
    {
      OriginalCostUpTo(electricityUse, electricityFeedin, prices, pricesTax, |prices|)
    }

    /**
     * The yield of the schedule (the cost it saves) and the total cost with
     * the battery. Without a solution the yield is 0, the total is the
     * original cost and the stored yield is left as it was; with one, the
     * yield is minus the extra cost of the four flows and is stored.
     */
    method ComputeYield() returns (periodYield: real, totalCost: real)
      requires Valid() && periodsSet
      modifies this`yieldInPeriod
      ensures opt.None? ==> periodYield == 0.0 && totalCost == OriginalCost() && yieldInPeriod == old(yieldInPeriod)
      ensures opt.Some? ==>
        && periodYield == -ExtraCost(GridDischarges(), SelfuseDischarges(), GridCharges(), SolarCharges(), prices, pricesTax)
        && totalCost == OriginalCost() - periodYield
        && yieldInPeriod == Some(periodYield)
    {
      if opt.None? {
        var origCost := 0.0;
        for i := 0 to T
          invariant origCost == OriginalCostUpTo(electricityUse, electricityFeedin, prices, pricesTax, i)
          invariant yieldInPeriod == old(yieldInPeriod)
        {
          var term := BaselineTerm(electricityUse, electricityFeedin, prices, pricesTax, i);
          OriginalCostStep(electricityUse, electricityFeedin, prices, pricesTax, i);
          origCost := origCost + term;
        }
        return 0.0, origCost;
      }
      var gridDischarge := GridDischarges();
      var selfuseDischarge := SelfuseDischarges();
      var gridCharge := GridCharges();
      var solarCharge := SolarCharges();
      var extraCost := 0.0;
      var origCost := 0.0;
      for i := 0 to T
        invariant extraCost == ExtraCostUpTo(gridDischarge, selfuseDischarge, gridCharge, solarCharge, prices, pricesTax, i)
        invariant origCost == OriginalCostUpTo(electricityUse, electricityFeedin, prices, pricesTax, i)
        invariant yieldInPeriod == old(yieldInPeriod)
      {
        var extra := ExtraTerm(gridDischarge, selfuseDischarge, gridCharge, solarCharge, prices, pricesTax, i);
        var term := BaselineTerm(electricityUse, electricityFeedin, prices, pricesTax, i);
        ExtraCostStep(gridDischarge, selfuseDischarge, gridCharge, solarCharge, prices, pricesTax, i);
        OriginalCostStep(electricityUse, electricityFeedin, prices, pricesTax, i);
        extraCost, origCost := extraCost + extra, origCost + term;
      }
      yieldInPeriod := Some(-extraCost);
      periodYield, totalCost := -extraCost, origCost + extraCost;
    }

    /**
     * The points the solver may return are exactly the non-negative points
     * with whole-number flags whose periods keep to their limits and split
     * their flows, that follow the recurrence and that keep to the grid bans.
     */
    lemma ProblemMeaning(v: seq<real>)
      requires SeriesAligned() && CutoffRateDefined(battery) && RatesDefined(battery)
      ensures var T := |prices|;
        Feasible(Problem(), v)
        <==> && |v| == 8 * T
             && (forall j :: 0 <= j < |v| ==> 0.0 <= v[j])
             && (forall j :: 7 * T <= j < |v| ==> IsInteger(v[j]))
             && (forall i :: 0 <= i < T ==> WithinLimits(v, i) && FlowsSplit(v, i))
             && Recurrence(v)
             && (!allowGridDischarge ==> Sum(v[0..T]) == 0.0)
             && (!allowGridCharge ==> Sum(v[2 * T..3 * T]) == 0.0)
    {
      var T := |prices|;
      if |v| == 8 * T {
        IneqRowsMeaning(v);
        EqRowsMeaning(v);
        assert Problem().integrality == IntegralityMask(7 * T, T);
        MaskedIntegral(7 * T, T, v);
      }
    }

    /** What feasibility says about the solver's point, block by block. */
    lemma SolvedPoint()
      requires Solved()
      ensures var v := opt.value;
        && T == |prices| && |v| == 8 * T
        && (forall j :: 0 <= j < |v| ==> 0.0 <= v[j])
        && (forall j :: 7 * T <= j < 8 * T ==> IsInteger(v[j]))
        && (forall i :: 0 <= i < T ==> WithinLimits(v, i) && FlowsSplit(v, i))
        && Recurrence(v)
        && (!allowGridDischarge ==> Sum(v[0..T]) == 0.0)
        && (!allowGridCharge ==> Sum(v[2 * T..3 * T]) == 0.0)
    {
      var v := opt.value;
      IneqRowsMeaning(v);
      EqRowsMeaning(v);
      assert Problem().integrality == IntegralityMask(7 * T, T);
    }

    /** In a solved schedule every flow is non-negative and total charge and discharge split into their parts. */
    lemma SolvedFlowsSplit()
      requires Solved()
      ensures forall i :: 0 <= i < T ==>
        && 0.0 <= GridDischarges()[i] && 0.0 <= SelfuseDischarges()[i]
        && 0.0 <= GridCharges()[i] && 0.0 <= SolarCharges()[i]
        && Charges()[i] == GridCharges()[i] + SolarCharges()[i]
        && Discharges()[i] == GridDischarges()[i] + SelfuseDischarges()[i]
    {
      SolvedPoint();
      var v := opt.value;
      BlockFlows(v);
      assert GridDischarges() == v[..T] && SelfuseDischarges() == v[T..2 * T];
      assert GridCharges() == v[2 * T..3 * T] && SolarCharges() == v[3 * T..4 * T];
      assert Discharges() == v[4 * T..5 * T] && Charges() == v[5 * T..6 * T];
    }

    /** The flows of every period, read on the blocks of `v`. */
    lemma BlockFlows(v: seq<real>)
      requires |v| == 8 * |prices|
      requires forall j :: 0 <= j < |v| ==> 0.0 <= v[j]
      requires forall i :: 0 <= i < |prices| ==> FlowsSplit(v, i)
      ensures var n := |prices|;
        forall i :: 0 <= i < n ==>
          && 0.0 <= v[..n][i] && 0.0 <= v[n..2 * n][i] && 0.0 <= v[2 * n..3 * n][i] && 0.0 <= v[3 * n..4 * n][i]
          && v[5 * n..6 * n][i] == v[2 * n..3 * n][i] + v[3 * n..4 * n][i]
          && v[4 * n..5 * n][i] == v[..n][i] + v[n..2 * n][i]
    {
      var n := |prices|;
      forall i | 0 <= i < n
        ensures && 0.0 <= v[..n][i] && 0.0 <= v[n..2 * n][i] && 0.0 <= v[2 * n..3 * n][i] && 0.0 <= v[3 * n..4 * n][i]
                && v[5 * n..6 * n][i] == v[2 * n..3 * n][i] + v[3 * n..4 * n][i]
                && v[4 * n..5 * n][i] == v[..n][i] + v[n..2 * n][i]
      {
        assert FlowsSplit(v, i);
        assert 0.0 <= v[i] && 0.0 <= v[n + i] && 0.0 <= v[2 * n + i] && 0.0 <= v[3 * n + i];
      }
    }

    /**
     * A solved schedule keeps to the limits: solar charge within feed-in,
     * self-use within usage, discharge and charge within the power limits
     * over one period, and every state of charge after the first inside
     * the battery's band.
     */
    lemma SolvedWithinLimits()
      requires Solved()
      ensures forall i :: 0 <= i < T ==>
        && SolarCharges()[i] <= electricityFeedin[i]
        && SelfuseDischarges()[i] <= electricityUse[i]
        && Discharges()[i] <= battery.maxDischargePower * intervalFraction
        && Charges()[i] <= battery.maxChargePower * intervalFraction
        && (0 < i ==> battery.minSoc <= Socs()[i] <= battery.maxSoc)
    {
      SolvedPoint();
      var v := opt.value;
      BlockLimits(v);
      assert SolarCharges() == v[3 * T..4 * T] && SelfuseDischarges() == v[T..2 * T];
      assert Discharges() == v[4 * T..5 * T] && Charges() == v[5 * T..6 * T];
      assert forall i :: 0 < i < T ==> Socs()[i] == v[6 * T..7 * T][i];
    }

    /** The limits of every period, read on the blocks of `v`. */
    lemma BlockLimits(v: seq<real>)
      requires SeriesAligned() && |v| == 8 * |prices|
      requires forall i :: 0 <= i < |prices| ==> WithinLimits(v, i)
      ensures var n := |prices|;
        forall i :: 0 <= i < n ==>
          && v[3 * n..4 * n][i] <= electricityFeedin[i]
          && v[n..2 * n][i] <= electricityUse[i]
          && v[4 * n..5 * n][i] <= battery.maxDischargePower * intervalFraction
          && v[5 * n..6 * n][i] <= battery.maxChargePower * intervalFraction
          && battery.minSoc <= v[6 * n..7 * n][i] <= battery.maxSoc
    {
      var n := |prices|;
      forall i | 0 <= i < n
        ensures && v[3 * n..4 * n][i] <= electricityFeedin[i]
                && v[n..2 * n][i] <= electricityUse[i]
                && v[4 * n..5 * n][i] <= battery.maxDischargePower * intervalFraction
                && v[5 * n..6 * n][i] <= battery.maxChargePower * intervalFraction
                && battery.minSoc <= v[6 * n..7 * n][i] <= battery.maxSoc
      {
        assert WithinLimits(v, i);
      }
    }

    /** A banned grid direction carries nothing in any period of a solved schedule. */
    lemma SolvedGridBans()
      requires Solved()
      ensures !allowGridDischarge ==> GridDischarges() == Zeros(T)
      ensures !allowGridCharge ==> GridCharges() == Zeros(T)
    {
      SolvedPoint();
      var v := opt.value;
      if !allowGridDischarge {
        assert v[0..T] == GridDischarges();
        ZeroSumOfNonNegative(v[0..T]);
      }
      if !allowGridCharge {
        assert v[2 * T..3 * T] == GridCharges();
        ZeroSumOfNonNegative(v[2 * T..3 * T]);
      }
    }

    /** A solved schedule never charges and discharges in the same period. */
    lemma SolvedNeverChargesWhileDischarging()
      requires Solved()
      ensures forall i :: 0 <= i < T ==> Discharges()[i] == 0.0 || Charges()[i] == 0.0
    {
      SolvedPoint();
      var v := opt.value;
      BlockExclusive(v);
      assert Discharges() == v[4 * T..5 * T] && Charges() == v[5 * T..6 * T];
    }

    /** No period of `v` both charges and discharges, given the Big-M rows, the bounds and an integral flag. */
    lemma BlockExclusive(v: seq<real>)
      requires SeriesAligned() && |v| == 8 * |prices|
      requires forall j :: 0 <= j < |v| ==> 0.0 <= v[j]
      requires forall j :: 7 * |prices| <= j < 8 * |prices| ==> IsInteger(v[j])
      requires forall i :: 0 <= i < |prices| ==> WithinLimits(v, i)
      ensures var n := |prices|;
        forall i :: 0 <= i < n ==> v[4 * n..5 * n][i] == 0.0 || v[5 * n..6 * n][i] == 0.0
    {
      var n := |prices|;
      forall i | 0 <= i < n
        ensures v[4 * n..5 * n][i] == 0.0 || v[5 * n..6 * n][i] == 0.0
      {
        assert WithinLimits(v, i);
        assert IsInteger(v[7 * n + i]);
        BigMExclusive(v[4 * n + i], v[5 * n + i], v[7 * n + i], BigM);
      }
    }

    /**
     * The reported states of charge follow the recurrence from the start soc
     * to the end soc, and over the horizon the end soc is the start soc plus
     * what was charged minus what was discharged, each scaled.
     */
    lemma SolvedTrajectory()
      requires Solved() && 0 < T
      ensures SocTrajectory(Socs(), Discharges(), Charges(), startSoc, endSoc, ChargeCoeff(battery), DischargeCoeff(battery))
      ensures endSoc == startSoc + ChargeCoeff(battery) * Sum(Charges()) - DischargeCoeff(battery) * Sum(Discharges())
    {
      SolvedRecurrence();
      ReportedStorage();
      var v := opt.value;
      var cc, dc := ChargeCoeff(battery), DischargeCoeff(battery);
      var socs, xs, ys := v[6 * T..7 * T], v[4 * T..5 * T], v[5 * T..6 * T];
      TrajectoryIgnoresFirstSoc(socs, xs, ys, startSoc, endSoc, cc, dc, startSoc);
      TelescopedEnd(socs[0 := startSoc], xs, ys, startSoc, endSoc, cc, dc);
    }

    /** A solved point follows the recurrence. */
    lemma SolvedRecurrence()
      requires Solved()
      ensures T == |prices| && |opt.value| == 8 * T && Recurrence(opt.value)
    {
      SolvedPoint();
    }

    /** A solved point's reported discharges, charges and states of charge are read from its blocks. */
    lemma ReportedStorage()
      requires Valid() && periodsSet && opt.Some? && 0 < T
      ensures var v := opt.value;
        && Discharges() == v[4 * T..5 * T] && Charges() == v[5 * T..6 * T]
        && Socs() == v[6 * T..7 * T][0 := startSoc]
    {
    }

    /**
     * The solver minimises the extra energy cost of the flows plus the
     * cutoff rate on the total discharge, that is, minus the yield that
     * `ComputeYield` reports plus the cutoff penalty.
     */
    lemma SolvedObjective()
      requires Valid() && periodsSet && opt.Some? && CutoffRateDefined(battery)
      ensures Dot(Objective(prices, pricesTax, CutoffRate(battery, cutoff)), opt.value)
        == ExtraCost(GridDischarges(), SelfuseDischarges(), GridCharges(), SolarCharges(), prices, pricesTax)
           + CutoffRate(battery, cutoff) * Sum(Discharges())
    {
      ReportedFlows();
      ObjectiveAtFlows(prices, pricesTax, CutoffRate(battery, cutoff), opt.value,
        GridDischarges(), SelfuseDischarges(), GridCharges(), SolarCharges(), Discharges());
    }

    /** A solved point's reported flows are its first five blocks. */
    lemma ReportedFlows()
      requires Valid() && periodsSet && opt.Some?
      ensures var v, n := opt.value, |prices|;
        && T == n && |v| == 8 * n
        && GridDischarges() == v[..n] && SelfuseDischarges() == v[n..2 * n]
        && GridCharges() == v[2 * n..3 * n] && SolarCharges() == v[3 * n..4 * n]
        && Discharges() == v[4 * n..5 * n]
    {
    }
  }
}
