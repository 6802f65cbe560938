# Residential battery scheduling on day-ahead prices: a Dafny model

This project models the scheduling core of `residential_battery_control`. Two
schedulers decide, period by period over a horizon of `T` periods, how much a
household battery charges and discharges. Each one builds a mixed-integer
linear program, hands it to a solver, and reads a schedule and a yield back
from the solver's point.

- **Battery** (`battery.py`): the static description of a battery. The
  state-of-charge band is clamped into `[0, 1)` and `(0, 1]`. The power per
  kWh ratios are rounded to three decimals. Modelled in module `BatterySpec`.
- **General scheduler** (`epex_optimizer.py`, class `EpexOptimizer`):
  - It works with separate buy and sell prices. The buy price is taxed.
  - It has eight variable blocks: grid discharge, self-use discharge, grid
    charge, solar charge, total discharge, total charge, state of charge,
    and an integral no-discharge flag.
  - Constraints: state-of-charge limits, feed-in and usage limits, and
    power limits scaled by the period length. A Big-M pair keeps charging
    and discharging apart. The recurrence runs from the start to the end
    state of charge. The flows split into grid and household parts. Two
    optional rows ban selling to or buying from the grid.
  - Modelled in module `EpexTariff`.
- **Net-metering scheduler** (`epex_optimizer_nm.py`, class
  `EpexOptimizerNM`):
  - Every kWh is settled at the one market price.
  - It has four blocks: discharge, charge, state of charge, flag.
  - Its accessors report amounts rounded to four places. Discharges are
    made non-negative first.
  - Modelled in module `EpexNetMetering`.

Both schedulers are classes whose solve step stores the solver's answer (or
none) in a field. Their yield computation adds up the periods in a loop and
stores the result. Both are Dafny classes here:
- `LPOptimize` modifies the stored answer.
- `ComputeYield` modifies the stored yield. Its loop is proved against a
  recursive specification function.

The constraint builders append rows in loops, as the source does. Each
builder method is proved to produce exactly the rows of a specification
function (`IneqLhs`, `IneqRhs`, `EqLhs`, `EqRhs`). A builder method holds
one group of the source's loops.

The solver is a parameter, `solver: Milp -> SolverResult`. The schedule
lemmas assume only that a reported success comes with a feasible point.
Feasible means:
- the solver's default bound `v >= 0` holds;
- the flags are integral;
- both constraint systems hold.

Shared pieces:
- Module `Milp`: dense rows, dot products and sums, feasibility.
- Module `StorageRows`: the recurrence rows and the Big-M rows, which both
  schedulers write the same way.
- Module `Rounding`: Python's `round` on exact values. The result is the
  nearest multiple of `10^-digits`, with ties going to the even multiple.

The main results:
- Each constraint system is characterised exactly, in both directions. The
  inequality rows hold exactly when every period keeps to its limits. The
  equality rows hold exactly when the state-of-charge recurrence holds, the
  flows split, and the banned grid directions carry nothing.
- A solved schedule never charges and discharges in the same period.
- The reported states of charge follow the recurrence.
- Over the horizon, the end state of charge is the start value plus the
  scaled charges minus the scaled discharges.
- The solver's objective is the yield's negation plus the cutoff penalty on
  total discharge.

Three points where the code is followed as written:
- The cutoff penalty is charged on the total discharge, not on the state of
  charge.
- The net-metering power limits apply per period as they are, with no
  interval fraction.
- The horizon-chaining operation is documented but never defined, so it is
  absent.

## Model

| member | source | states |
|---|---|---|
| `Rounding.NearestEven` | residential_battery_control/battery.py:29-30 | the integer chosen is within one half of its argument, equals it when it is whole, is even when the argument lies exactly halfway between two integers, and is non-negative for a non-negative argument |
| `Rounding.Round` | residential_battery_control/battery.py:29-30 | Python's `round(x, d)` on exact reals: the nearest multiple of `10^-d`, ties to the even multiple; its properties are the lemmas in the rows below |
| `Rounding.RoundClose` | residential_battery_control/battery.py:29-30 | `round(x, d)` lies within half a unit of the `d`-th decimal of `x` |
| `Rounding.RoundSteps` | residential_battery_control/battery.py:29-30 | a value that already has `d` decimals is left unchanged by `round(·, d)` |
| `Rounding.RoundIdempotent` | residential_battery_control/epex_optimizer_nm.py:90 | rounding twice to the same number of places equals rounding once |
| `Rounding.RoundNonNegative` | residential_battery_control/epex_optimizer_nm.py:95 | a non-negative value never rounds to a negative one |
| `Rounding.RoundZero` | residential_battery_control/epex_optimizer_nm.py:90 | zero rounds to zero |
| `Rounding.NearestEvenTie` | residential_battery_control/battery.py:29-30 | for every integer `n`, the tie `n + 0.5` goes to `n` when `n` is even and to `n + 1` when it is odd |
| `Rounding.RoundHalfToEven` | residential_battery_control/battery.py:29-30 | for every integer `n` and every number of places `d`, the tie `(n + 0.5) / 10^d` rounds to `n / 10^d` when `n` is even and to `(n + 1) / 10^d` when `n` is odd |
| `Rounding.RoundHalfToEvenExamples` | residential_battery_control/battery.py:29-30 | instances of the tie rule: 0.5 → 0, 1.5 → 2, 0.125 → 0.12 at two places |
| `BatterySpec.NewBattery` | residential_battery_control/battery.py:20-31 | the lower soc bound is kept when in `[0, 1)` and otherwise is 0; the upper bound is kept when in `(0, 1]` and otherwise is 1; size, power limits and efficiency are stored as given; each ratio is within 0.0005 of power divided by size |
| `BatterySpec.NewBatteryIdempotent` | residential_battery_control/battery.py:23-24 | building a battery again from the values a battery stores gives the same battery |
| `BatterySpec.ClampingKeepsInvertedBand` | residential_battery_control/battery.py:23-24 | the two bounds are clamped separately, so a band with minimum 0.9 and maximum 0.5 is kept and its usable size is negative |
| `BatterySpec.ChargeEntry` | residential_battery_control/epex_optimizer.py:296 | the recurrence rows' charge coefficient is minus the soc gained per kWh |
| `BatterySpec.EffectiveSize` | residential_battery_control/epex_optimizer.py:109 | the usable energy of the battery: the width of its soc band times its size; its meaning is stated by the three lemmas below |
| `BatterySpec.DischargeCoeff` | residential_battery_control/epex_optimizer.py:295 | the soc lost per kWh discharged, `1 / (size · efficiency)`; `FullDischargeEmptiesBand` states what it means along the recurrence |
| `BatterySpec.CutoffRate` | residential_battery_control/epex_optimizer.py:109-114 | the objective's penalty per kWh discharged; `FullCyclePaysCutoff` states what it means along the recurrence |
| `BatterySpec.FullChargeFillsBand` | residential_battery_control/epex_optimizer.py:291-311 | along a recurrence trajectory that starts at the minimum soc, charging exactly the usable size with no discharge ends at the maximum soc |
| `BatterySpec.FullDischargeEmptiesBand` | residential_battery_control/epex_optimizer.py:291-311 | along a recurrence trajectory that starts at the maximum soc, discharging exactly usable size times efficiency with no charge ends at the minimum soc |
| `BatterySpec.FullCyclePaysCutoff` | residential_battery_control/epex_optimizer.py:109-114 | whenever the recurrence takes the battery from its maximum to its minimum soc without charging, the discharge penalty summed over the discharges is exactly the cutoff |
| `Milp.IntegralityMask` | residential_battery_control/epex_optimizer.py:122 | the first `continuous` entries are 0 and the last `integral` entries are 1 |
| `Milp.MaskedIntegral` | residential_battery_control/epex_optimizer.py:121-124 | a point meets the mask's integrality demand exactly when every entry after the continuous ones is an integer |
| `StorageRows.TelescopedEnd` | residential_battery_control/epex_optimizer.py:287-311 | along a recurrence trajectory, the end soc is the start soc plus the scaled sum of charges minus the scaled sum of discharges |
| `StorageRows.SocRowAsWritten` | residential_battery_control/epex_optimizer.py:291-311 | a recurrence row as the source writes it has exactly `n` entries |
| `StorageRows.OnePeriodRowAsWritten` | residential_battery_control/epex_optimizer.py:293-297 | with one period, the row as written puts its 1 on the column after the soc block, puts 0 on the soc, and has the start soc as its bound |
| `StorageRows.OnePeriodIdleAsWritten` | residential_battery_control/epex_optimizer.py:293-297 | with one period, start soc 0 and any other end soc, the idle point meets the row as written but breaks the recurrence |
| `StorageRows.SocRowMeaning` | residential_battery_control/epex_optimizer.py:291-311 | recurrence row `i` (with one period, the corrected single row) holds exactly when period `i` moves the soc by its charge and discharge, from the start soc and to the end soc |
| `StorageRows.SocRow` | residential_battery_control/epex_optimizer.py:291-311 | the corrected recurrence row: the row as written for two or more periods, and for one period the single row that ties the start soc to the end soc; it has exactly `n` entries |
| `StorageRows.SocBound` | residential_battery_control/epex_optimizer.py:291-311 | the corrected right-hand side: as written for two or more periods, start minus end soc for one period; `SocRowMeaning` states what row and bound mean together |
| `StorageRows.SocRowIgnoresFirstSoc` | residential_battery_control/epex_optimizer.py:291-311 | every recurrence row has coefficient 0 on the first soc |
| `StorageRows.TrajectoryIgnoresFirstSoc` | residential_battery_control/epex_optimizer.py:170-173 | replacing the first soc of a trajectory by any value keeps it a trajectory |
| `StorageRows.BigMDischargeRow` | residential_battery_control/epex_optimizer.py:263-268 | the row `x_i + M z_i <= M` has exactly `n` entries |
| `StorageRows.BigMChargeRow` | residential_battery_control/epex_optimizer.py:271-276 | the row `y_i - M z_i <= 0` has exactly `n` entries |
| `StorageRows.BigMDischargeRowValue` | residential_battery_control/epex_optimizer.py:263-268 | the discharge Big-M row evaluates to `x_i + M z_i` at any point |
| `StorageRows.BigMChargeRowValue` | residential_battery_control/epex_optimizer.py:271-276 | the charge Big-M row evaluates to `y_i - M z_i` at any point |
| `StorageRows.BigMExclusive` | residential_battery_control/epex_optimizer.py:260-276 | under the Big-M pair, with non-negative flows and a non-negative integral flag, the flag is 0 or 1 and a positive discharge rules out a charge and vice versa |
| `StorageRows.BigMAdmitsExclusive` | residential_battery_control/epex_optimizer.py:260-276 | the pair rules out no schedule that keeps the two apart and whose flows are at most `M` |
| `EpexTariff.ReplaceMissing` | residential_battery_control/epex_optimizer.py:86-88 | a missing reading becomes 0, a present one is kept, and the length is unchanged |
| `EpexTariff.ReplaceMissingPresent` | residential_battery_control/epex_optimizer.py:86-88 | a series with no missing readings comes through unchanged |
| `EpexTariff.TaxedPrices` | residential_battery_control/epex_optimizer.py:93 | each taxed price is the price times one plus the VAT rate, plus the fixed tax |
| `EpexTariff.TaxedPricesInvertible` | residential_battery_control/epex_optimizer.py:93 | unless VAT is -100%, each price can be recovered from its taxed price |
| `EpexTariff.TaxedPricesNotBelow` | residential_battery_control/epex_optimizer.py:93 | with non-negative taxes, a non-negative price is never above its taxed price |
| `EpexTariff.IntervalFractionAsWritten` | residential_battery_control/epex_optimizer.py:67-72 | the constructor sets a fraction exactly for "hour" and "quarter" |
| `EpexTariff.UnknownIntervalLeavesFractionUnset` | residential_battery_control/epex_optimizer.py:71-72 | for "day" the constructor sets no fraction, although its message says it assumes an hour |
| `EpexTariff.IntervalFraction` | residential_battery_control/epex_optimizer.py:67-72 | "quarter" gives 0.25 and every other selector gives 1 |
| `EpexTariff.IntervalFractionAgrees` | residential_battery_control/epex_optimizer.py:67-70 | on "hour" and "quarter" the fallback agrees with the constructor as written |
| `EpexTariff.Objective` | residential_battery_control/epex_optimizer.py:110-116 | the objective has eight blocks of `T` coefficients |
| `EpexTariff.ExtraCostAsDots` | residential_battery_control/epex_optimizer.py:197-198 | the summed extra cost is taxed price times grid charge, plus price times solar charge, minus taxed price times self-use, minus price times grid discharge |
| `EpexTariff.ExtraCost` | residential_battery_control/epex_optimizer.py:196-198 | the schedule's extra cost summed over the periods; `ExtraCostAsDots` equates it with the objective's flow part and `IdleExtraCost` gives 0 for an idle schedule |
| `EpexTariff.IdleExtraCost` | residential_battery_control/epex_optimizer.py:197-198 | a battery that does nothing has zero extra cost |
| `EpexTariff.ObjectiveValue` | residential_battery_control/epex_optimizer.py:110-116 | at every point, the objective is the extra cost of the four flows plus the cutoff rate times total discharge |
| `EpexTariff.EpexOptimizer.constructor` | residential_battery_control/epex_optimizer.py:54-93 | stores the arguments, reads missing usage and feed-in as 0, derives the taxed prices and the interval fraction, and starts with no solution and no yield |
| `EpexTariff.EpexOptimizer.BoundColumn` | residential_battery_control/epex_optimizer.py:218-258 | each of the six bound-row blocks constrains a column inside the `8T` variables |
| `EpexTariff.EpexOptimizer.IneqLhs` | residential_battery_control/epex_optimizer.py:213-282 | the inequality system has `8T` rows, each `8T` wide |
| `EpexTariff.EpexOptimizer.EqRow` | residential_battery_control/epex_optimizer.py:291-329 | equality row `r` has `8T` entries: a recurrence row, a charge-split row or a discharge-split row; `EqRowsMeaning` states what they hold |
| `EpexTariff.EpexOptimizer.EqLhs` | residential_battery_control/epex_optimizer.py:285-352 | the equality matrix has `3T` rows plus one per disallowed grid direction, each of `8T` entries |
| `EpexTariff.EpexOptimizer.Problem` | residential_battery_control/epex_optimizer.py:108-124 | the mixed-integer program handed to the solver: its objective and integrality mask have `8T` entries |
| `EpexTariff.EpexOptimizer.ProblemMeaning` | residential_battery_control/epex_optimizer.py:108-124 | a point is feasible for the program exactly when it has `8T` non-negative entries, integer flags, every period within its limits with its flows split, the soc recurrence, and the grid bans that apply |
| `EpexTariff.EpexOptimizer.BoundRowValue` | residential_battery_control/epex_optimizer.py:218-258 | a bound row evaluates to its variable, negated for the minimum-soc rows |
| `EpexTariff.EpexOptimizer.BigMDischargeValue` | residential_battery_control/epex_optimizer.py:263-268 | the discharge Big-M row of period `i` evaluates to `x_i + M z_i` |
| `EpexTariff.EpexOptimizer.BigMChargeValue` | residential_battery_control/epex_optimizer.py:271-276 | the charge Big-M row of period `i` evaluates to `y_i - M z_i` |
| `EpexTariff.EpexOptimizer.SocBandRowsMeaning` | residential_battery_control/epex_optimizer.py:218-230 | the two soc rows of period `i` hold exactly when its soc lies between the minimum and maximum soc |
| `EpexTariff.EpexOptimizer.SiteRowsMeaning` | residential_battery_control/epex_optimizer.py:232-244 | the feed-in and usage rows hold exactly when solar charge stays within feed-in and self-use within usage |
| `EpexTariff.EpexOptimizer.PowerRowsMeaning` | residential_battery_control/epex_optimizer.py:246-258 | the power rows hold exactly when discharge and charge stay within power times the interval fraction |
| `EpexTariff.EpexOptimizer.BigMRowsMeaning` | residential_battery_control/epex_optimizer.py:260-276 | the Big-M rows hold exactly when `x_i + M z_i <= M` and `y_i - M z_i <= 0` |
| `EpexTariff.EpexOptimizer.IneqPeriodMeaning` | residential_battery_control/epex_optimizer.py:218-276 | the eight rows of period `i` hold exactly when the period keeps to its soc band, feed-in, usage, power limits and Big-M pair |
| `EpexTariff.EpexOptimizer.IneqRowsMeaning` | residential_battery_control/epex_optimizer.py:213-282 | the inequality system holds exactly when every period keeps to its limits |
| `EpexTariff.EpexOptimizer.SocRowHolds` | residential_battery_control/epex_optimizer.py:291-311 | recurrence row `i` holds exactly when period `i` moves the soc as the recurrence says |
| `EpexTariff.EpexOptimizer.SocRowsMeaning` | residential_battery_control/epex_optimizer.py:291-311 | the first `T` equality rows hold exactly when the soc block follows the recurrence from start soc to end soc |
| `EpexTariff.EpexOptimizer.FlowRowsMeaning` | residential_battery_control/epex_optimizer.py:313-329 | the two split rows of period `i` hold exactly when grid and solar charge add up to the charge and grid and self-use discharge add up to the discharge |
| `EpexTariff.EpexOptimizer.SplitRowsMeaning` | residential_battery_control/epex_optimizer.py:313-329 | the `2T` split rows hold exactly when every period's flows split |
| `EpexTariff.EpexOptimizer.GridRowsMeaning` | residential_battery_control/epex_optimizer.py:332-346 | the ban rows hold exactly when total grid discharge is 0 where selling is banned and total grid charge is 0 where buying is banned |
| `EpexTariff.EpexOptimizer.EqRowsMeaning` | residential_battery_control/epex_optimizer.py:285-352 | the equality system holds exactly when the recurrence holds, all flows split, and the banned directions sum to 0 |
| `EpexTariff.EpexOptimizer.FirstSocFree` | residential_battery_control/epex_optimizer.py:170-173 | changing the first soc never changes whether the equality system holds |
| `EpexTariff.EpexOptimizer.CreateInequalityConstraints` | residential_battery_control/epex_optimizer.py:213-282 | the rows and bounds built are exactly the inequality system |
| `EpexTariff.EpexOptimizer.AddSocLimitRows` | residential_battery_control/epex_optimizer.py:218-230 | after the soc loops, the first `2T` rows of the system are built |
| `EpexTariff.EpexOptimizer.AddFlowLimitRows` | residential_battery_control/epex_optimizer.py:232-244 | after the feed-in and usage loops, the first `4T` rows are built |
| `EpexTariff.EpexOptimizer.AddPowerLimitRows` | residential_battery_control/epex_optimizer.py:246-258 | after the power-limit loops, the first `6T` rows are built |
| `EpexTariff.EpexOptimizer.AddBigMRows` | residential_battery_control/epex_optimizer.py:260-276 | after the Big-M loops, all `8T` rows are built |
| `EpexTariff.EpexOptimizer.CreateEqualityConstraints` | residential_battery_control/epex_optimizer.py:285-352 | the rows and bounds built are exactly the equality system |
| `EpexTariff.EpexOptimizer.AddSocRecurrenceRows` | residential_battery_control/epex_optimizer.py:291-311 | after the recurrence loop, the first `T` rows are built, with the single corrected row when `T = 1` |
| `EpexTariff.EpexOptimizer.SocRecurrenceRow` | residential_battery_control/epex_optimizer.py:292-308 | builds period `i`'s recurrence row and bound: the row as written for `T > 1`, the corrected single row when `T = 1` |
| `EpexTariff.EpexOptimizer.AddFlowSplitRows` | residential_battery_control/epex_optimizer.py:313-329 | after the split loops, the first `3T` rows are built |
| `EpexTariff.EpexOptimizer.AddChargeSplitRows` | residential_battery_control/epex_optimizer.py:313-320 | after the charge split loop, the first `2T` rows are built |
| `EpexTariff.EpexOptimizer.AddDischargeSplitRows` | residential_battery_control/epex_optimizer.py:322-329 | after the discharge split loop, the first `3T` rows are built |
| `EpexTariff.EpexOptimizer.AddGridBanRows` | residential_battery_control/epex_optimizer.py:332-346 | after the optional ban rows, the whole system is built |
| `EpexTariff.EpexOptimizer.LPOptimize` | residential_battery_control/epex_optimizer.py:95-134 | fixes `T` to the number of prices; keeps the solver's point when it reports success and otherwise keeps none; leaves the stored yield alone; a kept point is feasible |
| `EpexTariff.EpexOptimizer.GridDischarges` | residential_battery_control/epex_optimizer.py:137-140 | returns `T` grid discharges, all 0 without a solution |
| `EpexTariff.EpexOptimizer.SelfuseDischarges` | residential_battery_control/epex_optimizer.py:142-145 | returns `T` self-use discharges, all 0 without a solution |
| `EpexTariff.EpexOptimizer.GridCharges` | residential_battery_control/epex_optimizer.py:147-150 | returns `T` grid charges, all 0 without a solution |
| `EpexTariff.EpexOptimizer.SolarCharges` | residential_battery_control/epex_optimizer.py:152-155 | returns `T` solar charges, all 0 without a solution |
| `EpexTariff.EpexOptimizer.Charges` | residential_battery_control/epex_optimizer.py:157-160 | returns `T` total charges, all 0 without a solution |
| `EpexTariff.EpexOptimizer.Discharges` | residential_battery_control/epex_optimizer.py:162-165 | returns `T` total discharges, all 0 without a solution |
| `EpexTariff.EpexOptimizer.Socs` | residential_battery_control/epex_optimizer.py:167-174 | returns `T` socs, all 0 without a solution; with one, the first is the start soc and the rest are the solver's |
| `EpexTariff.EpexOptimizer.ComputeYield` | residential_battery_control/epex_optimizer.py:176-210 | without a solution, the yield is 0 and the total is the rounded baseline cost; with one, the yield is minus the extra cost of the four flows, the total is baseline minus yield, and the yield is stored |
| `EpexTariff.EpexOptimizer.OriginalCost` | residential_battery_control/epex_optimizer.py:179-180 | the cost without a battery, each period rounded to 6 places and summed; `ComputeYield` returns it as the total when there is no solution |
| `EpexTariff.EpexOptimizer.SolvedPoint` | residential_battery_control/epex_optimizer.py:95-134 | a solved point is non-negative with integral flags, keeps every period's limits and flow splits, follows the recurrence, and meets the grid bans |
| `EpexTariff.EpexOptimizer.SolvedFlowsSplit` | residential_battery_control/epex_optimizer.py:313-329 | in a solved schedule every flow is non-negative and charge and discharge are the sums of their parts |
| `EpexTariff.EpexOptimizer.SolvedWithinLimits` | residential_battery_control/epex_optimizer.py:213-258 | in a solved schedule, solar charge stays within feed-in, self-use within usage, and charge and discharge within power times period length; every reported soc after the first lies in the band |
| `EpexTariff.EpexOptimizer.SolvedGridBans` | residential_battery_control/epex_optimizer.py:332-346 | a banned grid direction is 0 in every period of a solved schedule |
| `EpexTariff.EpexOptimizer.SolvedNeverChargesWhileDischarging` | residential_battery_control/epex_optimizer.py:260-276 | in every period of a solved schedule, the discharge or the charge is 0 |
| `EpexTariff.EpexOptimizer.SolvedTrajectory` | residential_battery_control/epex_optimizer.py:287-311 | the reported socs, discharges and charges form a trajectory from start soc to end soc, and the end soc is the start soc plus scaled charges minus scaled discharges |
| `EpexTariff.EpexOptimizer.SolvedObjective` | residential_battery_control/epex_optimizer.py:108-116 | the objective at the solver's point is the extra cost that the yield negates, plus the cutoff rate times the total discharge |
| `EpexNetMetering.DischargeCosts` | residential_battery_control/epex_optimizer_nm.py:64 | each discharge coefficient is minus the price plus the cutoff rate |
| `EpexNetMetering.Objective` | residential_battery_control/epex_optimizer_nm.py:63-66 | the objective has four blocks of `T` coefficients |
| `EpexNetMetering.NetYieldStep` | residential_battery_control/epex_optimizer_nm.py:122-125 | adding period `i`'s earnings minus costs to the yield so far gives the yield of one more period |
| `EpexNetMetering.SumYield` | residential_battery_control/epex_optimizer_nm.py:117-125 | the loop's total is the net yield: the sum of discharge times price minus charge times price |
| `EpexNetMetering.NetYield` | residential_battery_control/epex_optimizer_nm.py:117-125 | the yield summed over the periods; `NetYieldAsDots`, `IdleNetYield` and `NetYieldSwapped` state what it is |
| `EpexNetMetering.NetYieldAsDots` | residential_battery_control/epex_optimizer_nm.py:122-125 | the yield is the price-weighted discharge minus the price-weighted charge |
| `EpexNetMetering.IdleNetYield` | residential_battery_control/epex_optimizer_nm.py:117-125 | a battery that does nothing yields nothing |
| `EpexNetMetering.NetYieldSwapped` | residential_battery_control/epex_optimizer_nm.py:122-125 | swapping charges and discharges negates the yield |
| `EpexNetMetering.ObjectiveValue` | residential_battery_control/epex_optimizer_nm.py:63-66 | at every point, the objective is the cutoff rate times total discharge minus the yield of the discharge and charge blocks |
| `EpexNetMetering.Abs` | residential_battery_control/epex_optimizer_nm.py:95 | the result is non-negative and is the argument or its negation |
| `EpexNetMetering.Reported` | residential_battery_control/epex_optimizer_nm.py:90 | rounding the amounts to 4 places keeps their number |
| `EpexNetMetering.ReportedAbs` | residential_battery_control/epex_optimizer_nm.py:95 | taking absolute values and rounding to 4 places keeps their number |
| `EpexNetMetering.ReportedClose` | residential_battery_control/epex_optimizer_nm.py:90-95 | a reported amount is within 0.00005 of the amount (or of its absolute value); a reported absolute amount is non-negative; zero is reported as zero |
| `EpexNetMetering.EpexOptimizerNM.constructor` | residential_battery_control/epex_optimizer_nm.py:45-54 | stores the arguments, sets `T` to the number of prices, and starts with no solution and no yield |
| `EpexNetMetering.EpexOptimizerNM.BoundColumn` | residential_battery_control/epex_optimizer_nm.py:140-168 | each of the four bound-row blocks constrains a column inside the `4T` variables |
| `EpexNetMetering.EpexOptimizerNM.IneqLhs` | residential_battery_control/epex_optimizer_nm.py:135-193 | the inequality system has `6T` rows, each `4T` wide |
| `EpexNetMetering.EpexOptimizerNM.EqLhs` | residential_battery_control/epex_optimizer_nm.py:196-228 | the equality system has one recurrence row per period |
| `EpexNetMetering.EpexOptimizerNM.Problem` | residential_battery_control/epex_optimizer_nm.py:63-74 | the mixed-integer program handed to the solver: its objective and integrality mask have `4T` entries |
| `EpexNetMetering.EpexOptimizerNM.ProblemMeaning` | residential_battery_control/epex_optimizer_nm.py:63-74 | a point is feasible for the program exactly when it has `4T` non-negative entries, integer flags, every period within its limits, and the soc recurrence |
| `EpexNetMetering.EpexOptimizerNM.BoundRowValue` | residential_battery_control/epex_optimizer_nm.py:140-168 | a bound row evaluates to its variable, negated for the minimum-soc rows |
| `EpexNetMetering.EpexOptimizerNM.BigMDischargeValue` | residential_battery_control/epex_optimizer_nm.py:174-179 | the discharge Big-M row of period `i` evaluates to `x_i + M z_i` |
| `EpexNetMetering.EpexOptimizerNM.BigMChargeValue` | residential_battery_control/epex_optimizer_nm.py:182-187 | the charge Big-M row of period `i` evaluates to `y_i - M z_i` |
| `EpexNetMetering.EpexOptimizerNM.PowerRowsMeaning` | residential_battery_control/epex_optimizer_nm.py:140-154 | the power rows hold exactly when discharge and charge stay within the power limits |
| `EpexNetMetering.EpexOptimizerNM.SocBandRowsMeaning` | residential_battery_control/epex_optimizer_nm.py:156-169 | the two soc rows of period `i` hold exactly when its soc lies between the minimum and maximum soc |
| `EpexNetMetering.EpexOptimizerNM.BigMRowsMeaning` | residential_battery_control/epex_optimizer_nm.py:171-187 | the Big-M rows hold exactly when `x_i + M z_i <= M` and `y_i - M z_i <= 0` |
| `EpexNetMetering.EpexOptimizerNM.IneqPeriodMeaning` | residential_battery_control/epex_optimizer_nm.py:140-187 | the six rows of period `i` hold exactly when the period keeps to its power limits, soc band and Big-M pair |
| `EpexNetMetering.EpexOptimizerNM.IneqRowsMeaning` | residential_battery_control/epex_optimizer_nm.py:135-193 | the inequality system holds exactly when every period keeps to its limits |
| `EpexNetMetering.EpexOptimizerNM.SocRowHolds` | residential_battery_control/epex_optimizer_nm.py:202-222 | recurrence row `i` holds exactly when period `i` moves the soc as the recurrence says |
| `EpexNetMetering.EpexOptimizerNM.EqRowsMeaning` | residential_battery_control/epex_optimizer_nm.py:196-228 | the equality system holds exactly when the soc block follows the recurrence from start soc to end soc |
| `EpexNetMetering.EpexOptimizerNM.RowsGiveRecurrence` | residential_battery_control/epex_optimizer_nm.py:202-222 | a point meeting every recurrence row follows the recurrence |
| `EpexNetMetering.EpexOptimizerNM.RecurrenceGivesRows` | residential_battery_control/epex_optimizer_nm.py:202-222 | a point following the recurrence meets every recurrence row |
| `EpexNetMetering.EpexOptimizerNM.FirstSocFree` | residential_battery_control/epex_optimizer_nm.py:103-105 | changing the first soc never changes whether the equality system holds |
| `EpexNetMetering.EpexOptimizerNM.CreateInequalityConstraints` | residential_battery_control/epex_optimizer_nm.py:135-193 | the rows and bounds built are exactly the inequality system |
| `EpexNetMetering.EpexOptimizerNM.AddPowerLimitRows` | residential_battery_control/epex_optimizer_nm.py:140-153 | after the power-limit loops, the first `2T` rows are built |
| `EpexNetMetering.EpexOptimizerNM.AddSocLimitRows` | residential_battery_control/epex_optimizer_nm.py:156-168 | after the soc loops, the first `4T` rows are built |
| `EpexNetMetering.EpexOptimizerNM.AddBigMRows` | residential_battery_control/epex_optimizer_nm.py:171-187 | after the Big-M loops, all `6T` rows are built |
| `EpexNetMetering.EpexOptimizerNM.CreateEqualityConstraints` | residential_battery_control/epex_optimizer_nm.py:196-228 | the rows and bounds built are exactly the equality system, with the single corrected row when `T = 1` |
| `EpexNetMetering.EpexOptimizerNM.LPOptimize` | residential_battery_control/epex_optimizer_nm.py:57-84 | keeps the solver's point when it reports success and otherwise keeps none; a kept point is feasible |
| `EpexNetMetering.EpexOptimizerNM.Charges` | residential_battery_control/epex_optimizer_nm.py:87-90 | returns `T` charges, all 0 without a solution |
| `EpexNetMetering.EpexOptimizerNM.Discharges` | residential_battery_control/epex_optimizer_nm.py:92-95 | returns `T` discharges, all 0 without a solution |
| `EpexNetMetering.EpexOptimizerNM.DischargesNonNegative` | residential_battery_control/epex_optimizer_nm.py:92-95 | every reported discharge is non-negative, because it is the absolute value rounded |
| `EpexNetMetering.EpexOptimizerNM.Socs` | residential_battery_control/epex_optimizer_nm.py:98-106 | returns `T` socs, all 0 without a solution; with one, the first is the start soc and the rest are the solver's |
| `EpexNetMetering.EpexOptimizerNM.ComputeYield` | residential_battery_control/epex_optimizer_nm.py:109-132 | without a solution, the yield is 0 and the stored yield is unchanged; with one, the yield is the net yield of the reported discharges and charges, and it is stored |
| `EpexNetMetering.EpexOptimizerNM.SolvedPoint` | residential_battery_control/epex_optimizer_nm.py:57-84 | a solved point is non-negative with integral flags, keeps every period's limits, and follows the recurrence |
| `EpexNetMetering.EpexOptimizerNM.SolvedWithinLimits` | residential_battery_control/epex_optimizer_nm.py:140-168 | the solver's discharges and charges stay within the power limits, and every reported soc after the first lies in the band |
| `EpexNetMetering.EpexOptimizerNM.SolvedNeverChargesWhileDischarging` | residential_battery_control/epex_optimizer_nm.py:171-187 | in every period, the solver's discharge or charge is 0, and so is the reported (rounded) discharge or charge |
| `EpexNetMetering.EpexOptimizerNM.SolvedTrajectory` | residential_battery_control/epex_optimizer_nm.py:196-222 | the reported socs with the solver's flows form a trajectory from start soc to end soc, and the end soc is the start soc plus scaled charges minus scaled discharges |
| `EpexNetMetering.EpexOptimizerNM.SolvedObjective` | residential_battery_control/epex_optimizer_nm.py:63-66 | the objective at the solver's point is the cutoff rate times total discharge minus the net yield of the solver's flows |

## Left out

- The solver is a parameter. Its optimality is not modelled: the schedule lemmas assume only that a reported success comes with a feasible point. So no property that needs a minimum holds here, for example that the yield falls as the cutoff rises.
- The solver's message and the warning printed on failure (`epex_optimizer_nm.py:76-79`) are not modelled. Neither are the `do_print` branches and their console output.
- numpy arrays, and the DataFrame columns the general scheduler reads, are modelled as sequences. The constructor takes the three series directly.
- Binary floating point is not modelled: all amounts are exact reals. A missing reading (`NaN`) is `None` in an `Option`.
- `Rounding.Round` rounds the exact value. Python's `round` works on the binary double nearest the value, so a decimal tie that the double holds inexactly can round the other way.
- A division by zero raises in the source. The model requires it away instead:
  - a zero battery size in `NewBattery`;
  - a zero `size × efficiency` in the equality builders;
  - a zero `usable size × efficiency` in `LPOptimize`.
- `EpexTariff.EpexOptimizer.GridDischarges`: this and the other accessors of the general scheduler require a started solve (`periodsSet`), because the source has no `T` before its first `LP_optimize` and raises there.
- Default arguments are not modelled; every constructor takes every value explicitly. The source's defaults are: a battery of size 1 with soc band 0 to 1, power limits 1 and efficiency 1 (`battery.py:20-21`); for the general scheduler, start and end soc 0, taxes 0, both grid directions allowed, cutoff 0 and interval `'hour'` (`epex_optimizer.py:54-55`); for the net-metering scheduler, start and end soc 0 and cutoff 0 (`epex_optimizer_nm.py:45`).
- `EpexTariff.EpexOptimizer.ComputeYield`: requires a started solve (`periodsSet`). Called before the first `LP_optimize`, the source's unsolved branch reads `self.T` (`epex_optimizer.py:179`), which does not exist yet, and raises `AttributeError`. The model does not cover that call.
- `EpexTariff.EpexOptimizer.Socs`: requires a non-empty horizon when a solution exists, because the source raises `IndexError` there.
- `EpexNetMetering.EpexOptimizerNM.Socs`: likewise requires a non-empty horizon when a solution exists.
- `EpexTariff.EpexOptimizer.ComputeYield`: does not model the `get_socs` call, which on an empty solved horizon raises instead of returning. The model returns 0 yield and the baseline cost there.
- `EpexNetMetering.EpexOptimizerNM.ComputeYield`: likewise does not model the `get_socs` call and its `IndexError` on an empty solved horizon.
- `StorageRows.SocRowAsWritten`: its contract gives only the row's width. What the row means is stated by `SocRowMeaning` and the one-period lemmas.
- `EpexTariff.Objective`: its contract gives only the length. What the objective means is stated by `ObjectiveValue` and `SolvedObjective`.
- `EpexNetMetering.Objective`: likewise, its meaning is stated by `ObjectiveValue` and `SolvedObjective`.
- The horizon-chaining method `set_socs` is documented but not defined in the source, so it is not modelled. The example driver scripts are not part of this model.
- The Big-M constant is not derived from the battery. `BigMAdmitsExclusive` states the condition under which the fixed constant cuts off nothing: every flow is at most `M`.

## Findings

| source | as written | input that shows it | evidently intended | confidence | as-written member | corrected member |
|---|---|---|---|---|---|---|
| residential_battery_control/epex_optimizer.py:293-297 | with one period, the only recurrence row is the first-period row. Its 1 lands on column `6T + 1 = 7`, the flag `z_0`. Its right-hand side is `start_soc`, so `end_soc` is never used | `T = 1`, `start_soc = 0`, `end_soc = 0.9`: the idle point with flag 0 meets the row, although the battery must charge to reach 0.9 | the one row `x_0/(size·eff) − y_0/size = start_soc − end_soc` | not executed | `StorageRows.OnePeriodIdleAsWritten` | `EpexTariff.EpexOptimizer.SocRowsMeaning` |
| residential_battery_control/epex_optimizer_nm.py:204-208 | the same row with one period: its 1 lands on column `2T + 1 = 3`, the flag `z_0`, and `end_soc` is never used | `T = 1`, `start_soc = 0`, `end_soc = 0.9`: the idle point with flag 0 meets the row | the same single row, anchored at both ends | not executed | `StorageRows.OnePeriodRowAsWritten` | `EpexNetMetering.EpexOptimizerNM.EqRowsMeaning` |
| residential_battery_control/epex_optimizer.py:67-72 | an interval other than "hour" or "quarter" prints that an hour is assumed but assigns no `interval_fraction`. The first solve then fails at line 251 | `interval = "day"` | fall back to a fraction of 1, an hour | not executed | `EpexTariff.UnknownIntervalLeavesFractionUnset` | `EpexTariff.IntervalFraction` |
