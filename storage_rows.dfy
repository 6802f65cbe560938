/**
 * The constraint rows both schedulers share, written over a flat variable
 * vector of width `n` in which the state of charge, the discharges, the
 * charges and the no-discharge flags each occupy a block of `T` columns
 * starting at `socCol`, `xCol`, `yCol` and `zCol`:
 *
 *  - the state-of-charge recurrence, one equality row per period, anchored
 *    at the start value in the first row and at the end value in the last
 *    (both in the one row of a single-period horizon);
 *  - the Big-M pair of inequality rows that forbids charging and discharging
 *    in the same period.
 */
module StorageRows {
  import opened Milp

  /** The state of charge when period `i` begins; the first is the caller's start value. */
  function SocBefore(socs: seq<real>, start: real, i: nat): real
    requires i < |socs|
  {
    if i == 0 then start else socs[i]
  }

  /** The state of charge when period `i` ends; the last is the caller's end value. */
  function SocAfter(socs: seq<real>, end: real, i: nat): real
    requires i < |socs|
  {
    if i == |socs| - 1 then end else socs[i + 1]
  }

  /**
   * Every period moves the state of charge up by `chargeCoeff` per kWh
   * charged and down by `dischargeCoeff` per kWh discharged, starting at
   * `start` and finishing at `end`. `socs[0]` plays no part.
   */
  predicate SocTrajectory(
    socs: seq<real>, xs: seq<real>, ys: seq<real>,
    start: real, end: real, chargeCoeff: real, dischargeCoeff: real)
  {
    && |xs| == |socs| && |ys| == |socs|
    && forall i :: 0 <= i < |socs| ==> PeriodMoves(socs, xs, ys, start, end, chargeCoeff, dischargeCoeff, i)
  }

  /** Period `i` moves the state of charge by its charge and discharge. */
  predicate PeriodMoves(
    socs: seq<real>, xs: seq<real>, ys: seq<real>,
    start: real, end: real, chargeCoeff: real, dischargeCoeff: real, i: nat)
    requires i < |socs| && i < |xs| && i < |ys|
  {
    SocAfter(socs, end, i) == SocBefore(socs, start, i) + chargeCoeff * ys[i] - dischargeCoeff * xs[i]
  }

  lemma {:induction false} TelescopedPrefix(
    socs: seq<real>, xs: seq<real>, ys: seq<real>,
    start: real, end: real, chargeCoeff: real, dischargeCoeff: real, k: nat)
    requires SocTrajectory(socs, xs, ys, start, end, chargeCoeff, dischargeCoeff)
    requires 1 <= k <= |socs|
    ensures SocAfter(socs, end, k - 1)
         == start + chargeCoeff * Sum(ys[..k]) - dischargeCoeff * Sum(xs[..k])
    decreases k
  {
    assert ys[..k][..k - 1] == ys[..k - 1] && xs[..k][..k - 1] == xs[..k - 1];
    assert PeriodMoves(socs, xs, ys, start, end, chargeCoeff, dischargeCoeff, k - 1);
    if k > 1 {
      TelescopedPrefix(socs, xs, ys, start, end, chargeCoeff, dischargeCoeff, k - 1);
      assert SocBefore(socs, start, k - 1) == SocAfter(socs, end, k - 2);
    }
  }

  /**
   * Summed over the horizon, the recurrence says the end value is the start
   * value plus the net effect of all charging and discharging.
   */
  lemma TelescopedEnd(
    socs: seq<real>, xs: seq<real>, ys: seq<real>,
    start: real, end: real, chargeCoeff: real, dischargeCoeff: real)
    requires SocTrajectory(socs, xs, ys, start, end, chargeCoeff, dischargeCoeff)
    requires 1 <= |socs|
    ensures end == start + chargeCoeff * Sum(ys) - dischargeCoeff * Sum(xs)
  {
    var T := |socs|;
    TelescopedPrefix(socs, xs, ys, start, end, chargeCoeff, dischargeCoeff, T);
    assert ys[..T] == ys && xs[..T] == xs;
  }

  /** Two blocks of `T` columns do not overlap. */
  predicate Apart(a: nat, b: nat, T: nat) {
    a + T <= b || b + T <= a
  }

  /**
   * Row `i` of the recurrence as both schedulers write it, with
   * `dischargeEntry` on the discharge and `chargeEntry` (a negative number)
   * on the charge of period `i`. The first row puts 1 on the second state of
   * charge; a middle row puts -1 and 1 on consecutive states of charge; the
   * last row puts -1 on the last state of charge. The first row is taken even
   * when it is also the last, so with a single period its 1 falls on column
   * `socCol + 1`, outside the state-of-charge block.
   */
  function SocRowAsWritten(
    n: nat, T: nat, socCol: nat, xCol: nat, yCol: nat,
    dischargeEntry: real, chargeEntry: real, i: nat): (row: seq<real>)
    requires i < T && socCol + T < n && xCol + T <= n && yCol + T <= n
    ensures |row| == n
  {
    if i == 0 then
      Zeros(n)[socCol + 1 := 1.0][xCol := dischargeEntry][yCol := chargeEntry]
    else if i < T - 1 then
      Zeros(n)[socCol + i := MinusOne()][socCol + i + 1 := 1.0][xCol + i := dischargeEntry][yCol + i := chargeEntry]
    else
      Zeros(n)[socCol + i := MinusOne()][xCol + i := dischargeEntry][yCol + i := chargeEntry]
  }

  /** The right-hand side as written: the start value, 0, or minus the end value; the first wins. */
  function SocBoundAsWritten(T: nat, start: real, end: real, i: nat): real {
    if i == 0 then start else if i < T - 1 then 0.0 else -end
  }

  /**
   * With a single period the row as written constrains the column after the
   * state-of-charge block and never mentions the end value.
   */
  lemma OnePeriodRowAsWritten(
    n: nat, socCol: nat, xCol: nat, yCol: nat,
    dischargeEntry: real, chargeEntry: real, start: real, end: real)
    requires socCol + 1 < n && xCol + 1 <= n && yCol + 1 <= n
    requires Apart(socCol, xCol, 1) && Apart(socCol, yCol, 1) && xCol != socCol + 1 && yCol != socCol + 1
    ensures SocRowAsWritten(n, 1, socCol, xCol, yCol, dischargeEntry, chargeEntry, 0)[socCol + 1] == 1.0
    ensures SocRowAsWritten(n, 1, socCol, xCol, yCol, dischargeEntry, chargeEntry, 0)[socCol] == 0.0
    ensures SocBoundAsWritten(1, start, end, 0) == start
  {
  }

  /**
   * So a one-period battery that starts empty may idle even when it is asked
   * to end at any other level: the idle point meets the row as written but
   * not the recurrence.
   */
  lemma OnePeriodIdleAsWritten(
    n: nat, socCol: nat, xCol: nat, yCol: nat,
    dischargeEntry: real, chargeEntry: real, end: real, chargeCoeff: real, dischargeCoeff: real)
    requires socCol + 1 < n && xCol + 1 <= n && yCol + 1 <= n
    requires end != 0.0
    ensures Dot(SocRowAsWritten(n, 1, socCol, xCol, yCol, dischargeEntry, chargeEntry, 0), Zeros(n))
         == SocBoundAsWritten(1, 0.0, end, 0)
    ensures !SocTrajectory(Zeros(1), Zeros(1), Zeros(1), 0.0, end, chargeCoeff, dischargeCoeff)
  {
    var row := SocRowAsWritten(n, 1, socCol, xCol, yCol, dischargeEntry, chargeEntry, 0);
    DotZeroPoint(row);
    assert !PeriodMoves(Zeros(1), Zeros(1), Zeros(1), 0.0, end, chargeCoeff, dischargeCoeff, 0);
  }

  /**
   * Row `i` of the recurrence with a single period handled: that row
   * anchors both ends, `dischargeEntry x_0 + chargeEntry y_0 = start - end`.
   * With two or more periods it is the row as written.
   */
  function SocRow(
    n: nat, T: nat, socCol: nat, xCol: nat, yCol: nat,
    dischargeEntry: real, chargeEntry: real, i: nat): (row: seq<real>)
    requires i < T && socCol + T < n && xCol + T <= n && yCol + T <= n
    ensures |row| == n
  {
    if T == 1 then Zeros(n)[xCol := dischargeEntry][yCol := chargeEntry]
    else SocRowAsWritten(n, T, socCol, xCol, yCol, dischargeEntry, chargeEntry, i)
  }

  /** The right-hand side of row `i`: `start - end` for a single period, else as written. */
  function SocBound(T: nat, start: real, end: real, i: nat): real {
    if T == 1 then start - end else SocBoundAsWritten(T, start, end, i)
  }

  /** The value at `v` of the single row of a one-period horizon. */
  lemma SocOnlyRowValue(
    n: nat, socCol: nat, xCol: nat, yCol: nat,
    dischargeEntry: real, chargeEntry: real, v: seq<real>)
    requires socCol + 1 < n && xCol + 1 <= n && yCol + 1 <= n && |v| == n && xCol != yCol
    ensures Dot(SocRow(n, 1, socCol, xCol, yCol, dischargeEntry, chargeEntry, 0), v)
         == dischargeEntry * v[xCol] + chargeEntry * v[yCol]
  {
    DotTwo(n, xCol, dischargeEntry, yCol, chargeEntry, v);
  }

  /** The value at `v` of the first recurrence row. */
  lemma SocFirstRowValue(
    n: nat, T: nat, socCol: nat, xCol: nat, yCol: nat,
    dischargeEntry: real, chargeEntry: real, v: seq<real>)
    requires 2 <= T && socCol + T < n && xCol + T <= n && yCol + T <= n && |v| == n
    requires Apart(socCol, xCol, T) && Apart(socCol, yCol, T) && Apart(xCol, yCol, T)
    ensures Dot(SocRow(n, T, socCol, xCol, yCol, dischargeEntry, chargeEntry, 0), v)
         == v[socCol + 1] + dischargeEntry * v[xCol] + chargeEntry * v[yCol]
  {
    assert socCol + 1 != xCol && socCol + 1 != yCol && xCol != yCol;
    var up := 1.0;
    DotThree(n, socCol + 1, up, xCol, dischargeEntry, yCol, chargeEntry, v);
  }

  /** The value at `v` of a middle recurrence row. */
  lemma SocMiddleRowValue(
    n: nat, T: nat, socCol: nat, xCol: nat, yCol: nat,
    dischargeEntry: real, chargeEntry: real, v: seq<real>, i: nat)
    requires 2 <= T && socCol + T < n && xCol + T <= n && yCol + T <= n && |v| == n
    requires Apart(socCol, xCol, T) && Apart(socCol, yCol, T) && Apart(xCol, yCol, T)
    requires 0 < i < T - 1
    ensures Dot(SocRow(n, T, socCol, xCol, yCol, dischargeEntry, chargeEntry, i), v)
         == v[socCol + i + 1] - v[socCol + i] + dischargeEntry * v[xCol + i] + chargeEntry * v[yCol + i]
  {
    var a, b, c, d := socCol + i, socCol + i + 1, xCol + i, yCol + i;
    assert a != c && a != d && c != d && b != c && b != d;
    var down := MinusOne();
    assert SocRow(n, T, socCol, xCol, yCol, dischargeEntry, chargeEntry, i)
        == Zeros(n)[a := down][b := 1.0][c := dischargeEntry][d := chargeEntry];
    DotFour(n, a, down, b, 1.0, c, dischargeEntry, d, chargeEntry, v);
    assert down * v[a] == -v[a];
  }

  /** The value at `v` of the last recurrence row. */
  lemma SocLastRowValue(
    n: nat, T: nat, socCol: nat, xCol: nat, yCol: nat,
    dischargeEntry: real, chargeEntry: real, v: seq<real>)
    requires 2 <= T && socCol + T < n && xCol + T <= n && yCol + T <= n && |v| == n
    requires Apart(socCol, xCol, T) && Apart(socCol, yCol, T) && Apart(xCol, yCol, T)
    ensures Dot(SocRow(n, T, socCol, xCol, yCol, dischargeEntry, chargeEntry, T - 1), v)
         == -v[socCol + T - 1] + dischargeEntry * v[xCol + T - 1] + chargeEntry * v[yCol + T - 1]
  {
    var i := T - 1;
    var a, c, d := socCol + i, xCol + i, yCol + i;
    assert a == socCol + T - 1 && c == xCol + T - 1 && d == yCol + T - 1;
    assert a != c && a != d && c != d;
    var down := MinusOne();
    assert SocRow(n, T, socCol, xCol, yCol, dischargeEntry, chargeEntry, i)
        == Zeros(n)[a := down][c := dischargeEntry][d := chargeEntry];
    DotThree(n, a, down, c, dischargeEntry, d, chargeEntry, v);
    assert down * v[a] == -v[a];
  }

  /** The single row of a one-period horizon holds exactly when that period goes from the start to the end value. */
  lemma SocOnlyRowMeaning(
    n: nat, socCol: nat, xCol: nat, yCol: nat,
    chargeCoeff: real, dischargeCoeff: real, chargeEntry: real, start: real, end: real, v: seq<real>)
    requires socCol + 1 < n && xCol + 1 <= n && yCol + 1 <= n && |v| == n
    requires Apart(socCol, xCol, 1) && Apart(socCol, yCol, 1) && Apart(xCol, yCol, 1)
    requires chargeEntry == -chargeCoeff
    ensures (Dot(SocRow(n, 1, socCol, xCol, yCol, dischargeCoeff, chargeEntry, 0), v) == SocBound(1, start, end, 0))
      <==> PeriodMoves(v[socCol..socCol + 1], v[xCol..xCol + 1], v[yCol..yCol + 1], start, end, chargeCoeff, dischargeCoeff, 0)
  {
    SocOnlyRowValue(n, socCol, xCol, yCol, dischargeCoeff, chargeEntry, v);
    assert v[xCol..xCol + 1][0] == v[xCol] && v[yCol..yCol + 1][0] == v[yCol];
  }

  /** The first row of a longer horizon holds exactly when the first period starts at the start value. */
  lemma SocFirstRowMeaning(
    n: nat, T: nat, socCol: nat, xCol: nat, yCol: nat,
    chargeCoeff: real, dischargeCoeff: real, chargeEntry: real, start: real, end: real, v: seq<real>)
    requires 2 <= T && socCol + T < n && xCol + T <= n && yCol + T <= n && |v| == n
    requires Apart(socCol, xCol, T) && Apart(socCol, yCol, T) && Apart(xCol, yCol, T)
    requires chargeEntry == -chargeCoeff
    ensures (Dot(SocRow(n, T, socCol, xCol, yCol, dischargeCoeff, chargeEntry, 0), v) == SocBound(T, start, end, 0))
      <==> PeriodMoves(v[socCol..socCol + T], v[xCol..xCol + T], v[yCol..yCol + T], start, end, chargeCoeff, dischargeCoeff, 0)
  {
    SocFirstRowValue(n, T, socCol, xCol, yCol, dischargeCoeff, chargeEntry, v);
    assert v[socCol..socCol + T][1] == v[socCol + 1];
    assert v[xCol..xCol + T][0] == v[xCol] && v[yCol..yCol + T][0] == v[yCol];
  }

  /** A middle row holds exactly when period `i` moves from one state of charge to the next. */
  lemma SocMiddleRowMeaning(
    n: nat, T: nat, socCol: nat, xCol: nat, yCol: nat,
    chargeCoeff: real, dischargeCoeff: real, chargeEntry: real, start: real, end: real, v: seq<real>, i: nat)
    requires 2 <= T && socCol + T < n && xCol + T <= n && yCol + T <= n && |v| == n
    requires Apart(socCol, xCol, T) && Apart(socCol, yCol, T) && Apart(xCol, yCol, T)
    requires chargeEntry == -chargeCoeff && 0 < i < T - 1
    ensures (Dot(SocRow(n, T, socCol, xCol, yCol, dischargeCoeff, chargeEntry, i), v) == SocBound(T, start, end, i))
      <==> PeriodMoves(v[socCol..socCol + T], v[xCol..xCol + T], v[yCol..yCol + T], start, end, chargeCoeff, dischargeCoeff, i)
  {
    SocMiddleRowValue(n, T, socCol, xCol, yCol, dischargeCoeff, chargeEntry, v, i);
    assert v[socCol..socCol + T][i] == v[socCol + i] && v[socCol..socCol + T][i + 1] == v[socCol + i + 1];
    assert v[xCol..xCol + T][i] == v[xCol + i] && v[yCol..yCol + T][i] == v[yCol + i];
  }

  /** The last row of a longer horizon holds exactly when the last period ends at the end value. */
  lemma SocLastRowMeaning(
    n: nat, T: nat, socCol: nat, xCol: nat, yCol: nat,
    chargeCoeff: real, dischargeCoeff: real, chargeEntry: real, start: real, end: real, v: seq<real>)
    requires 2 <= T && socCol + T < n && xCol + T <= n && yCol + T <= n && |v| == n
    requires Apart(socCol, xCol, T) && Apart(socCol, yCol, T) && Apart(xCol, yCol, T)
    requires chargeEntry == -chargeCoeff
    ensures (Dot(SocRow(n, T, socCol, xCol, yCol, dischargeCoeff, chargeEntry, T - 1), v) == SocBound(T, start, end, T - 1))
      <==> PeriodMoves(v[socCol..socCol + T], v[xCol..xCol + T], v[yCol..yCol + T], start, end, chargeCoeff, dischargeCoeff, T - 1)
  {
    SocLastRowValue(n, T, socCol, xCol, yCol, dischargeCoeff, chargeEntry, v);
    var i := T - 1;
    assert v[socCol..socCol + T][i] == v[socCol + i];
    assert v[xCol..xCol + T][i] == v[xCol + i] && v[yCol..yCol + T][i] == v[yCol + i];
  }

  /**
   * With separate blocks, row `i` holds exactly when period `i` obeys the
   * recurrence, the charge entry being the negated charge coefficient.
   */
  lemma SocRowMeaning(
    n: nat, T: nat, socCol: nat, xCol: nat, yCol: nat,
    chargeCoeff: real, dischargeCoeff: real, chargeEntry: real, start: real, end: real,
    v: seq<real>, i: nat)
    requires 1 <= T && i < T && socCol + T < n && xCol + T <= n && yCol + T <= n && |v| == n
    requires Apart(socCol, xCol, T) && Apart(socCol, yCol, T) && Apart(xCol, yCol, T)
    requires chargeEntry == -chargeCoeff
    ensures (Dot(SocRow(n, T, socCol, xCol, yCol, dischargeCoeff, chargeEntry, i), v) == SocBound(T, start, end, i))
      <==> PeriodMoves(v[socCol..socCol + T], v[xCol..xCol + T], v[yCol..yCol + T], start, end, chargeCoeff, dischargeCoeff, i)
  {
    if T == 1 {
      SocOnlyRowMeaning(n, socCol, xCol, yCol, chargeCoeff, dischargeCoeff, chargeEntry, start, end, v);
    } else if i == 0 {
      SocFirstRowMeaning(n, T, socCol, xCol, yCol, chargeCoeff, dischargeCoeff, chargeEntry, start, end, v);
    } else if i < T - 1 {
      SocMiddleRowMeaning(n, T, socCol, xCol, yCol, chargeCoeff, dischargeCoeff, chargeEntry, start, end, v, i);
    } else {
      SocLastRowMeaning(n, T, socCol, xCol, yCol, chargeCoeff, dischargeCoeff, chargeEntry, start, end, v);
    }
  }

  /**
   * The recurrence rows never touch the first state of charge, so it may be
   * anything: every row has coefficient 0 in column `socCol`.
   */
  lemma SocRowIgnoresFirstSoc(
    n: nat, T: nat, socCol: nat, xCol: nat, yCol: nat,
    dischargeEntry: real, chargeEntry: real, i: nat)
    requires i < T && socCol + T < n && xCol + T <= n && yCol + T <= n
    requires Apart(socCol, xCol, T) && Apart(socCol, yCol, T)
    ensures SocRow(n, T, socCol, xCol, yCol, dischargeEntry, chargeEntry, i)[socCol] == 0.0
  {
  }

  /** Replacing the first state of charge keeps a trajectory a trajectory. */
  lemma TrajectoryIgnoresFirstSoc(
    socs: seq<real>, xs: seq<real>, ys: seq<real>,
    start: real, end: real, chargeCoeff: real, dischargeCoeff: real, s: real)
    requires SocTrajectory(socs, xs, ys, start, end, chargeCoeff, dischargeCoeff) && 1 <= |socs|
    ensures SocTrajectory(socs[0 := s], xs, ys, start, end, chargeCoeff, dischargeCoeff)
  {
    var socs' := socs[0 := s];
    forall i | 0 <= i < |socs'|
      ensures PeriodMoves(socs', xs, ys, start, end, chargeCoeff, dischargeCoeff, i)
    {
      assert PeriodMoves(socs, xs, ys, start, end, chargeCoeff, dischargeCoeff, i);
      assert SocAfter(socs', end, i) == SocAfter(socs, end, i);
      assert SocBefore(socs', start, i) == SocBefore(socs, start, i);
    }
  }

  /** `x_i + M z_i <= M`: discharging is allowed only when the flag is 0. */
  function BigMDischargeRow(n: nat, zCol: nat, xCol: nat, m: real, i: nat): (row: seq<real>)
    requires zCol + i < n && xCol + i < n
    ensures |row| == n
  {
    Zeros(n)[zCol + i := m][xCol + i := 1.0]
  }

  /** `y_i - M z_i <= 0`: charging is allowed only when the flag is 1. */
  function BigMChargeRow(n: nat, zCol: nat, yCol: nat, m: real, i: nat): (row: seq<real>)
    requires zCol + i < n && yCol + i < n
    ensures |row| == n
  {
    Zeros(n)[zCol + i := -m][yCol + i := 1.0]
  }

  /** The value of the discharge Big-M row at `v`: `x_i + M z_i`. */
  lemma BigMDischargeRowValue(n: nat, zCol: nat, xCol: nat, m: real, i: nat, v: seq<real>)
    requires zCol + i < n && xCol + i < n && zCol != xCol && |v| == n
    ensures Dot(BigMDischargeRow(n, zCol, xCol, m, i), v) == v[xCol + i] + m * v[zCol + i]
  {
    DotTwo(n, zCol + i, m, xCol + i, 1.0, v);
  }

  /** The value of the charge Big-M row at `v`: `y_i - M z_i`. */
  lemma BigMChargeRowValue(n: nat, zCol: nat, yCol: nat, m: real, i: nat, v: seq<real>)
    requires zCol + i < n && yCol + i < n && zCol != yCol && |v| == n
    ensures Dot(BigMChargeRow(n, zCol, yCol, m, i), v) == v[yCol + i] - m * v[zCol + i]
  {
    DotTwo(n, zCol + i, -m, yCol + i, 1.0, v);
  }

  /**
   * The Big-M pair, together with the solver's bounds (non-negative flows,
   * a non-negative integral flag), makes the flag boolean and rules out
   * charging and discharging in the same period.
   */
  lemma BigMExclusive(x: real, y: real, z: real, m: real)
    requires 0.0 < m && 0.0 <= x && 0.0 <= y && 0.0 <= z && IsInteger(z)
    requires x + m * z <= m && y - m * z <= 0.0
    ensures z == 0.0 || z == 1.0
    ensures x > 0.0 ==> y == 0.0
    ensures y > 0.0 ==> x == 0.0
  {
    assert m * (1.0 - z) >= x;
    assert z == z.Floor as real;
  }

  /**
   * Conversely the pair cuts off no schedule that respects the exclusion
   * and whose flows do not exceed `M`: the flag 0 fits a discharging period,
   * the flag 1 every other period.
   */
  lemma BigMAdmitsExclusive(x: real, y: real, m: real)
    requires 0.0 <= x <= m && 0.0 <= y <= m && (x == 0.0 || y == 0.0)
    ensures var z := if x > 0.0 then 0.0 else 1.0;
      IsInteger(z) && x + m * z <= m && y - m * z <= 0.0
  {
  }
}
