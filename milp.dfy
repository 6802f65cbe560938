/**
 * Dense constraint rows over a flat vector of decision variables, and the
 * mixed-integer linear program that both battery schedulers hand to their
 * solver: an objective to minimise, `A_ub v <= b_ub`, `A_eq v == b_eq`,
 * the solver's default bounds `v >= 0`, and an integrality mask.
 */
module Milp {

  /** `n` zero coefficients: the row every constraint starts from. */
  function Zeros(n: nat): (r: seq<real>)
    ensures |r| == n
    ensures forall j :: 0 <= j < n ==> r[j] == 0.0
  {
    seq(n, _ => 0.0)
  }

  /**
   * The coefficient -1. Rows write it through this function, so that a
   * row holding it is reasoned about like a row with symbolic coefficients.
   */
  function MinusOne(): real {
    -1.0
  }

  /** `n` copies of `k`. */
  function Constant(n: nat, k: real): (r: seq<real>)
    ensures |r| == n
    ensures forall j :: 0 <= j < n ==> r[j] == k
  {
    seq(n, _ => k)
  }

  /** Every entry negated. */
  function Negated(s: seq<real>): (r: seq<real>)
    ensures |r| == |s|
    ensures forall j :: 0 <= j < |s| ==> r[j] == -s[j]
  {
    seq(|s|, j requires 0 <= j < |s| => -s[j])
  }

  /** A row with the single coefficient `k` in column `c`. */
  function Unit(n: nat, c: nat, k: real): (r: seq<real>)
    requires c < n
    ensures |r| == n
  {
    Zeros(n)[c := k]
  }

  /** A row with coefficient 1 on the columns `lo .. lo + k - 1` and 0 elsewhere. */
  function Indicator(n: nat, lo: nat, k: nat): (r: seq<real>)
    requires lo + k <= n
    ensures |r| == n
    ensures forall j :: 0 <= j < n ==> r[j] == if lo <= j < lo + k then 1.0 else 0.0
  {
    seq(n, j => if lo <= j < lo + k then 1.0 else 0.0)
  }

  function Sum(s: seq<real>): real
    decreases |s|
  {
    if |s| == 0 then 0.0 else Sum(s[..|s| - 1]) + s[|s| - 1]
  }

  /** The value of the linear form with coefficients `a` at the point `v`. */
  function Dot(a: seq<real>, v: seq<real>): real
    requires |a| == |v|
  {
    PartialDot(a, v, |a|)
  }

  /** The sum of the first `m` products `a[j] * v[j]`. */
  function PartialDot(a: seq<real>, v: seq<real>, m: nat): real
    requires |a| == |v| && m <= |a|
    decreases m
  {
    if m == 0 then 0.0 else PartialDot(a, v, m - 1) + a[m - 1] * v[m - 1]
  }

  lemma {:induction false} PartialDotZeros(v: seq<real>, m: nat)
    requires m <= |v|
    ensures PartialDot(Zeros(|v|), v, m) == 0.0
    decreases m
  {
    if m > 0 {
      PartialDotZeros(v, m - 1);
    }
  }

  lemma DotZeros(v: seq<real>)
    ensures Dot(Zeros(|v|), v) == 0.0
  {
    PartialDotZeros(v, |v|);
  }

  lemma {:induction false} PartialDotZeroPoint(a: seq<real>, m: nat)
    requires m <= |a|
    ensures PartialDot(a, Zeros(|a|), m) == 0.0
    decreases m
  {
    if m > 0 {
      PartialDotZeroPoint(a, m - 1);
    }
  }

  /** Every row is 0 at the origin. */
  lemma DotZeroPoint(a: seq<real>)
    ensures Dot(a, Zeros(|a|)) == 0.0
  {
    PartialDotZeroPoint(a, |a|);
  }

  lemma {:induction false} PartialDotUpdate(a: seq<real>, v: seq<real>, c: nat, k: real, m: nat)
    requires |a| == |v| && c < |a| && m <= |a|
    ensures PartialDot(a[c := k], v, m) == PartialDot(a, v, m) + (if c < m then (k - a[c]) * v[c] else 0.0)
    decreases m
  {
    if m > 0 {
      PartialDotUpdate(a, v, c, k, m - 1);
      if c == m - 1 {
        assert k * v[c] == a[c] * v[c] + (k - a[c]) * v[c];
      }
    }
  }

  /** Overwriting one coefficient changes the value by the change times that variable. */
  lemma DotUpdate(a: seq<real>, v: seq<real>, c: nat, k: real)
    requires |a| == |v| && c < |a|
    ensures Dot(a[c := k], v) == Dot(a, v) + (k - a[c]) * v[c]
  {
    PartialDotUpdate(a, v, c, k, |a|);
  }

  lemma {:induction false} PartialDotPointUpdate(a: seq<real>, v: seq<real>, c: nat, s: real, m: nat)
    requires |a| == |v| && c < |v| && m <= |a|
    ensures PartialDot(a, v[c := s], m) == PartialDot(a, v, m) + (if c < m then a[c] * (s - v[c]) else 0.0)
    decreases m
  {
    if m > 0 {
      PartialDotPointUpdate(a, v, c, s, m - 1);
    }
  }

  /** Changing one entry of the point moves the product by that entry's coefficient times the change. */
  lemma DotPointUpdate(a: seq<real>, v: seq<real>, c: nat, s: real)
    requires |a| == |v| && c < |v|
    ensures Dot(a, v[c := s]) == Dot(a, v) + a[c] * (s - v[c])
  {
    PartialDotPointUpdate(a, v, c, s, |a|);
  }

  lemma DotOne(n: nat, c: nat, k: real, v: seq<real>)
    requires |v| == n && c < n
    ensures Dot(Zeros(n)[c := k], v) == k * v[c]
  {
    DotZeros(v);
    DotUpdate(Zeros(n), v, c, k);
  }

  lemma DotTwo(n: nat, c1: nat, k1: real, c2: nat, k2: real, v: seq<real>)
    requires |v| == n && c1 < n && c2 < n && c1 != c2
    ensures Dot(Zeros(n)[c1 := k1][c2 := k2], v) == k1 * v[c1] + k2 * v[c2]
  {
    DotOne(n, c1, k1, v);
    DotUpdate(Zeros(n)[c1 := k1], v, c2, k2);
  }

  lemma DotThree(n: nat, c1: nat, k1: real, c2: nat, k2: real, c3: nat, k3: real, v: seq<real>)
    requires |v| == n && c1 < n && c2 < n && c3 < n
    requires c1 != c2 && c1 != c3 && c2 != c3
    ensures Dot(Zeros(n)[c1 := k1][c2 := k2][c3 := k3], v) == k1 * v[c1] + k2 * v[c2] + k3 * v[c3]
  {
    var r2 := Zeros(n)[c1 := k1][c2 := k2];
    DotTwo(n, c1, k1, c2, k2, v);
    assert r2[c3] == 0.0;
    DotUpdate(r2, v, c3, k3);
  }

  lemma DotFour(n: nat, c1: nat, k1: real, c2: nat, k2: real, c3: nat, k3: real, c4: nat, k4: real, v: seq<real>)
    requires |v| == n && c1 < n && c2 < n && c3 < n && c4 < n
    requires c1 != c2 && c1 != c3 && c1 != c4 && c2 != c3 && c2 != c4 && c3 != c4
    ensures Dot(Zeros(n)[c1 := k1][c2 := k2][c3 := k3][c4 := k4], v)
         == k1 * v[c1] + k2 * v[c2] + k3 * v[c3] + k4 * v[c4]
  {
    var r3 := Zeros(n)[c1 := k1][c2 := k2][c3 := k3];
    DotThree(n, c1, k1, c2, k2, c3, k3, v);
    assert r3[c4] == 0.0;
    DotUpdate(r3, v, c4, k4);
  }

  lemma {:induction false} PartialDotIndicator(n: nat, lo: nat, k: nat, v: seq<real>, m: nat)
    requires |v| == n && lo + k <= n && lo <= m <= lo + k
    ensures PartialDot(Indicator(n, lo, k), v, m) == Sum(v[lo..m])
    decreases m
  {
    if m == lo {
      PartialDotBelow(Indicator(n, lo, k), v, lo);
    } else {
      PartialDotIndicator(n, lo, k, v, m - 1);
      assert v[lo..m][..m - 1 - lo] == v[lo..m - 1];
    }
  }

  /** A row that is zero on its first `m` columns contributes nothing there. */
  lemma {:induction false} PartialDotBelow(a: seq<real>, v: seq<real>, m: nat)
    requires |a| == |v| && m <= |a|
    requires forall j :: 0 <= j < m ==> a[j] == 0.0
    ensures PartialDot(a, v, m) == 0.0
    decreases m
  {
    if m > 0 {
      PartialDotBelow(a, v, m - 1);
    }
  }

  /** A row that is zero from column `m` on has its whole value in the first `m` columns. */
  lemma {:induction false} PartialDotAbove(a: seq<real>, v: seq<real>, m: nat, p: nat)
    requires |a| == |v| && m <= p <= |a|
    requires forall j :: m <= j < |a| ==> a[j] == 0.0
    ensures PartialDot(a, v, p) == PartialDot(a, v, m)
    decreases p
  {
    if p > m {
      PartialDotAbove(a, v, m, p - 1);
    }
  }

  /** An indicator row sums the variables it covers. */
  lemma DotIndicator(n: nat, lo: nat, k: nat, v: seq<real>)
    requires |v| == n && lo + k <= n
    ensures Dot(Indicator(n, lo, k), v) == Sum(v[lo..lo + k])
  {
    PartialDotIndicator(n, lo, k, v, lo + k);
    PartialDotAbove(Indicator(n, lo, k), v, lo + k, n);
  }

  lemma {:induction false} PartialDotAppend(a1: seq<real>, a2: seq<real>, v1: seq<real>, v2: seq<real>, m: nat)
    requires |a1| == |v1| && |a2| == |v2| && m <= |a2|
    ensures PartialDot(a1 + a2, v1 + v2, |a1| + m) == Dot(a1, v1) + PartialDot(a2, v2, m)
    decreases m
  {
    if m == 0 {
      PartialDotPrefix(a1, a2, v1, v2, |a1|);
    } else {
      PartialDotAppend(a1, a2, v1, v2, m - 1);
      assert (a1 + a2)[|a1| + m - 1] == a2[m - 1];
      assert (v1 + v2)[|v1| + m - 1] == v2[m - 1];
    }
  }

  /** Appending columns does not change the value over the columns already there. */
  lemma {:induction false} PartialDotPrefix(a1: seq<real>, a2: seq<real>, v1: seq<real>, v2: seq<real>, m: nat)
    requires |a1| == |v1| && |a2| == |v2| && m <= |a1|
    ensures PartialDot(a1 + a2, v1 + v2, m) == PartialDot(a1, v1, m)
    decreases m
  {
    if m > 0 {
      PartialDotPrefix(a1, a2, v1, v2, m - 1);
      assert (a1 + a2)[m - 1] == a1[m - 1] && (v1 + v2)[m - 1] == v1[m - 1];
    }
  }

  /** A prefix of `full` grows by one element into the next prefix. */
  lemma PrefixExtend<X>(full: seq<X>, part: seq<X>, x: X)
    requires |part| < |full| && part == full[..|part|] && x == full[|part|]
    ensures part + [x] == full[..|part| + 1]
  {
    assert full[..|part| + 1] == full[..|part|] + [full[|part|]];
  }

  /** The value of a row made of two blocks is the sum of the blocks' values. */
  lemma DotAppend(a1: seq<real>, a2: seq<real>, v1: seq<real>, v2: seq<real>)
    requires |a1| == |v1| && |a2| == |v2|
    ensures Dot(a1 + a2, v1 + v2) == Dot(a1, v1) + Dot(a2, v2)
  {
    PartialDotAppend(a1, a2, v1, v2, |a2|);
  }

  /** The value of a row made of two blocks, with the point cut where the first block ends. */
  lemma DotSplitAt(a1: seq<real>, a2: seq<real>, v: seq<real>)
    requires |a1| + |a2| == |v|
    ensures Dot(a1 + a2, v) == Dot(a1, v[..|a1|]) + Dot(a2, v[|a1|..])
  {
    assert v == v[..|a1|] + v[|a1|..];
    DotAppend(a1, a2, v[..|a1|], v[|a1|..]);
  }

  lemma {:induction false} PartialDotNegated(a: seq<real>, v: seq<real>, m: nat)
    requires |a| == |v| && m <= |a|
    ensures PartialDot(Negated(a), v, m) == -PartialDot(a, v, m)
    decreases m
  {
    if m > 0 {
      PartialDotNegated(a, v, m - 1);
    }
  }

  lemma DotNegated(a: seq<real>, v: seq<real>)
    requires |a| == |v|
    ensures Dot(Negated(a), v) == -Dot(a, v)
  {
    PartialDotNegated(a, v, |a|);
  }

  lemma {:induction false} PartialDotConstant(k: real, v: seq<real>, m: nat)
    requires m <= |v|
    ensures PartialDot(Constant(|v|, k), v, m) == k * Sum(v[..m])
    decreases m
  {
    if m > 0 {
      PartialDotConstant(k, v, m - 1);
      assert v[..m][..m - 1] == v[..m - 1];
    }
  }

  /** A row of equal coefficients scales the sum of the variables. */
  lemma DotConstant(k: real, v: seq<real>)
    ensures Dot(Constant(|v|, k), v) == k * Sum(v)
  {
    PartialDotConstant(k, v, |v|);
    assert v[..|v|] == v;
  }

  lemma {:induction false} SumNonNegative(s: seq<real>)
    requires forall j :: 0 <= j < |s| ==> 0.0 <= s[j]
    ensures 0.0 <= Sum(s)
    decreases |s|
  {
    if |s| > 0 {
      SumNonNegative(s[..|s| - 1]);
    }
  }

  /** Non-negative entries that sum to zero are all zero. */
  lemma {:induction false} ZeroSumOfNonNegative(s: seq<real>)
    requires forall j :: 0 <= j < |s| ==> 0.0 <= s[j]
    requires Sum(s) == 0.0
    ensures forall j :: 0 <= j < |s| ==> s[j] == 0.0
    decreases |s|
  {
    if |s| > 0 {
      var n := |s|;
      SumNonNegative(s[..n - 1]);
      ZeroSumOfNonNegative(s[..n - 1]);
      assert forall j :: 0 <= j < n - 1 ==> s[j] == s[..n - 1][j];
    }
  }

  /** Every row `r` of `a` holds as `a[r] . v <= b[r]`. */
  predicate SatisfiesLe(a: seq<seq<real>>, b: seq<real>, v: seq<real>) {
    |a| == |b| && forall r :: 0 <= r < |a| ==> |a[r]| == |v| && Dot(a[r], v) <= b[r]
  }

  /** Every row `r` of `a` holds as `a[r] . v == b[r]`. */
  predicate SatisfiesEq(a: seq<seq<real>>, b: seq<real>, v: seq<real>) {
    |a| == |b| && forall r :: 0 <= r < |a| ==> |a[r]| == |v| && Dot(a[r], v) == b[r]
  }

  lemma SatisfiesEqAppend(a1: seq<seq<real>>, b1: seq<real>, a2: seq<seq<real>>, b2: seq<real>, v: seq<real>)
    requires |a1| == |b1| && |a2| == |b2|
    ensures SatisfiesEq(a1 + a2, b1 + b2, v) <==> SatisfiesEq(a1, b1, v) && SatisfiesEq(a2, b2, v)
  {
    if SatisfiesEq(a1 + a2, b1 + b2, v) {
      forall r | 0 <= r < |a1| ensures |a1[r]| == |v| && Dot(a1[r], v) == b1[r] {
        assert (a1 + a2)[r] == a1[r] && (b1 + b2)[r] == b1[r];
      }
      forall r | 0 <= r < |a2| ensures |a2[r]| == |v| && Dot(a2[r], v) == b2[r] {
        assert (a1 + a2)[|a1| + r] == a2[r] && (b1 + b2)[|b1| + r] == b2[r];
      }
    }
    if SatisfiesEq(a1, b1, v) && SatisfiesEq(a2, b2, v) {
      forall r | 0 <= r < |a1 + a2| ensures |(a1 + a2)[r]| == |v| && Dot((a1 + a2)[r], v) == (b1 + b2)[r] {
        if r < |a1| {
          assert (a1 + a2)[r] == a1[r] && (b1 + b2)[r] == b1[r];
        } else {
          assert (a1 + a2)[r] == a2[r - |a1|] && (b1 + b2)[r] == b2[r - |b1|];
        }
      }
    }
  }

  /** A one-row system holds exactly when its row does. */
  lemma SatisfiesEqSingle(a: seq<real>, b: real, v: seq<real>)
    ensures SatisfiesEq([a], [b], v) <==> |a| == |v| && Dot(a, v) == b
  {
    if SatisfiesEq([a], [b], v) {
      assert [a][0] == a && [b][0] == b;
    }
    if |a| == |v| && Dot(a, v) == b {
      forall r | 0 <= r < 1
        ensures |[a][r]| == |v| && Dot([a][r], v) == [b][r]
      {
        assert [a][r] == a && [b][r] == b;
      }
    }
  }

  /**
   * The program given to the solver: minimise `c . v` subject to the two
   * systems, with `v[j]` integral wherever `integrality[j] == 1`.
   */
  datatype Milp = Milp(
    c: seq<real>,
    aUb: seq<seq<real>>, bUb: seq<real>,
    aEq: seq<seq<real>>, bEq: seq<real>,
    integrality: seq<int>)

  /** What the solver reports: a success flag and a point. */
  datatype SolverResult = SolverResult(success: bool, x: seq<real>)

  predicate IsInteger(r: real) {
    r == r.Floor as real
  }

  /**
   * `v` satisfies every constraint of `lp`, including the solver's default
   * bounds (every variable non-negative, upper bound open).
   */
  predicate Feasible(lp: Milp, v: seq<real>) {
    && |v| == |lp.c|
    && |lp.integrality| == |v|
    && (forall j :: 0 <= j < |v| ==> 0.0 <= v[j])
    && SatisfiesLe(lp.aUb, lp.bUb, v)
    && SatisfiesEq(lp.aEq, lp.bEq, v)
    && (forall j :: 0 <= j < |v| && lp.integrality[j] == 1 ==> IsInteger(v[j]))
  }

  /**
   * What the schedulers rely on from the solver: whenever it reports
   * success, its point is feasible for the program it was given.
   */
  ghost predicate SolverSound(solver: Milp -> SolverResult) {
    forall lp :: solver(lp).success ==> Feasible(lp, solver(lp).x)
  }

  /** The mask marking the last `integral` of `continuous + integral` variables as integers. */
  function IntegralityMask(continuous: nat, integral: nat): (m: seq<int>)
    ensures |m| == continuous + integral
    ensures forall j :: 0 <= j < continuous ==> m[j] == 0
    ensures forall j :: continuous <= j < |m| ==> m[j] == 1
  {
    seq(continuous, _ => 0) + seq(integral, _ => 1)
  }

  /** Under the mask, the integrality requirement is exactly that the last `integral` entries are whole numbers. */
  lemma MaskedIntegral(continuous: nat, integral: nat, v: seq<real>)
    requires |v| == continuous + integral
    ensures (forall j :: 0 <= j < |v| && IntegralityMask(continuous, integral)[j] == 1 ==> IsInteger(v[j]))
        <==> (forall j :: continuous <= j < |v| ==> IsInteger(v[j]))
  {
  }
}
