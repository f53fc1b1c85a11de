/** The toy rule backtester (src/cracklib.py:152-165): position flags from the
    z-score, strategy returns, running sums of returns, the annualised return and
    Sharpe ratio of the summary (src/cracklib.py:180-182), and the maximum
    drawdown of an equity curve.  Daily log returns and equity curves are inputs:
    the model has no logarithm or exponential. */
module ToyRule {
  import opened Columns

  const TradingDays: real := 252.0

  // ---------------------------------------------------------------------
  // Positions

  /** `np.where(z > 1, 1.0, 0.0)`: long CRAK when the spread is rich. */
  function PositionCRAK(z: Option<real>): (pos: real)
    ensures pos == 0.0 || pos == 1.0
    ensures pos == 1.0 <==> z.Some? && z.value > 1.0
  {
    if z.Some? && z.value > 1.0 then 1.0 else 0.0
  }

  /** `np.where(z < -1, -1.0, 0.0)`: short crude when the spread is cheap. */
  function PositionCL(z: Option<real>): (pos: real)
    ensures pos == 0.0 || pos == -1.0
    ensures pos == -1.0 <==> z.Some? && z.value < -1.0
  {
    if z.Some? && z.value < -1.0 then -1.0 else 0.0
  }

  /** The two legs are never both in the market on the same row. */
  lemma PositionsExclusive(z: Option<real>)
    ensures PositionCRAK(z) == 0.0 || PositionCL(z) == 0.0
  {
  }

  /** `pos * ret`: NaN where the return is NaN (0 * NaN is NaN). */
  function StrategyReturns(pos: seq<real>, ret: Column): (s: Column)
    requires |pos| == |ret|
    ensures |s| == |ret|
    ensures forall i :: 0 <= i < |ret| ==> (s[i].Some? <==> ret[i].Some?)
    ensures forall i :: 0 <= i < |ret| ==> ValueOr0(s[i]) == pos[i] * ValueOr0(ret[i])
    ensures forall i :: 0 <= i < |ret| && pos[i] == 1.0 ==> s[i] == ret[i]
  {
    seq(|ret|, i requires 0 <= i < |ret| => if ret[i].Some? then Some(pos[i] * ret[i].value) else None)
  }

  /** The columns the rule adds for one instrument. */
  datatype LegTrace = LegTrace(ret: Column, strat: Column, cumRet: seq<real>, cumStrat: seq<real>)

  /** The rule's output: the forward-filled z it read, both position columns and,
      for each instrument present, its returns and running sums. */
  datatype Trace = Trace(z: Column, posCRAK: seq<real>, posCL: seq<real>, crak: Option<LegTrace>, cl: Option<LegTrace>)

  function LegOf(pos: seq<real>, ret: Column): (t: LegTrace)
    requires |pos| == |ret|
    ensures t.ret == ret && t.strat == StrategyReturns(pos, ret)
    ensures |t.cumRet| == |ret| && |t.cumStrat| == |ret|
  {
    var strat := StrategyReturns(pos, ret);
    LegTrace(ret, strat, CumSum(ret), CumSum(strat))
  }

  /** `toy_rule`.  The joined frame is forward filled before the rule reads it, so
      the z-score it uses is `FFill(z)`.  `crakRet` / `clRet` are the daily log
      returns of CRAK and CL=F, `None` when the instrument is absent; an absent
      instrument's position column is 0 throughout. */
  function ToyRule(z: Column, crakRet: Option<Column>, clRet: Option<Column>): (t: Trace)
    requires crakRet.Some? ==> |crakRet.value| == |z|
    requires clRet.Some? ==> |clRet.value| == |z|
    ensures t.z == FFill(z) && |t.posCRAK| == |z| && |t.posCL| == |z|
    ensures forall i :: 0 <= i < |z| ==>
      && (t.posCRAK[i] == 0.0 || t.posCRAK[i] == 1.0)
      && (t.posCRAK[i] == 1.0 <==> crakRet.Some? && t.z[i].Some? && t.z[i].value > 1.0)
      && (t.posCL[i] == 0.0 || t.posCL[i] == -1.0)
      && (t.posCL[i] == -1.0 <==> clRet.Some? && t.z[i].Some? && t.z[i].value < -1.0)
      && (t.posCRAK[i] == 0.0 || t.posCL[i] == 0.0)
    ensures t.crak.Some? <==> crakRet.Some?
    ensures t.crak.Some? ==> t.crak.value == LegOf(t.posCRAK, crakRet.value)
    ensures t.cl.Some? <==> clRet.Some?
    ensures t.cl.Some? ==> t.cl.value == LegOf(t.posCL, clRet.value)
  {
    var zf := FFill(z);
    var n := |z|;
    var posCRAK := seq(n, i requires 0 <= i < n => if crakRet.Some? then PositionCRAK(zf[i]) else 0.0);
    var posCL := seq(n, i requires 0 <= i < n => if clRet.Some? then PositionCL(zf[i]) else 0.0);
    assert forall i :: 0 <= i < n ==> posCRAK[i] == 0.0 || posCL[i] == 0.0 by {
      forall i | 0 <= i < n ensures posCRAK[i] == 0.0 || posCL[i] == 0.0 {
        PositionsExclusive(zf[i]);
      }
    }
    Trace(zf, posCRAK, posCL,
      if crakRet.Some? then Some(LegOf(posCRAK, crakRet.value)) else None,
      if clRet.Some? then Some(LegOf(posCL, clRet.value)) else None)
  }

  /** Because of the forward fill, a row without a z-score takes the position of
      the latest row that has one, and is flat only before the first z-score. */
  lemma PositionFollowsLatestZ(z: Column, crakRet: Column, clRet: Column, i: nat)
    requires |crakRet| == |z| && |clRet| == |z| && i < |z|
    ensures var t := ToyRule(z, Some(crakRet), Some(clRet)); var j := LatestAt(z, i);
      && (t.posCRAK[i] == 1.0 <==> j >= 0 && z[j].value > 1.0)
      && (t.posCL[i] == -1.0 <==> j >= 0 && z[j].value < -1.0)
  {
    FFillAt(z, i);
  }

  /** Row by row, a leg's running sums add up its returns with NaN as 0, and a
      flat position contributes nothing to the strategy's sum. */
  lemma LegSums(pos: seq<real>, ret: Column, i: nat)
    requires |pos| == |ret| && i < |ret|
    ensures var t := LegOf(pos, ret);
      && t.cumRet[i] == SumNull0(ret[..i + 1])
      && t.cumStrat[i] == SumNull0(t.strat[..i + 1])
      && (i == 0 ==> t.cumStrat[0] == pos[0] * ValueOr0(ret[0]))
      && (i > 0 ==> t.cumStrat[i] == t.cumStrat[i - 1] + pos[i] * ValueOr0(ret[i]))
  {
    var strat := StrategyReturns(pos, ret);
    CumSumAt(ret, i);
    CumSumAt(strat, i);
    StrategySumSteps(strat, pos, ret, i);
  }

  /** One step of the strategy's running sum. */
  lemma StrategySumSteps(strat: Column, pos: seq<real>, ret: Column, i: nat)
    requires |pos| == |ret| && i < |ret| && strat == StrategyReturns(pos, ret)
    ensures i == 0 ==> CumSum(strat)[0] == pos[0] * ValueOr0(ret[0])
    ensures i > 0 ==> CumSum(strat)[i] == CumSum(strat)[i - 1] + pos[i] * ValueOr0(ret[i])
  {
    CumSumSteps(strat, i);
    assert ValueOr0(strat[i]) == pos[i] * ValueOr0(ret[i]);
  }

  /** The worked example: z at 0.9 then 1.5 gives a CRAK flag of 0 then 1. */
  lemma RichDayExample(r0: Option<real>, r1: Option<real>)
    ensures ToyRule([Some(0.9), Some(1.5)], Some([r0, r1]), None).posCRAK == [0.0, 1.0]
  {
  }

  // ---------------------------------------------------------------------
  // Summary statistics

  /** `daily.mean() * 252` over the non-null strategy returns (NaN if none). */
  function AnnualisedReturn(daily: Column): (r: Option<real>)
    ensures r.Some? <==> |NonNull(daily)| > 0
    ensures r.Some? ==> r.value * (|NonNull(daily)| as real) == SumNull0(daily) * TradingDays
  {
    var vs := NonNull(daily);
    SumOfNonNull(daily);
    if vs == [] then None else Some(Sum(vs) / (|vs| as real) * TradingDays)
  }

  /** `ann_ret / ann_vol if ann_vol > 0 else nan`; a NaN volatility compares false. */
  function Sharpe(annReturn: Option<real>, annVol: Option<real>): (r: Option<real>)
    ensures r.Some? <==> annReturn.Some? && annVol.Some? && annVol.value > 0.0
    ensures r.Some? ==> r.value * annVol.value == annReturn.value
  {
    if annVol.Some? && annVol.value > 0.0 && annReturn.Some? then Some(annReturn.value / annVol.value) else None
  }

  // ---------------------------------------------------------------------
  // Maximum drawdown

  predicate Positive(eq: seq<real>)
  {
    forall i :: 0 <= i < |eq| ==> eq[i] > 0.0
  }

  predicate NonDecreasing(eq: seq<real>)
  {
    forall i, j :: 0 <= i <= j < |eq| ==> eq[i] <= eq[j]
  }

  function Max(a: real, b: real): real
  {
    if a >= b then a else b
  }

  /** `cummax()`: the highest equity seen so far. */
  function RunningPeak(eq: seq<real>): (peak: seq<real>)
    ensures |peak| == |eq|
    ensures forall i, j :: 0 <= j <= i < |eq| ==> eq[j] <= peak[i]
    ensures forall i :: 0 <= i < |eq| ==> exists j :: 0 <= j <= i && peak[i] == eq[j]
  {
    if eq == [] then []
    else
      var n := |eq|;
      var prev := RunningPeak(eq[..n - 1]);
      var top := if n == 1 then eq[0] else Max(prev[n - 2], eq[n - 1]);
      assert n > 1 ==> exists j :: 0 <= j <= n - 2 && prev[n - 2] == eq[j];
      prev + [top]
  }

  /** `(eq - peak) / peak` at every row. */
  function Drawdowns(eq: seq<real>): (dd: seq<real>)
    requires Positive(eq)
    ensures |dd| == |eq|
    ensures forall i :: 0 <= i < |eq| ==> -1.0 < dd[i] <= 0.0
    ensures forall i :: 0 <= i < |eq| ==> (dd[i] == 0.0 <==> eq[i] == RunningPeak(eq)[i])
  {
    var peak := RunningPeak(eq);
    PeakAbove(eq, peak);
    RowDrawdowns(eq, peak)
  }

  /** The drawdown of each row against a peak that is at least its value. */
  function RowDrawdowns(eq: seq<real>, peak: seq<real>): (dd: seq<real>)
    requires |peak| == |eq| && forall i :: 0 <= i < |eq| ==> 0.0 < eq[i] <= peak[i]
    ensures |dd| == |eq|
    ensures forall i :: 0 <= i < |eq| ==> -1.0 < dd[i] <= 0.0 && (dd[i] == 0.0 <==> eq[i] == peak[i])
  {
    var dd := seq(|eq|, i requires 0 <= i < |eq| => DrawdownAt(eq[i], peak[i]));
    assert forall i :: 0 <= i < |eq| ==> dd[i] == DrawdownAt(eq[i], peak[i]);
    dd
  }

  lemma PeakAbove(eq: seq<real>, peak: seq<real>)
    requires Positive(eq) && peak == RunningPeak(eq)
    ensures forall i :: 0 <= i < |eq| ==> 0.0 < eq[i] <= peak[i]
  {
  }

  /** The drawdown of one row: its fall below the peak as a fraction of the peak. */
  function DrawdownAt(e: real, p: real): (d: real)
    requires 0.0 < e <= p
    ensures -1.0 < d <= 0.0
    ensures d == 0.0 <==> e == p
  {
    FractionBounds(e, p);
    (e - p) / p
  }

  lemma FractionBounds(e: real, p: real)
    requires 0.0 < e <= p
    ensures -1.0 < (e - p) / p <= 0.0
    ensures (e - p) / p == 0.0 <==> e == p
  {
    var d := (e - p) / p;
    assert d * p == e - p;
    assert (d + 1.0) * p == e;
    if d > 0.0 || d <= -1.0 {
      assert false;
    }
  }

  /** The least element of a non-empty list. */
  function Min(s: seq<real>): (m: real)
    requires |s| > 0
    ensures m in s
    ensures forall x :: x in s ==> m <= x
  {
    if |s| == 1 then s[0]
    else
      var rest := Min(s[1..]);
      assert forall x :: x in s ==> x == s[0] || x in s[1..];
      if s[0] <= rest then s[0] else rest
  }

  /** `max_drawdown` on an equity curve: the worst drop below the running peak,
      as a fraction of the peak.  `Series.min()` of an empty curve is NaN. */
  function MaxDrawdown(eq: seq<real>): (r: Option<real>)
    requires Positive(eq)
    ensures r.None? <==> eq == []
    ensures r.Some? ==> -1.0 < r.value <= 0.0
    ensures r.Some? ==> r.value in Drawdowns(eq) && forall d :: d in Drawdowns(eq) ==> r.value <= d
    ensures r.Some? ==> (r.value == 0.0 <==> NonDecreasing(eq))
  {
    if eq == [] then None
    else
      var dd := Drawdowns(eq);
      var m := Min(dd);
      NoDrawdownIffNonDecreasing(eq);
      assert m == 0.0 <==> forall i :: 0 <= i < |eq| ==> dd[i] == 0.0 by {
        if m == 0.0 {
          forall i | 0 <= i < |eq| ensures dd[i] == 0.0 {
            assert dd[i] in dd;
          }
        }
      }
      Some(m)
  }

  /** Equity never falls below its running peak exactly when it never decreases. */
  lemma NoDrawdownIffNonDecreasing(eq: seq<real>)
    ensures NonDecreasing(eq) <==> forall i :: 0 <= i < |eq| ==> eq[i] == RunningPeak(eq)[i]
  {
    var peak := RunningPeak(eq);
    if NonDecreasing(eq) {
      forall i | 0 <= i < |eq| ensures eq[i] == peak[i] {
        var j :| 0 <= j <= i && peak[i] == eq[j];
      }
    }
    if forall i :: 0 <= i < |eq| ==> eq[i] == peak[i] {
      forall i, j | 0 <= i <= j < |eq| ensures eq[i] <= eq[j] {
        assert eq[i] <= peak[j];
      }
    }
  }
}
