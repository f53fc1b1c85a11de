/** The 21-row forward return of `compute_conditional_forward_returns`
    (src/cracklib.py:76 and :80): at each date, the sum of the daily log returns
    of the next 21 trading days. */
module Forward {
  import opened Columns

  const Horizon: nat := 21

  /** `shift(-k)` for k >= 0: row `i` takes row `i + k`, and the last `k` rows
      become NaN. */
  function ShiftUp(c: Column, k: nat): (r: Column)
    ensures |r| == |c|
    ensures forall i :: 0 <= i < |c| ==> r[i] == (if i + k < |c| then c[i + k] else None)
  {
    seq(|c|, i requires 0 <= i < |c| => if i + k < |c| then c[i + k] else None)
  }

  /** `rolling(w).sum()` with the default `min_periods = w`: the sum of the `w`
      rows ending at `i`, NaN while the window is short or holds a NaN. */
  function RollingSum(c: Column, w: nat): (r: Column)
    requires w > 0
    ensures |r| == |c|
    ensures forall i :: 0 <= i < |c| ==>
      (r[i].Some? <==> i + 1 >= w && AllPresent(c[i + 1 - w..i + 1]))
  {
    seq(|c|, i requires 0 <= i < |c| =>
      if i + 1 >= w && AllPresent(c[i + 1 - w..i + 1]) then Some(SumNull0(c[i + 1 - w..i + 1])) else None)
  }

  /** The forward window as written: `ret.shift(-21).rolling(21).sum()`. */
  function ForwardAsWritten(ret: Column): (r: Column)
    ensures |r| == |ret|
    ensures forall i :: 0 <= i < |ret| && i + 1 < Horizon ==> r[i].None?
  {
    RollingSum(ShiftUp(ret, Horizon), Horizon)
  }

  /** The forward window as meant: `ret.rolling(21).sum().shift(-21)`, which is
      the sum of returns `i + 1 .. i + 21`, defined whenever those 21 rows exist
      and are all present. */
  function ForwardSum(ret: Column): (r: Column)
    ensures |r| == |ret|
    ensures forall i :: 0 <= i < |ret| ==>
      (r[i].Some? <==> i + Horizon < |ret| && AllPresent(ret[i + 1..i + 1 + Horizon]))
    ensures forall i :: 0 <= i < |ret| && r[i].Some? ==>
      r[i].value == Sum(NonNull(ret[i + 1..i + 1 + Horizon]))
  {
    var r := ShiftUp(RollingSum(ret, Horizon), Horizon);
    forall i | 0 <= i < |ret| && r[i].Some?
      ensures r[i].value == Sum(NonNull(ret[i + 1..i + 1 + Horizon]))
    {
      SumOfNonNull(ret[i + 1..i + 1 + Horizon]);
    }
    r
  }

  /** From row 20 on the two agree: the shifted window of row `i` covers exactly
      returns `i + 1 .. i + 21`.  On rows 0..19 the written form is always NaN. */
  lemma {:induction false} AsWrittenVersusIntended(ret: Column, i: nat)
    requires i < |ret|
    ensures i + 1 < Horizon ==> ForwardAsWritten(ret)[i].None?
    ensures i + 1 >= Horizon ==> ForwardAsWritten(ret)[i] == ForwardSum(ret)[i]
  {
    if i + 1 >= Horizon {
      var s := ShiftUp(ret, Horizon);
      var lo := i + 1 - Horizon;
      assert ForwardAsWritten(ret)[i] == RollingSum(s, Horizon)[i];
      if i + Horizon < |ret| {
        assert s[lo..i + 1] == ret[i + 1..i + 1 + Horizon];
        SumOfNonNull(ret[i + 1..i + 1 + Horizon]);
      } else {
        assert s[i].None?;
        assert !AllPresent(s[lo..i + 1]) by {
          assert s[lo..i + 1][Horizon - 1] == s[i];
        }
      }
    }
  }

  /** Whenever returns 1..21 are all present, the intended forward sum of the
      first row is defined while the written form leaves it NaN. */
  lemma FirstRowLost(ret: Column)
    requires |ret| > Horizon && AllPresent(ret[1..1 + Horizon])
    ensures ForwardSum(ret)[0].Some?
    ensures ForwardAsWritten(ret)[0].None?
  {
    AsWrittenVersusIntended(ret, 0);
  }

  /** A concrete history: a NaN first return (as `log(p / p.shift(1))` gives)
      followed by 41 returns of 1%. */
  lemma FirstRowLostExample()
    ensures var ret := [None] + seq(41, _ => Some(0.01));
      ForwardSum(ret)[0].Some? && ForwardAsWritten(ret)[0].None?
  {
    var ret: Column := [None] + seq(41, _ => Some(0.01));
    var w := ret[1..1 + Horizon];
    assert AllPresent(w) by {
      forall k | 0 <= k < Horizon ensures w[k].Some? {
        assert w[k] == ret[1 + k];
      }
    }
    FirstRowLost(ret);
  }
}
