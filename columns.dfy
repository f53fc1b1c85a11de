/** Date-indexed pandas columns and the library scans the pipeline relies on
    (forward fill, null-as-zero sums, running sums).  A column is a sequence of
    optional reals; `None` stands for a pandas NaN.  Every column of one frame is
    aligned on the same date index, so row `i` of two columns is the same date. */
module Columns {

  datatype Option<+T> = None | Some(value: T)

  type Column = seq<Option<real>>

  /** `fillna(0)` on one cell. */
  function ValueOr0(x: Option<real>): real
  {
    if x.Some? then x.value else 0.0
  }

  /** The singleton list of a non-null cell's value, or the empty list for NaN. */
  function Kept(x: Option<real>): seq<real>
  {
    if x.Some? then [x.value] else []
  }

  /** The non-null values of a column, in row order (what `dropna()` leaves). */
  function NonNull(s: Column): (r: seq<real>)
    ensures |r| <= |s|
  {
    if s == [] then [] else NonNull(s[..|s| - 1]) + Kept(s[|s| - 1])
  }

  /** Plain sum of a list of reals. */
  function Sum(vs: seq<real>): real
  {
    if vs == [] then 0.0 else Sum(vs[..|vs| - 1]) + vs[|vs| - 1]
  }

  /** Sum of a column with NaN read as 0 (`fillna(0).sum()`). */
  function SumNull0(s: Column): real
  {
    if s == [] then 0.0 else SumNull0(s[..|s| - 1]) + ValueOr0(s[|s| - 1])
  }

  /** Every cell of the column is non-null. */
  predicate AllPresent(s: Column)
  {
    forall i :: 0 <= i < |s| ==> s[i].Some?
  }

  /** Every cell of the column is NaN. */
  predicate AllNull(s: Column)
  {
    forall i :: 0 <= i < |s| ==> s[i].None?
  }

  // ---------------------------------------------------------------------
  // Facts about the sums

  lemma {:induction false} SumAppend(a: seq<real>, b: seq<real>)
    ensures Sum(a + b) == Sum(a) + Sum(b)
    decreases |b|
  {
    if b == [] {
      assert a + b == a;
    } else {
      var b' := b[..|b| - 1];
      assert (a + b)[..|a + b| - 1] == a + b';
      SumAppend(a, b');
    }
  }

  /** Summing the non-null values is summing with NaN read as 0. */
  lemma {:induction false} SumOfNonNull(s: Column)
    ensures Sum(NonNull(s)) == SumNull0(s)
    decreases |s|
  {
    if s != [] {
      var init := s[..|s| - 1];
      SumOfNonNull(init);
      SumAppend(NonNull(init), Kept(s[|s| - 1]));
      assert Sum(Kept(s[|s| - 1])) == ValueOr0(s[|s| - 1]) by {
        if s[|s| - 1].Some? {
          assert [s[|s| - 1].value][..0] == [];
        }
      }
    }
  }

  /** Dropping the first row of a window removes its value from the sum. */
  lemma {:induction false} SumNull0Front(x: Option<real>, s: Column)
    ensures SumNull0([x] + s) == ValueOr0(x) + SumNull0(s)
    decreases |s|
  {
    if s == [] {
      assert ([x] + s)[..0] == [];
    } else {
      var init := s[..|s| - 1];
      assert ([x] + s)[..|[x] + s| - 1] == [x] + init;
      SumNull0Front(x, init);
    }
  }

  /** Dropping the first row of a window removes it from the non-null values. */
  lemma {:induction false} NonNullFront(x: Option<real>, s: Column)
    ensures NonNull([x] + s) == Kept(x) + NonNull(s)
    decreases |s|
  {
    if s == [] {
      assert ([x] + s)[..0] == [];
    } else {
      var init := s[..|s| - 1];
      assert ([x] + s)[..|[x] + s| - 1] == [x] + init;
      NonNullFront(x, init);
    }
  }

  /** A column of NaNs has no non-null value and sums to 0. */
  lemma {:induction false} AllNullSums(s: Column)
    requires AllNull(s)
    ensures NonNull(s) == [] && SumNull0(s) == 0.0
    decreases |s|
  {
    if s != [] {
      AllNullSums(s[..|s| - 1]);
    }
  }

  /** A fully present column keeps every value. */
  lemma {:induction false} AllPresentNonNull(s: Column)
    requires AllPresent(s)
    ensures |NonNull(s)| == |s|
    decreases |s|
  {
    if s != [] {
      AllPresentNonNull(s[..|s| - 1]);
    }
  }

  // ---------------------------------------------------------------------
  // Forward fill (`Series.ffill()`)

  /** The latest row at or before `i` whose cell is non-null, or -1 if there is none. */
  function LatestAt(c: Column, i: nat): (j: int)
    requires i < |c|
    ensures -1 <= j <= i
    ensures j >= 0 ==> c[j].Some?
    ensures forall k :: j < k <= i ==> c[k].None?
    decreases i
  {
    if c[i].Some? then i else if i == 0 then -1 else LatestAt(c, i - 1)
  }

  /** `ffill` with a carried last-seen value: each NaN takes the latest value above it. */
  function FFillFrom(last: Option<real>, c: Column): (r: Column)
    ensures |r| == |c|
    decreases |c|
  {
    if c == [] then []
    else
      var cur := if c[0].Some? then c[0] else last;
      [cur] + FFillFrom(cur, c[1..])
  }

  function FFill(c: Column): (r: Column)
    ensures |r| == |c|
  {
    FFillFrom(None, c)
  }

  /** LatestAt is pinned down by its postconditions. */
  lemma LatestAtUnique(c: Column, i: nat, m: int)
    requires i < |c| && -1 <= m <= i
    requires m >= 0 ==> c[m].Some?
    requires forall k :: m < k <= i ==> c[k].None?
    ensures LatestAt(c, i) == m
  {
  }

  /** Row `i` of a forward-filled column holds the latest non-null value at or
      before `i`, or the carried value when there is none. */
  lemma {:induction false} FFillFromAt(last: Option<real>, c: Column, i: nat)
    requires i < |c|
    ensures FFillFrom(last, c)[i] == (if LatestAt(c, i) >= 0 then c[LatestAt(c, i)] else last)
    decreases |c|
  {
    var cur := if c[0].Some? then c[0] else last;
    if i == 0 {
      LatestAtUnique(c, 0, if c[0].Some? then 0 else -1);
    } else {
      var tail := c[1..];
      FFillFromAt(cur, tail, i - 1);
      var j := LatestAt(tail, i - 1);
      if j >= 0 {
        LatestAtUnique(c, i, j + 1);
      } else if c[0].Some? {
        LatestAtUnique(c, i, 0);
      } else {
        LatestAtUnique(c, i, -1);
      }
    }
  }

  /** `ffill`: a cell is NaN exactly when its column has no value at or above it,
      and otherwise it holds the latest such value. */
  lemma FFillAt(c: Column, i: nat)
    requires i < |c|
    ensures FFill(c)[i].None? <==> forall k :: 0 <= k <= i ==> c[k].None?
    ensures FFill(c)[i].Some? ==> FFill(c)[i] == c[LatestAt(c, i)]
    ensures c[i].Some? ==> FFill(c)[i] == c[i]
  {
    FFillFromAt(None, c, i);
    var j := LatestAt(c, i);
    if FFill(c)[i].None? {
      assert j < 0;
    }
  }

  /** Once a forward-filled column has a value, every later row has one too. */
  lemma FFillStaysPresent(c: Column, i: nat, k: nat)
    requires i <= k < |c|
    requires FFill(c)[i].Some?
    ensures FFill(c)[k].Some?
  {
    FFillAt(c, i);
    FFillAt(c, k);
  }

  /** Forward filling twice is forward filling once. */
  lemma {:induction false} FFillFromIdempotent(last: Option<real>, c: Column)
    ensures FFillFrom(last, FFillFrom(last, c)) == FFillFrom(last, c)
    decreases |c|
  {
    if c != [] {
      var cur := if c[0].Some? then c[0] else last;
      var r := FFillFrom(last, c);
      assert r[0] == cur && r[1..] == FFillFrom(cur, c[1..]);
      FFillFromIdempotent(cur, c[1..]);
    }
  }

  lemma FFillIdempotent(c: Column)
    ensures FFill(FFill(c)) == FFill(c)
  {
    FFillFromIdempotent(None, c);
  }

  // ---------------------------------------------------------------------
  // Running sum with NaN as 0 (`fillna(0).cumsum()`)

  function CumSumFrom(acc: real, c: Column): (r: seq<real>)
    ensures |r| == |c|
    decreases |c|
  {
    if c == [] then []
    else
      var a := acc + ValueOr0(c[0]);
      [a] + CumSumFrom(a, c[1..])
  }

  function CumSum(c: Column): (r: seq<real>)
    ensures |r| == |c|
  {
    CumSumFrom(0.0, c)
  }

  lemma {:induction false} CumSumFromAt(acc: real, c: Column, i: nat)
    requires i < |c|
    ensures CumSumFrom(acc, c)[i] == acc + SumNull0(c[..i + 1])
    decreases |c|
  {
    if i == 0 {
      assert c[..1][..0] == [];
    } else {
      CumSumFromAt(acc + ValueOr0(c[0]), c[1..], i - 1);
      assert c[..i + 1] == [c[0]] + c[1..][..i];
      SumNull0Front(c[0], c[1..][..i]);
    }
  }

  /** Row `i` of the running sum is the NaN-as-0 sum of rows 0..i. */
  lemma CumSumAt(c: Column, i: nat)
    requires i < |c|
    ensures CumSum(c)[i] == SumNull0(c[..i + 1])
    ensures CumSum(c)[i] == Sum(NonNull(c[..i + 1]))
  {
    CumSumFromAt(0.0, c, i);
    SumOfNonNull(c[..i + 1]);
  }

  /** The recurrence the running sum obeys: it starts at the first value (0 for
      NaN) and adds each row's value (0 for NaN) to the previous total. */
  lemma CumSumSteps(c: Column, i: nat)
    requires i < |c|
    ensures i == 0 ==> CumSum(c)[0] == ValueOr0(c[0])
    ensures i > 0 ==> CumSum(c)[i] == CumSum(c)[i - 1] + ValueOr0(c[i])
  {
    CumSumAt(c, i);
    if i == 0 {
      assert c[..1][..0] == [];
    } else {
      CumSumAt(c, i - 1);
      assert c[..i + 1][..i] == c[..i];
    }
  }

  /** The running sum of an all-NaN column is all zeros. */
  lemma CumSumAllNull(c: Column, i: nat)
    requires AllNull(c) && i < |c|
    ensures CumSum(c)[i] == 0.0
  {
    CumSumAt(c, i);
    AllNullSums(c[..i + 1]);
  }
}
