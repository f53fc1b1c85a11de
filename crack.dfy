/** The spread builder (src/cracklib.py:59-70): the 3-2-1 crack spread in
    dollars per barrel, its 252-row rolling z-score and the regime label, and the
    row selection behind the dashboard snapshot (src/cracklib.py:121-131). */
module Crack {
  import opened Columns
  import opened Prices

  const CrudeLeg: string := "CL=F"
  const GasolineLeg: string := "RB=F"
  const HeatingOilLeg: string := "HO=F"

  /** The three required legs, in Python's sort order. */
  const Legs: seq<string> := [CrudeLeg, HeatingOilLeg, GasolineLeg]

  /** Gallons per barrel: gasoline and heating oil are quoted per gallon. */
  const GallonsPerBarrel: real := 42.0

  /** Rolling window length and the least number of values that defines a statistic. */
  const Window: nat := 252
  const MinPeriods: nat := 100

  // ---------------------------------------------------------------------
  // Required legs

  /** Python's `<` on `str`: lexicographic by code point. */
  predicate LexLess(a: string, b: string)
  {
    if a == [] then b != []
    else if b == [] then false
    else if a[0] != b[0] then a[0] < b[0]
    else LexLess(a[1..], b[1..])
  }

  predicate StrictlySorted(xs: seq<string>)
  {
    forall i, j :: 0 <= i < j < |xs| ==> LexLess(xs[i], xs[j])
  }

  /** `sorted(need - set(px.columns))`. */
  function MissingLegsOf(cols: seq<Series>): (r: seq<string>)
    ensures forall l :: l in r <==> l in Legs && !HasName(cols, l)
    ensures StrictlySorted(r)
  {
    assert LexLess(CrudeLeg, HeatingOilLeg) && LexLess(CrudeLeg, GasolineLeg) && LexLess(HeatingOilLeg, GasolineLeg);
    (if HasName(cols, CrudeLeg) then [] else [CrudeLeg])
    + (if HasName(cols, HeatingOilLeg) then [] else [HeatingOilLeg])
    + (if HasName(cols, GasolineLeg) then [] else [GasolineLeg])
  }

  // ---------------------------------------------------------------------
  // The spread

  /** A per-gallon price in dollars per barrel (NaN stays NaN). */
  function ToBarrel(x: Option<real>): (r: Option<real>)
    ensures r.Some? <==> x.Some?
    ensures r.Some? ==> r.value / GallonsPerBarrel == x.value
  {
    if x.Some? then Some(x.value * GallonsPerBarrel) else None
  }

  /** One row of the 3-2-1 spread from barrel prices: two barrels of gasoline and
      one of heating oil, less three barrels of crude.  Any NaN leg gives NaN. */
  function Spread(cl: Option<real>, rbBbl: Option<real>, hoBbl: Option<real>): (r: Option<real>)
    ensures r.Some? <==> cl.Some? && rbBbl.Some? && hoBbl.Some?
  {
    if cl.Some? && rbBbl.Some? && hoBbl.Some? then
      Some((2.0 * rbBbl.value + 1.0 * hoBbl.value) - 3.0 * cl.value)
    else None
  }

  // ---------------------------------------------------------------------
  // Rolling statistics (`rolling(252, min_periods=100)`)

  /** First row of the window that ends at row i: max(0, i - 251). */
  function WindowStart(i: nat): nat
  {
    if i + 1 < Window then 0 else i + 1 - Window
  }

  /** The rows of the window that ends at row i: the last 252 rows up to i, or
      all of them while fewer exist. */
  function WindowAt(c: Column, i: nat): (w: Column)
    requires i < |c|
    ensures |w| == if i + 1 < Window then i + 1 else Window
    ensures w[|w| - 1] == c[i]
    ensures forall k :: 0 <= k < |w| ==> w[k] == c[i + 1 - |w| + k]
  {
    c[WindowStart(i)..i + 1]
  }

  /** The rolling statistic at each row, taken over the non-null values of its
      window, and defined only when there are at least MinPeriods of them. */
  function RollingRef(c: Column, stat: seq<real> -> real): (r: Column)
    ensures |r| == |c|
    ensures forall i :: 0 <= i < |c| ==> (r[i].Some? <==> |NonNull(WindowAt(c, i))| >= MinPeriods)
    ensures forall i :: 0 <= i < |c| && r[i].Some? ==> r[i].value == stat(NonNull(WindowAt(c, i)))
  {
    seq(|c|, i requires 0 <= i < |c| =>
      var vs := NonNull(WindowAt(c, i));
      if |vs| >= MinPeriods then Some(stat(vs)) else None)
  }

  function Mean(vs: seq<real>): real
  {
    if vs == [] then 0.0 else Sum(vs) / (|vs| as real)
  }

  /** First row of the window that ends just before row i. */
  function Lo(i: nat): nat
  {
    if i < Window then 0 else i - Window
  }

  /** The row that leaves the window when row i enters it (NaN if none). */
  function Leaving(c: Column, i: nat): Option<real>
    requires i < |c|
  {
    if i >= Window then c[i - Window] else None
  }

  function NextSum(c: Column, i: nat, sum: real): real
    requires i < |c|
  {
    sum + ValueOr0(c[i]) - ValueOr0(Leaving(c, i))
  }

  function NextCount(c: Column, i: nat, count: int): int
    requires i < |c|
  {
    count + |Kept(c[i])| - |Kept(Leaving(c, i))|
  }

  /** The sliding-window mean as a scan: entering row i adds its value and count,
      and the row that falls out of the window (i - 252) takes its own away. */
  function RollingMeanFrom(c: Column, i: nat, sum: real, count: int): (r: Column)
    requires i <= |c|
    ensures |r| == |c| - i
    decreases |c| - i
  {
    if i == |c| then []
    else
      var sum', count' := NextSum(c, i, sum), NextCount(c, i, count);
      var mean := if count' >= MinPeriods then Some(sum' / (count' as real)) else None;
      [mean] + RollingMeanFrom(c, i + 1, sum', count')
  }

  /** `rolling(252, min_periods=100).mean()`: at row i, the mean of the non-null
      values among rows max(0, i-251)..i, defined iff there are at least 100. */
  function RollingMean(c: Column): (r: Column)
    ensures |r| == |c|
    ensures forall i :: 0 <= i < |c| ==>
      r[i] == (if |NonNull(WindowAt(c, i))| >= MinPeriods then Some(Mean(NonNull(WindowAt(c, i)))) else None)
  {
    RollingMeanMatchesWindow(c);
    RollingMeanFrom(c, 0, 0.0, 0)
  }

  /** Moving the window from row i-1 to row i. */
  lemma SlideWindow(c: Column, i: nat)
    requires i < |c|
    ensures SumNull0(c[Lo(i + 1)..i + 1]) == NextSum(c, i, SumNull0(c[Lo(i)..i]))
    ensures |NonNull(c[Lo(i + 1)..i + 1])| == NextCount(c, i, |NonNull(c[Lo(i)..i])|)
  {
    var grown := c[Lo(i)..i + 1];
    assert grown[..|grown| - 1] == c[Lo(i)..i];
    assert SumNull0(grown) == SumNull0(c[Lo(i)..i]) + ValueOr0(c[i]);
    assert |NonNull(grown)| == |NonNull(c[Lo(i)..i])| + |Kept(c[i])|;
    if i >= Window {
      DropOldest(c, i);
    } else {
      assert Lo(i + 1) == Lo(i);
    }
  }

  /** The row 252 back leaves the window: the grown window is it plus the new window. */
  lemma DropOldest(c: Column, i: nat)
    requires Window <= i < |c|
    ensures SumNull0(c[Lo(i)..i + 1]) == ValueOr0(c[i - Window]) + SumNull0(c[Lo(i + 1)..i + 1])
    ensures |NonNull(c[Lo(i)..i + 1])| == |Kept(c[i - Window])| + |NonNull(c[Lo(i + 1)..i + 1])|
  {
    assert c[Lo(i)..i + 1] == [c[i - Window]] + c[Lo(i + 1)..i + 1];
    SumNull0Front(c[i - Window], c[Lo(i + 1)..i + 1]);
    NonNullFront(c[i - Window], c[Lo(i + 1)..i + 1]);
  }

  /** The scan's running sum and count are those of the window ending at row i-1. */
  predicate Tracks(c: Column, i: nat, sum: real, count: int)
    requires i <= |c|
  {
    sum == SumNull0(c[Lo(i)..i]) && count == |NonNull(c[Lo(i)..i])|
  }

  lemma TracksStep(c: Column, i: nat, sum: real, count: int)
    requires i < |c| && Tracks(c, i, sum, count)
    ensures Tracks(c, i + 1, NextSum(c, i, sum), NextCount(c, i, count))
  {
    SlideWindow(c, i);
  }

  lemma RollingMeanFromHead(c: Column, i: nat, sum: real, count: int)
    requires i < |c| && Tracks(c, i, sum, count)
    ensures RollingMeanFrom(c, i, sum, count)[0] == RollingRef(c, Mean)[i]
  {
    var sum', count' := NextSum(c, i, sum), NextCount(c, i, count);
    TracksStep(c, i, sum, count);
    var win := WindowAt(c, i);
    assert win == c[Lo(i + 1)..i + 1];
    var vs := NonNull(win);
    assert sum' == SumNull0(win) && count' == |vs|;
    SumOfNonNull(win);
    assert RollingMeanFrom(c, i, sum, count)[0] == if count' >= MinPeriods then Some(sum' / (count' as real)) else None;
    assert RollingRef(c, Mean)[i] == if |vs| >= MinPeriods then Some(Mean(vs)) else None;
  }

  lemma {:induction false} RollingMeanFromAt(c: Column, i: nat, sum: real, count: int, k: nat)
    requires i + k < |c| && Tracks(c, i, sum, count)
    ensures RollingMeanFrom(c, i, sum, count)[k] == RollingRef(c, Mean)[i + k]
    decreases k
  {
    if k == 0 {
      RollingMeanFromHead(c, i, sum, count);
    } else {
      var sum', count' := NextSum(c, i, sum), NextCount(c, i, count);
      TracksStep(c, i, sum, count);
      RollingMeanFromAt(c, i + 1, sum', count', k - 1);
      assert RollingMeanFrom(c, i, sum, count)[k] == RollingMeanFrom(c, i + 1, sum', count')[k - 1];
    }
  }

  lemma RollingMeanMatchesWindow(c: Column)
    ensures forall i :: 0 <= i < |c| ==> RollingMeanFrom(c, 0, 0.0, 0)[i] == RollingRef(c, Mean)[i]
  {
    forall i | 0 <= i < |c| ensures RollingMeanFrom(c, 0, 0.0, 0)[i] == RollingRef(c, Mean)[i] {
      assert c[Lo(0)..0] == [];
      RollingMeanFromAt(c, 0, 0.0, 0, i);
    }
  }

  /** `(x - mu) / sd`, NaN when any operand is NaN or when sd is 0. */
  function ZScore(x: Option<real>, mu: Option<real>, sd: Option<real>): (z: Option<real>)
    ensures z.Some? <==> x.Some? && mu.Some? && sd.Some? && sd.value != 0.0
    ensures z.Some? ==> z.value * sd.value == x.value - mu.value
  {
    if x.Some? && mu.Some? && sd.Some? && sd.value != 0.0 then Some((x.value - mu.value) / sd.value) else None
  }

  // ---------------------------------------------------------------------
  // Regime

  datatype Regime = Rich | Cheap | Neutral

  /** The text the panel stores for each regime. */
  function Label(r: Regime): (s: string)
    ensures s in ["rich (high margin)", "cheap (low margin)", "neutral"]
    ensures s == "neutral" <==> r == Neutral
    ensures s == "rich (high margin)" <==> r == Rich
  {
    match r
    case Rich => "rich (high margin)"
    case Cheap => "cheap (low margin)"
    case Neutral => "neutral"
  }

  /** The label determines the regime. */
  lemma LabelsDistinct(a: Regime, b: Regime)
    ensures Label(a) == Label(b) ==> a == b
  {
  }

  /** The nested `np.where` on z: a NaN z compares false both ways, so it is
      labelled neutral. */
  function Classify(z: Option<real>): (r: Regime)
    ensures r == Rich <==> z.Some? && z.value > 1.0
    ensures r == Cheap <==> z.Some? && z.value < -1.0
    ensures r == Neutral <==> z.None? || -1.0 <= z.value <= 1.0
  {
    if z.Some? && z.value > 1.0 then Rich
    else if z.Some? && z.value < -1.0 then Cheap
    else Neutral
  }

  // ---------------------------------------------------------------------
  // The panel

  datatype Panel = Panel(
    index: seq<Date>,
    cl: Column,        // CL_$/bbl
    rb: Column,        // RBOB_$/bbl
    ho: Column,        // HO_$/bbl
    crack: Column,     // crack_321
    z: Column,         // crack_z_252
    regime: seq<Regime>)

  predicate PanelWellFormed(p: Panel)
  {
    && |p.cl| == |p.index| && |p.rb| == |p.index| && |p.ho| == |p.index|
    && |p.crack| == |p.index| && |p.z| == |p.index| && |p.regime| == |p.index|
  }

  function Leg(px: Frame, name: string): (v: Column)
    requires WellFormed(px) && HasName(px.columns, name)
    ensures |v| == |px.index|
  {
    Lookup(px.columns, name)
  }

  /** The panel built from the three legs' columns (crude per barrel, gasoline
      and heating oil per gallon).  `stdev` is the sample standard deviation of a
      window's values, which the model leaves abstract. */
  function PanelOf(index: seq<Date>, cl: Column, rbGal: Column, hoGal: Column, stdev: seq<real> -> real): (p: Panel)
    requires |cl| == |index| && |rbGal| == |index| && |hoGal| == |index|
    ensures PanelWellFormed(p) && p.index == index
    ensures forall i :: 0 <= i < |index| ==>
      && p.cl[i] == cl[i]
      && p.rb[i] == ToBarrel(rbGal[i])
      && p.ho[i] == ToBarrel(hoGal[i])
      && p.crack[i] == Spread(p.cl[i], p.rb[i], p.ho[i])
      && p.z[i] == ZScore(p.crack[i], RollingMean(p.crack)[i], RollingRef(p.crack, stdev)[i])
      && p.regime[i] == Classify(p.z[i])
  {
    var n := |index|;
    var rb := seq(n, i requires 0 <= i < n => ToBarrel(rbGal[i]));
    var ho := seq(n, i requires 0 <= i < n => ToBarrel(hoGal[i]));
    var crack := seq(n, i requires 0 <= i < n => Spread(cl[i], rb[i], ho[i]));
    var mu := RollingMean(crack);
    var sd := RollingRef(crack, stdev);
    var z := seq(n, i requires 0 <= i < n => ZScore(crack[i], mu[i], sd[i]));
    var regime := seq(n, i requires 0 <= i < n => Classify(z[i]));
    Panel(index, cl, rb, ho, crack, z, regime)
  }

  /** `build_crack_panel`: fails naming the missing legs, else builds the panel. */
  function BuildCrackPanel(px: Frame, stdev: seq<real> -> real): (r: Result<Panel>)
    requires WellFormed(px)
    ensures r.Err? <==> exists l :: l in Legs && !HasName(px.columns, l)
    ensures r.Err? ==> r.error == MissingLegs(MissingLegsOf(px.columns))
    ensures r.Ok? ==> r.value == PanelOf(px.index, Leg(px, CrudeLeg), Leg(px, GasolineLeg), Leg(px, HeatingOilLeg), stdev)
  {
    var missing := MissingLegsOf(px.columns);
    if missing != [] then
      Err(MissingLegs(missing))
    else
      assert CrudeLeg !in missing && GasolineLeg !in missing && HeatingOilLeg !in missing;
      Ok(PanelOf(px.index, Leg(px, CrudeLeg), Leg(px, GasolineLeg), Leg(px, HeatingOilLeg), stdev))
  }

  // ---------------------------------------------------------------------
  // Properties of the panel

  /** A row whose window holds fewer than 100 spread values has no z-score, and
      the code then labels it neutral. */
  lemma ThinWindowIsNeutral(index: seq<Date>, cl: Column, rbGal: Column, hoGal: Column, stdev: seq<real> -> real, i: nat)
    requires |cl| == |index| && |rbGal| == |index| && |hoGal| == |index| && i < |index|
    requires |NonNull(WindowAt(PanelOf(index, cl, rbGal, hoGal, stdev).crack, i))| < MinPeriods
    ensures var p := PanelOf(index, cl, rbGal, hoGal, stdev);
      p.z[i].None? && p.regime[i] == Neutral
  {
    var p := PanelOf(index, cl, rbGal, hoGal, stdev);
    assert RollingMean(p.crack)[i].None?;
    assert p.z[i] == ZScore(p.crack[i], RollingMean(p.crack)[i], RollingRef(p.crack, stdev)[i]);
  }

  /** With fewer than 100 rows no z-score is defined and every row is neutral;
      building the panel does not fail for lack of history. */
  lemma ShortHistoryAllNeutral(px: Frame, stdev: seq<real> -> real)
    requires WellFormed(px) && |px.index| < MinPeriods
    requires forall l :: l in Legs ==> HasName(px.columns, l)
    ensures BuildCrackPanel(px, stdev).Ok?
    ensures var p := BuildCrackPanel(px, stdev).value;
      forall i :: 0 <= i < |p.index| ==> p.z[i].None? && p.regime[i] == Neutral
  {
    assert !exists l :: l in Legs && !HasName(px.columns, l);
    var cl, rb, ho := Leg(px, CrudeLeg), Leg(px, GasolineLeg), Leg(px, HeatingOilLeg);
    var p := PanelOf(px.index, cl, rb, ho, stdev);
    forall i | 0 <= i < |p.index| ensures p.z[i].None? && p.regime[i] == Neutral {
      assert |NonNull(WindowAt(p.crack, i))| <= |WindowAt(p.crack, i)| <= i + 1;
      ThinWindowIsNeutral(px.index, cl, rb, ho, stdev, i);
    }
  }

  /** The worked example: CL=80, RB=2.40 and HO=2.60 give 100.80 and 109.20 per
      barrel and a spread of 70.80. */
  lemma SpreadExample()
    ensures ToBarrel(Some(2.40)) == Some(100.80)
    ensures ToBarrel(Some(2.60)) == Some(109.20)
    ensures Spread(Some(80.0), ToBarrel(Some(2.40)), ToBarrel(Some(2.60))) == Some(70.80)
  {
  }

  /** A price table without HO=F fails naming exactly HO=F ... */
  lemma MissingHeatingOilExample(index: seq<Date>, cl: Column, rb: Column)
    requires |cl| == |index| && |rb| == |index|
    ensures var px := Frame(index, [Series(CrudeLeg, cl), Series(GasolineLeg, rb)]);
      BuildCrackPanel(px, Mean) == Err(MissingLegs([HeatingOilLeg]))
  {
    var px := Frame(index, [Series(CrudeLeg, cl), Series(GasolineLeg, rb)]);
    assert px.columns[0] in px.columns && px.columns[0].name == CrudeLeg;
    assert px.columns[1] in px.columns && px.columns[1].name == GasolineLeg;
    assert !HasName(px.columns, HeatingOilLeg) by {
      assert forall s :: s in px.columns ==> s.name != HeatingOilLeg;
    }
    assert MissingLegsOf(px.columns) == [HeatingOilLeg];
  }

  /** ... which reads "Missing ['HO=F']". */
  lemma MissingHeatingOilMessage()
    ensures Message(MissingLegs([HeatingOilLeg])) == "Missing ['HO=F']"
  {
  }

  // ---------------------------------------------------------------------
  // Dashboard snapshot (`write_dashboard` without the file and the formatting)

  datatype Snapshot = Snapshot(date: Date, crack: real, z: Option<real>, regime: Regime, change21: Option<real>)

  /** The dashboard reads the last row with a spread value; the 21-row change is
      that value less the one 21 spread values earlier, when there are more than 21. */
  function Dashboard(p: Panel): (r: Option<Snapshot>)
    requires PanelWellFormed(p)
    ensures r.None? <==> AllNull(p.crack)
    ensures r.Some? ==> exists i :: (0 <= i < |p.index| && p.crack[i].Some?
      && (forall k :: i < k < |p.index| ==> p.crack[k].None?)
      && r.value.date == p.index[i] && r.value.crack == p.crack[i].value
      && r.value.z == p.z[i] && r.value.regime == p.regime[i])
    ensures r.Some? ==> var vs := NonNull(p.crack);
      && (r.value.change21.Some? <==> |vs| > 21)
      && (r.value.change21.Some? ==> r.value.change21.value == r.value.crack - vs[|vs| - 22])
  {
    if |p.crack| == 0 then None
    else
      var last := LatestAt(p.crack, |p.crack| - 1);
      if last < 0 then None
      else
        var vs := NonNull(p.crack);
        var change := if |vs| > 21 then Some(p.crack[last].value - vs[|vs| - 22]) else None;
        Some(Snapshot(p.index[last], p.crack[last].value, p.z[last], p.regime[last], change))
  }
}
