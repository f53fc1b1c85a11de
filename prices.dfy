/** The price loader (src/cracklib.py:37-57) after the network fetch: pick the
    adjusted (or raw) close out of the provider's response, keep the requested
    tickers, forward-fill each column and drop the rows that are empty in every
    column.  The response itself is an input; the fetch is not modelled. */
module Prices {
  import opened Columns

  /** A trading date, as an ordinal; the pipeline only compares and copies dates. */
  type Date = int

  /** One named column of a frame. */
  datatype Series = Series(name: string, values: Column)

  /** A date-indexed table: every column has one cell per index entry. */
  datatype Frame = Frame(index: seq<Date>, columns: seq<Series>)

  /** One column of a response with two-level column labels (price field, ticker),
      the shape the provider returns when several tickers are requested. */
  datatype Field = Field(field: string, ticker: string, values: Column)

  /** The provider's response: two-level labels, or single-level labels such as
      "Open", "Close", "Adj Close". */
  datatype Raw =
    | Grouped(index: seq<Date>, fields: seq<Field>)
    | Flat(index: seq<Date>, columns: seq<Series>)

  /** The fatal conditions of the pipeline (each a `SystemExit` in the source). */
  datatype Error = MissingCloseField | NoTickersReturned | MissingLegs(legs: seq<string>)

  datatype Result<+T> = Ok(value: T) | Err(error: Error) {
    predicate IsFailure() { Err? }
    function PropagateFailure<U>(): Result<U> requires Err? { Err(error) }
    function Extract(): T requires Ok? { value }
  }

  const AdjClose: string := "Adj Close"
  const Close: string := "Close"

  predicate WellFormed(f: Frame)
  {
    forall j :: 0 <= j < |f.columns| ==> |f.columns[j].values| == |f.index|
  }

  predicate RawWellFormed(raw: Raw)
  {
    match raw
    case Grouped(index, fields) => forall f :: f in fields ==> |f.values| == |index|
    case Flat(index, columns) => WellFormed(Frame(index, columns))
  }

  predicate HasName(cols: seq<Series>, name: string)
  {
    exists s :: s in cols && s.name == name
  }

  /** The response carries the given price field (top-level label). */
  predicate HasField(raw: Raw, name: string)
  {
    match raw
    case Grouped(_, fields) => exists f :: f in fields && f.field == name
    case Flat(_, columns) => HasName(columns, name)
  }

  predicate StrictlyIncreasing(ds: seq<Date>)
  {
    forall t, u :: 0 <= t < u < |ds| ==> ds[t] < ds[u]
  }

  // ---------------------------------------------------------------------
  // _extract_close_frame

  /** `raw[name]` on two-level labels: the columns under one field, labelled by ticker. */
  function SelectField(fields: seq<Field>, name: string): (r: seq<Series>)
    ensures forall f :: f in fields && f.field == name ==> Series(f.ticker, f.values) in r
    ensures forall s :: s in r ==> exists f :: f in fields && f.field == name && s == Series(f.ticker, f.values)
  {
    if fields == [] then []
    else
      var rest := SelectField(fields[1..], name);
      assert forall f :: f in fields[1..] ==> f in fields;
      if fields[0].field == name then [Series(fields[0].ticker, fields[0].values)] + rest else rest
  }

  /** `raw[[name]]` on single-level labels: the first column with that label. */
  function Lookup(cols: seq<Series>, name: string): (v: Column)
    requires HasName(cols, name)
    ensures exists j :: (0 <= j < |cols| && cols[j].name == name && v == cols[j].values
                          && forall k :: 0 <= k < j ==> cols[k].name != name)
  {
    if cols[0].name == name then cols[0].values
    else
      assert HasName(cols[1..], name) by {
        var s :| s in cols && s.name == name;
        assert s in cols[1..];
      }
      var v := Lookup(cols[1..], name);
      var j :| 0 <= j < |cols[1..]| && cols[1..][j].name == name && v == cols[1..][j].values
        && forall k :: 0 <= k < j ==> cols[1..][k].name != name;
      assert cols[j + 1].name == name && forall k :: 0 <= k < j + 1 ==> cols[k].name != name by {
        forall k | 0 <= k < j + 1 ensures cols[k].name != name {
          if k > 0 { assert cols[k] == cols[1..][k - 1]; }
        }
      }
      v
  }

  /** The price field the loader reads: "Adj Close" when present, else "Close". */
  function ChosenField(raw: Raw): string
  {
    if HasField(raw, AdjClose) then AdjClose else Close
  }

  function ExtractClose(raw: Raw): (r: Result<Frame>)
    requires RawWellFormed(raw)
    ensures r.Err? <==> !HasField(raw, AdjClose) && !HasField(raw, Close)
    ensures r.Err? ==> r.error == MissingCloseField
    ensures r.Ok? ==> WellFormed(r.value) && r.value.index == raw.index
    // two-level labels: exactly the tickers under the chosen field
    ensures r.Ok? && raw.Grouped? ==> forall s :: s in r.value.columns <==>
      exists f :: f in raw.fields && f.field == ChosenField(raw) && s == Series(f.ticker, f.values)
    // single-level labels: one column, labelled by the chosen field
    ensures r.Ok? && raw.Flat? ==>
      (|r.value.columns| == 1 && r.value.columns[0].name == ChosenField(raw) &&
       exists s :: s in raw.columns && s.name == ChosenField(raw) && r.value.columns[0].values == s.values)
  {
    if !HasField(raw, AdjClose) && !HasField(raw, Close) then Err(MissingCloseField)
    else
      var name := ChosenField(raw);
      match raw
      case Grouped(index, fields) =>
        var cols := SelectField(fields, name);
        assert forall s :: s in cols ==> |s.values| == |index|;
        assert forall j :: 0 <= j < |cols| ==> cols[j] in cols;
        Ok(Frame(index, cols))
      case Flat(index, columns) =>
        var v := Lookup(columns, name);
        assert |v| == |index|;
        Ok(Frame(index, [Series(name, v)]))
  }

  // ---------------------------------------------------------------------
  // download_prices, after the fetch

  /** A single column returned for a single requested ticker is labelled by that
      ticker (src/cracklib.py:54); otherwise labels are left alone. */
  function Relabel(f: Frame, tickers: seq<string>): (g: Frame)
    ensures g.index == f.index && |g.columns| == |f.columns|
    ensures forall j :: 0 <= j < |g.columns| ==> g.columns[j].values == f.columns[j].values
    ensures |f.columns| == 1 && |tickers| == 1 ==> g.columns[0].name == tickers[0]
    ensures !(|f.columns| == 1 && |tickers| == 1) ==> g == f
  {
    if |f.columns| == 1 && |tickers| == 1 then Frame(f.index, [Series(tickers[0], f.columns[0].values)]) else f
  }

  /** `[c for c in df.columns if c in tickers]`, in column order. */
  function Requested(cols: seq<Series>, tickers: seq<string>): (r: seq<Series>)
    ensures forall s :: s in r <==> s in cols && s.name in tickers
    ensures |r| <= |cols|
  {
    if cols == [] then []
    else
      var rest := Requested(cols[1..], tickers);
      assert forall s :: s in cols <==> s == cols[0] || s in cols[1..];
      if cols[0].name in tickers then [cols[0]] + rest else rest
  }

  function KeepRequested(f: Frame, tickers: seq<string>): (r: Result<Frame>)
    requires WellFormed(f)
    ensures r.Err? <==> forall s :: s in Relabel(f, tickers).columns ==> s.name !in tickers
    ensures r.Err? ==> r.error == NoTickersReturned
    ensures r.Ok? ==> WellFormed(r.value) && r.value.index == f.index && |r.value.columns| >= 1
    ensures r.Ok? ==> forall s :: s in r.value.columns <==> s in Relabel(f, tickers).columns && s.name in tickers
    // one column for one requested ticker never fails
    ensures |f.columns| == 1 && |tickers| == 1 ==> r == Ok(Frame(f.index, [Series(tickers[0], f.columns[0].values)]))
  {
    var g := Relabel(f, tickers);
    var present := Requested(g.columns, tickers);
    if present == [] then Err(NoTickersReturned)
    else
      assert present[0] in present;
      assert |f.columns| == 1 && |tickers| == 1 ==> present == g.columns by {
        if |f.columns| == 1 && |tickers| == 1 {
          assert g.columns[1..] == [];
        }
      }
      assert forall s :: s in present ==> |s.values| == |f.index| by {
        forall s | s in present ensures |s.values| == |f.index| {
          var j :| 0 <= j < |g.columns| && g.columns[j] == s;
        }
      }
      Ok(Frame(f.index, present))
  }

  /** `df.ffill()`: every column forward-filled. */
  function FFillFrame(f: Frame): (g: Frame)
    requires WellFormed(f)
    ensures WellFormed(g) && g.index == f.index && |g.columns| == |f.columns|
    ensures forall j :: 0 <= j < |g.columns| ==>
      g.columns[j].name == f.columns[j].name && g.columns[j].values == FFill(f.columns[j].values)
  {
    Frame(f.index, seq(|f.columns|, j requires 0 <= j < |f.columns| =>
      Series(f.columns[j].name, FFill(f.columns[j].values))))
  }

  /** Row `i` has a value in at least one column. */
  predicate RowHasValue(f: Frame, i: nat)
    requires WellFormed(f) && i < |f.index|
  {
    exists j :: 0 <= j < |f.columns| && f.columns[j].values[i].Some?
  }

  /** Which rows have a value in at least one column. */
  function RowFlags(f: Frame): (has: seq<bool>)
    requires WellFormed(f)
    ensures |has| == |f.index|
    ensures forall i :: 0 <= i < |has| ==> (has[i] <==> RowHasValue(f, i))
  {
    seq(|f.index|, i requires 0 <= i < |f.index| => RowHasValue(f, i))
  }

  /** The rows among 0..m-1 whose flag is set, in increasing order. */
  function KeptRows(has: seq<bool>, m: nat): (ks: seq<nat>)
    requires m <= |has|
    ensures |ks| <= m
    ensures forall t :: 0 <= t < |ks| ==> ks[t] < m && has[ks[t]]
    ensures forall t, u :: 0 <= t < u < |ks| ==> ks[t] < ks[u]
    ensures forall i :: 0 <= i < m && has[i] ==> i in ks
  {
    if m == 0 then []
    else KeptRows(has, m - 1) + (if has[m - 1] then [m - 1] else [])
  }

  /** The rows `ks` of a frame, in the order given, in every column. */
  function SelectRows(f: Frame, ks: seq<nat>): (g: Frame)
    requires WellFormed(f) && forall t :: 0 <= t < |ks| ==> ks[t] < |f.index|
    ensures WellFormed(g) && |g.index| == |ks| && |g.columns| == |f.columns|
    ensures forall j :: 0 <= j < |g.columns| ==> g.columns[j].name == f.columns[j].name
    ensures forall t :: 0 <= t < |ks| ==> g.index[t] == f.index[ks[t]]
    ensures forall j, t :: 0 <= j < |g.columns| && 0 <= t < |ks| ==> g.columns[j].values[t] == f.columns[j].values[ks[t]]
  {
    Frame(seq(|ks|, t requires 0 <= t < |ks| => f.index[ks[t]]),
      seq(|f.columns|, j requires 0 <= j < |f.columns| =>
        Series(f.columns[j].name, seq(|ks|, t requires 0 <= t < |ks| => f.columns[j].values[ks[t]]))))
  }

  /** `df.dropna(how="all")`: the rows with at least one value, in their order. */
  function DropAllNullRows(f: Frame): (g: Frame)
    requires WellFormed(f)
    ensures WellFormed(g) && |g.columns| == |f.columns| && |g.index| <= |f.index|
    ensures forall j :: 0 <= j < |g.columns| ==> g.columns[j].name == f.columns[j].name
    ensures StrictlyIncreasing(f.index) ==> StrictlyIncreasing(g.index)
  {
    SelectRows(f, KeptRows(RowFlags(f), |f.index|))
  }

  /** `dropna(how="all")` keeps every row that has a value in some column, with
      its date and all its cells. */
  lemma DropAllNullRowsKeepsValuedRows(f: Frame)
    requires WellFormed(f)
    ensures var g := DropAllNullRows(f);
      forall i :: 0 <= i < |f.index| && RowHasValue(f, i) ==>
        exists t :: (0 <= t < |g.index| && g.index[t] == f.index[i] &&
                     forall j :: 0 <= j < |g.columns| ==> g.columns[j].values[t] == f.columns[j].values[i])
  {
    var ks := KeptRows(RowFlags(f), |f.index|);
    var g := SelectRows(f, ks);
    assert g == DropAllNullRows(f);
    forall i | 0 <= i < |f.index| && RowHasValue(f, i)
      ensures exists t :: (0 <= t < |g.index| && g.index[t] == f.index[i] &&
                           forall j :: 0 <= j < |g.columns| ==> g.columns[j].values[t] == f.columns[j].values[i])
    {
      assert RowFlags(f)[i];
      var t :| 0 <= t < |ks| && ks[t] == i;
      assert g.index[t] == f.index[i];
      assert forall j :: 0 <= j < |g.columns| ==> g.columns[j].values[t] == f.columns[j].values[i];
    }
  }

  /** After `dropna(how="all")` no row is empty in every column. */
  lemma DropAllNullRowsLeavesNoEmptyRow(f: Frame)
    requires WellFormed(f)
    ensures var g := DropAllNullRows(f); forall t :: 0 <= t < |g.index| ==> RowHasValue(g, t)
  {
    var ks := KeptRows(RowFlags(f), |f.index|);
    var g := SelectRows(f, ks);
    forall t | 0 <= t < |g.index| ensures RowHasValue(g, t) {
      assert RowHasValue(f, ks[t]);
      var j :| 0 <= j < |f.columns| && f.columns[j].values[ks[t]].Some?;
      assert g.columns[j].values[t].Some?;
    }
  }

  /** The cleaned price table: close prices of the requested tickers, forward
      filled, without rows that are empty in every column. */
  function CleanPrices(raw: Raw, tickers: seq<string>): (r: Result<Frame>)
    requires RawWellFormed(raw)
    ensures r.Err? && r.error == MissingCloseField <==> !HasField(raw, AdjClose) && !HasField(raw, Close)
    ensures r.Err? ==> r.error == MissingCloseField || r.error == NoTickersReturned
    ensures r.Ok? ==> WellFormed(r.value) && |r.value.columns| >= 1
    ensures r.Ok? ==> forall s :: s in r.value.columns ==> s.name in tickers
    ensures r.Ok? ==> forall t :: 0 <= t < |r.value.index| ==> RowHasValue(r.value, t)
    ensures r.Ok? ==> |r.value.index| <= |raw.index| && r.value.index == raw.index[|raw.index| - |r.value.index|..]
    ensures r.Err? && r.error == NoTickersReturned <==>
      ExtractClose(raw).Ok? && forall s :: s in Relabel(ExtractClose(raw).value, tickers).columns ==> s.name !in tickers
    ensures r.Ok? ==> (ExtractClose(raw).Ok? &&
      exists kept :: KeepRequested(ExtractClose(raw).value, tickers) == Ok(kept) && WellFormed(kept) &&
        r.value == DropAllNullRows(FFillFrame(kept)))
  {
    var df :- ExtractClose(raw);
    var kept :- KeepRequested(df, tickers);
    FillAndDropFacts(kept, tickers);
    Ok(DropAllNullRows(FFillFrame(kept)))
  }

  lemma FillAndDropFacts(kept: Frame, tickers: seq<string>)
    requires WellFormed(kept) && forall s :: s in kept.columns ==> s.name in tickers
    ensures var g := DropAllNullRows(FFillFrame(kept));
      && WellFormed(g) && |g.columns| == |kept.columns|
      && (forall s :: s in g.columns ==> s.name in tickers)
      && (forall t :: 0 <= t < |g.index| ==> RowHasValue(g, t))
      && |g.index| <= |kept.index| && g.index == kept.index[|kept.index| - |g.index|..]
  {
    var filled := FFillFrame(kept);
    var g := DropAllNullRows(filled);
    DroppedRowsLeadFFilled(kept);
    assert g.index == kept.index[|kept.index| - |g.index|..];
    DropAllNullRowsLeavesNoEmptyRow(filled);
    NamesKept(kept, tickers);
  }

  lemma NamesKept(kept: Frame, tickers: seq<string>)
    requires WellFormed(kept) && forall s :: s in kept.columns ==> s.name in tickers
    ensures forall s :: s in DropAllNullRows(FFillFrame(kept)).columns ==> s.name in tickers
  {
    var g := DropAllNullRows(FFillFrame(kept));
    forall s | s in g.columns ensures s.name in tickers {
      var j :| 0 <= j < |g.columns| && g.columns[j] == s;
      assert kept.columns[j] in kept.columns;
    }
  }

  // ---------------------------------------------------------------------
  // Forward fill before dropping: only a leading block of rows can go

  /** After `ffill`, a row with a value is followed only by rows with values. */
  lemma FFilledRowsStayPresent(f: Frame, i: nat, k: nat)
    requires WellFormed(f) && i <= k < |f.index|
    requires RowHasValue(FFillFrame(f), i)
    ensures RowHasValue(FFillFrame(f), k)
  {
    var g := FFillFrame(f);
    var j :| 0 <= j < |g.columns| && g.columns[j].values[i].Some?;
    FFillStaysPresent(f.columns[j].values, i, k);
    assert g.columns[j].values[k].Some?;
  }

  lemma FFilledFlagsMonotone(f: Frame)
    requires WellFormed(f)
    ensures var has := RowFlags(FFillFrame(f));
      forall i, k :: 0 <= i <= k < |has| && has[i] ==> has[k]
  {
    var has := RowFlags(FFillFrame(f));
    forall i, k | 0 <= i <= k < |has| && has[i] ensures has[k] {
      FFilledRowsStayPresent(f, i, k);
    }
  }

  /** When a set flag is never followed by a clear one, the flags are clear up
      to some row d and set from there on. */
  lemma Threshold(has: seq<bool>) returns (d: nat)
    requires forall i, k :: 0 <= i <= k < |has| && has[i] ==> has[k]
    ensures d <= |has| && forall i :: 0 <= i < |has| ==> (has[i] <==> i >= d)
  {
    d := 0;
    while d < |has| && !has[d]
      invariant d <= |has| && forall i :: 0 <= i < d ==> !has[i]
    {
      d := d + 1;
    }
  }

  /** The rows d, d+1, ..., n-1. */
  function Range(d: nat, n: nat): (ks: seq<nat>)
    requires d <= n
    ensures |ks| == n - d && forall t :: 0 <= t < |ks| ==> ks[t] == d + t
  {
    seq(n - d, t requires 0 <= t < n - d => d + t)
  }

  /** With flags clear before row d and set from d on, the kept rows among
      0..m-1 are d, d+1, ..., m-1. */
  lemma {:induction false} KeptRowsRange(has: seq<bool>, m: nat, d: nat)
    requires m <= |has|
    requires forall i :: 0 <= i < m ==> (has[i] <==> i >= d)
    ensures KeptRows(has, m) == if d <= m then Range(d, m) else []
  {
    if m > 0 {
      KeptRowsRange(has, m - 1, d);
      if d <= m - 1 {
        assert has[m - 1];
        RangeSnoc(d, m);
      } else {
        assert !has[m - 1];
        assert d == m ==> Range(d, m) == [];
      }
    }
  }

  lemma RangeSnoc(d: nat, m: nat)
    requires d < m
    ensures Range(d, m) == Range(d, m - 1) + [m - 1]
  {
  }

  /** `r` is `g` without its first `d` rows. */
  predicate SuffixRows(g: Frame, r: Frame, d: int)
    requires WellFormed(g) && WellFormed(r)
  {
    && 0 <= d <= |g.index| && |r.columns| == |g.columns| && r.index == g.index[d..]
    && (forall j, t :: 0 <= j < |r.columns| && 0 <= t < |r.index| ==> r.columns[j].values[t] == g.columns[j].values[d + t])
  }

  /** Selecting a contiguous block of rows that runs to the end drops the rows before it. */
  lemma SelectBlock(g: Frame, d: nat)
    requires WellFormed(g) && d <= |g.index|
    ensures SuffixRows(g, SelectRows(g, Range(d, |g.index|)), d)
  {
  }

  /** In a frame where a row with a value is never followed by an empty row,
      `dropna(how="all")` removes exactly a leading block of empty rows. */
  lemma DropLeadingBlock(g: Frame)
    requires WellFormed(g)
    requires var has := RowFlags(g); forall i, k :: 0 <= i <= k < |has| && has[i] ==> has[k]
    ensures var r := DropAllNullRows(g); var d := |g.index| - |r.index|;
      SuffixRows(g, r, d) && forall i :: 0 <= i < d ==> !RowHasValue(g, i)
  {
    var d := Threshold(RowFlags(g));
    DropAllNullRowsFrom(g, d);
    SelectBlock(g, d);
  }

  lemma DropAllNullRowsFrom(g: Frame, d: nat)
    requires WellFormed(g) && d <= |g.index|
    requires var has := RowFlags(g); forall i :: 0 <= i < |has| ==> (has[i] <==> i >= d)
    ensures DropAllNullRows(g) == SelectRows(g, Range(d, |g.index|))
    ensures forall i :: 0 <= i < d ==> !RowHasValue(g, i)
  {
    var has := RowFlags(g);
    KeptRowsRange(has, |g.index|, d);
    forall i | 0 <= i < d ensures !RowHasValue(g, i) {
      assert !has[i];
    }
  }

  /** Forward filling before `dropna(how="all")` means that the rows dropped are
      exactly a leading block of empty rows; the rest are kept as they are. */
  lemma DroppedRowsLeadFFilled(f: Frame)
    requires WellFormed(f)
    ensures var g := FFillFrame(f); var r := DropAllNullRows(g); var d := |g.index| - |r.index|;
      SuffixRows(g, r, d) && (forall i :: 0 <= i < d ==> !RowHasValue(g, i)) && g.index == f.index
  {
    FFilledFlagsMonotone(f);
    DropLeadingBlock(FFillFrame(f));
  }

  // ---------------------------------------------------------------------
  // Fatal messages

  /** Python's `repr` of a list of strings: ['a', 'b']. */
  function PyListRepr(xs: seq<string>): string
  {
    "[" + PyItems(xs) + "]"
  }

  function PyItems(xs: seq<string>): string
  {
    if xs == [] then ""
    else if |xs| == 1 then "'" + xs[0] + "'"
    else "'" + xs[0] + "', " + PyItems(xs[1..])
  }

  /** The text `SystemExit` prints for each fatal error. */
  function Message(e: Error): (m: string)
    ensures e == MissingCloseField ==> m == "Yahoo response missing Adj Close/Close."
    ensures e == NoTickersReturned ==> m == "No tickers returned from Yahoo."
    ensures e.MissingLegs? ==> m == "Missing " + PyListRepr(e.legs)
  {
    match e
    case MissingCloseField => "Yahoo response missing Adj Close/Close."
    case NoTickersReturned => "No tickers returned from Yahoo."
    case MissingLegs(legs) => "Missing " + PyListRepr(legs)
  }
}
