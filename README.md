# 3-2-1 crack spread: signal construction

This project models the signal-construction core of `src/cracklib.py`, a script that studies the
3-2-1 crack spread (the margin a refiner earns by turning three barrels of crude oil into two
barrels of gasoline and one of heating oil). The model covers five stages:

- **Price loader** (`Prices`). Picks the adjusted close, or else the raw close, out of the
  provider's response. Keeps the requested tickers, forward-fills each column and drops the
  rows that are empty in every column. Fails with the script's fatal errors.
- **Spread builder** (`Crack`):
  - checks that the three legs CL=F, RB=F and HO=F are present;
  - converts gasoline and heating oil from $/gal to $/bbl (× 42);
  - computes the spread 2·RB + 1·HO − 3·CL;
  - computes its 252-row rolling mean, which needs at least 100 values;
  - computes the z-score and the rich / cheap / neutral regime.

  The module also covers which row the dashboard snapshot reads.
- **Toy rule backtester** (`ToyRule`):
  - position flags from z-score thresholds;
  - strategy returns = flag × daily return;
  - running sums with NaN as 0;
  - the annualised return and the Sharpe ratio of the summary;
  - the maximum drawdown of an equity curve.
- **Forward 21-row return** (`Forward`), used by the conditional-return analysis.
- **Column scans** (`Columns`). The pandas operations the stages share: `ffill`, sums that
  skip NaN, and `fillna(0).cumsum()`.

A date-indexed column is `seq<Option<real>>`: `None` is a pandas NaN. All columns of one
frame are aligned on the same date index. Arithmetic is over mathematical reals.

Two behaviours of the code that the model keeps as they are:

- **A NaN z-score is labelled "neutral".** The nested `np.where` at src/cracklib.py:69
  compares NaN false both ways, so a row without a z-score gets the label "neutral"
  (`Crack.Classify`, `Crack.ShortHistoryAllNeutral`).
- **The toy rule acts on the latest earlier z-score.** The joined frame is forward-filled at
  src/cracklib.py:156 before the rule reads it. So a row without a z-score reuses the latest
  earlier one, and is flat only before the first z-score (`ToyRule.PositionFollowsLatestZ`).

## Model

| member | source | states |
|---|---|---|
| Prices.ExtractClose | src/cracklib.py:37-49 | Fails iff the response has neither "Adj Close" nor "Close". Otherwise it uses "Adj Close" when present, else "Close". With two-level labels it returns exactly the tickers under that field; with single-level labels it returns one column labelled by the field. |
| Prices.Relabel | src/cracklib.py:54 | A single column returned for a single requested ticker takes the ticker's name; otherwise the frame is unchanged. Values are untouched. |
| Prices.KeepRequested | src/cracklib.py:54-56 | Fails with "no tickers" iff no (relabelled) column is a requested ticker. Otherwise it keeps exactly the requested columns, at least one. One column for one requested ticker never fails. |
| Prices.Requested | src/cracklib.py:55 | A column is kept iff it is in the frame and its name was requested. |
| Prices.Lookup | src/cracklib.py:44-47 | Single-level selection returns the values of the first column carrying the label. |
| Prices.SelectField | src/cracklib.py:40-41 | Two-level selection returns exactly the (ticker, values) pairs listed under the field. |
| Prices.FFillFrame | src/cracklib.py:57 | Every column is forward-filled; names and index are unchanged. |
| Prices.KeptRows | src/cracklib.py:57 | The rows kept by the row filter are exactly the flagged rows, in increasing order. |
| Prices.DropAllNullRows | src/cracklib.py:57 | `dropna(how="all")` keeps the column names and never adds rows. A strictly increasing date index stays strictly increasing. |
| Prices.DropAllNullRowsKeepsValuedRows | src/cracklib.py:57 | For any frame, every row with a value in some column survives `dropna(how="all")` with its date and all its cells. |
| Prices.DropAllNullRowsLeavesNoEmptyRow | src/cracklib.py:57 | After the drop, every row has a value in some column. |
| Prices.DroppedRowsLeadFFilled | src/cracklib.py:57 | Because of the forward fill, the rows dropped are exactly a leading block of empty rows. The remaining rows keep their order and cells. |
| Prices.CleanPrices | src/cracklib.py:51-57 | The missing-field error occurs iff neither close field exists. The no-tickers error occurs iff a close field exists but no (relabelled) column is a requested ticker. On success the result is exactly the requested close columns, forward-filled, without their all-empty rows (`KeepRequested`, `FFillFrame`, `DropAllNullRows`). It has at least one column, all of them requested tickers, no empty row, and an index that is a suffix of the response's index. |
| Prices.Message | src/cracklib.py:42-61 | The fatal texts: "Yahoo response missing Adj Close/Close." for a missing close field, "No tickers returned from Yahoo." when no ticker is kept, and "Missing " followed by the Python list of the missing legs. |
| Prices.NamesKept | src/cracklib.py:55-57 | Filling and dropping rows keeps only requested names. |
| Columns.FFillAt | src/cracklib.py:57 | After `ffill`, a cell is NaN iff its column has no value at or above it. Otherwise it equals the latest such value, and a present cell is unchanged. |
| Columns.FFillStaysPresent | src/cracklib.py:57 | Once a forward-filled column has a value, every later row has one. |
| Columns.FFillIdempotent | src/cracklib.py:57 | Forward-filling twice equals forward-filling once. |
| Columns.SumOfNonNull | src/cracklib.py:164 | Summing the non-null values equals summing with NaN read as 0. |
| Columns.CumSumAt | src/cracklib.py:164 | Row i of `fillna(0).cumsum()` is the sum of the non-null values of rows 0..i. |
| Columns.CumSumSteps | src/cracklib.py:164 | The running sum starts at the first value (0 for NaN) and adds each row's value (0 for NaN) to the previous total. |
| Columns.CumSumAllNull | src/cracklib.py:164 | The running sum of an all-NaN column is all zeros. |
| Crack.MissingLegsOf | src/cracklib.py:60-61 | A leg is listed iff it is one of CL=F, HO=F, RB=F and absent from the table. The list is strictly sorted in Python's string order. |
| Crack.BuildCrackPanel | src/cracklib.py:59-70 | Fails iff some leg is missing, and then the error names exactly the missing legs (`MissingLegsOf`). Otherwise the result is the panel built from the three legs on the same index. |
| Crack.PanelOf | src/cracklib.py:62-69 | Per row: crude as quoted; gasoline and heating oil × 42; spread 2·RB + HO − 3·CL; z-score from the rolling mean and the rolling deviation of the spread; regime classified from z. |
| Crack.ToBarrel | src/cracklib.py:62 | A $/gal price becomes $/bbl by the factor 42; NaN stays NaN. |
| Crack.Spread | src/cracklib.py:63 | The spread is defined iff all three legs are. |
| Crack.SpreadExample | src/cracklib.py:62-63 | CL=80, RB=2.40, HO=2.60 give 100.80 and 109.20 $/bbl and a spread of 70.80. |
| Crack.WindowAt | src/cracklib.py:66 | The window of row i is the last 252 rows ending at i, or rows 0..i while fewer exist. |
| Crack.RollingRef | src/cracklib.py:66-67 | A rolling statistic at row i is defined iff the window of row i holds at least 100 non-null values, and then it is the statistic of those values. |
| Crack.RollingMean | src/cracklib.py:66 | Same length as the input. At row i it is defined iff rows max(0, i−251)..i hold at least 100 non-null values, and then it equals their average. |
| Crack.RollingMeanMatchesWindow | src/cracklib.py:66 | The sliding-window scan (add the entering row, subtract the row 252 back) equals the mean over each row's window. |
| Crack.SlideWindow | src/cracklib.py:66 | Moving the window one row on changes its NaN-as-0 sum and its count by exactly the entering and leaving rows. |
| Crack.ZScore | src/cracklib.py:67 | z is defined iff the spread, mean and deviation are defined and the deviation is non-zero; then z·sd = x − mu. |
| Crack.Label | src/cracklib.py:69 | The three regimes carry the three label strings of the source; the label is "neutral" exactly for the neutral regime and "rich (high margin)" exactly for the rich one. |
| Crack.LabelsDistinct | src/cracklib.py:69 | Distinct regimes get distinct labels, so the stored label determines the regime. |
| Crack.Classify | src/cracklib.py:69 | Rich iff z > 1, cheap iff z < −1, neutral iff z is NaN or −1 ≤ z ≤ 1, so the three labels partition every row. |
| Crack.ThinWindowIsNeutral | src/cracklib.py:66-69 | A row whose window has fewer than 100 spread values has no z-score and is labelled neutral. |
| Crack.ShortHistoryAllNeutral | src/cracklib.py:59-70 | With all legs present and fewer than 100 rows, the build does not fail, every z is NaN and every row is neutral. |
| Crack.MissingHeatingOilExample | src/cracklib.py:60-61 | A table with only CL=F and RB=F fails with the missing-legs list ['HO=F']. |
| Crack.MissingHeatingOilMessage | src/cracklib.py:61 | That failure reads "Missing ['HO=F']". |
| Crack.Dashboard | src/cracklib.py:121-131 | No snapshot iff the spread is NaN throughout. Otherwise the snapshot reads the last row with a spread (its date, spread, z and regime). Its 21-row change is defined iff more than 21 spread values exist, and is then the last value minus the 22nd from the end. |
| ToyRule.PositionCRAK | src/cracklib.py:159 | The CRAK flag is 0 or 1, and 1 iff z > 1 (NaN gives 0). |
| ToyRule.PositionCL | src/cracklib.py:160 | The CL=F flag is 0 or −1, and −1 iff z < −1 (NaN gives 0). |
| ToyRule.PositionsExclusive | src/cracklib.py:159-160 | The two flags are never both non-zero on the same row. |
| ToyRule.StrategyReturns | src/cracklib.py:161-162 | A strategy return is defined iff the daily return is. Read with NaN as 0, it equals flag × return; with flag 1 it is the return itself. |
| ToyRule.ToyRule | src/cracklib.py:155-165 | The rule reads the forward-filled z. Flags take the values above, are 0 throughout for an absent instrument, and are never both non-zero. Each present instrument gets its strategy returns and running sums, and an absent one gets none. |
| ToyRule.PositionFollowsLatestZ | src/cracklib.py:156-160 | A row's flag follows the latest z-score at or before it, and is flat when there is none. |
| ToyRule.LegSums | src/cracklib.py:163-164 | The running sums add up the returns and the strategy returns with NaN as 0. The strategy sum starts at flag × first return and each step adds flag × return (NaN as 0). |
| ToyRule.RichDayExample | src/cracklib.py:159 | z = 0.9 then 1.5 gives CRAK flags 0 then 1. |
| ToyRule.AnnualisedReturn | src/cracklib.py:180-181 | Defined iff there is a non-null strategy return; then it equals the mean of those returns × 252. |
| ToyRule.Sharpe | src/cracklib.py:182 | Defined iff the volatility is defined and positive; then Sharpe × volatility = annual return. |
| ToyRule.RunningPeak | src/cracklib.py:153 | `cummax` at row i is at least every earlier value and equals one of them. |
| ToyRule.Drawdowns | src/cracklib.py:153 | Every drawdown lies in (−1, 0], and is 0 iff equity stands at its running peak. |
| ToyRule.Min | src/cracklib.py:153 | `min()` returns an element not exceeded by any other. |
| ToyRule.MaxDrawdown | src/cracklib.py:152-153 | NaN iff the curve is empty. Otherwise it is the least drawdown, lies in (−1, 0], and is 0 iff equity never decreases. |
| ToyRule.NoDrawdownIffNonDecreasing | src/cracklib.py:153 | Equity stands at its running peak on every row iff it never decreases. |
| Forward.ForwardAsWritten | src/cracklib.py:76 | The forward window as written has one row per return, and its first 20 rows are NaN whatever the returns. |
| Forward.ForwardSum | src/cracklib.py:76 | The intended forward return is defined iff the 21 rows after row i exist and are all present. It then equals the sum of returns i+1..i+21. |
| Forward.RollingSum | src/cracklib.py:76 | `rolling(21).sum()` is defined iff the 21-row window ending at the row exists and holds no NaN. |
| Forward.ShiftUp | src/cracklib.py:76 | `shift(-21)` moves every value up 21 rows and leaves NaN at the end. |
| Forward.AsWrittenVersusIntended | src/cracklib.py:76 | As written, rows 0..19 are always NaN. From row 20 on, the written form equals the intended forward sum. |
| Forward.FirstRowLost | src/cracklib.py:76 | Whenever returns 1..21 are present, the intended value at row 0 exists but the written one is NaN. |
| Forward.FirstRowLostExample | src/cracklib.py:76 | A history of one NaN return followed by 41 returns of 1% shows that loss. |

## Left out

- The network fetch `yf.download` (src/cracklib.py:52). The provider's response is an input (`Prices.Raw`).
- Every plot and file write: `_add_event_lines`, `save_plots_with_events`, `plot_seasonality`, the plotting and text output of `toy_rule_summary_and_plot`, and the file write and number formatting of `write_dashboard`. They are side effects with no logic of their own.
- The module-level directory creation (src/cracklib.py:18-19) and the output path constants.
- `np.log` daily returns and `np.exp` equity curves: reals have no logarithm or exponential. Daily returns and equity curves are inputs.
- Crack.BuildCrackPanel: the rolling standard deviation is the abstract parameter `stdev`, applied to the same window as the mean. Its sample-variance formula and square root are not modelled, so z is stated only in terms of that parameter.
- ToyRule.MaxDrawdown: takes the equity curve (`np.exp(cum)`) rather than the cumulative log return. It requires positive equity, which the exponential always gives.
- ToyRule.Sharpe: the annualised volatility (`daily.std() * sqrt(252)`) is an input.
- The per-regime groupby statistics of `compute_conditional_forward_returns` (src/cracklib.py:77-84). They are pandas aggregates over sample standard deviations and square roots; only the forward window they aggregate is modelled.
- The crack seasonality (monthly averages by calendar month): a plot with no result beyond the chart.
- pandas index alignment in `join` (src/cracklib.py:73, :156). Columns are assumed already aligned on one date index.
- IEEE floating point: arithmetic is over exact reals, so rounding, infinities and `0/0` versus `x/0` are not distinguished. z is NaN whenever the deviation is 0.
- Duplicate column labels in a single-level response: `raw[["Adj Close"]]` then returns every duplicate, and the relabelling `df.columns = ["Adj Close"]` at src/cracklib.py:45 and :47 raises a length-mismatch `ValueError`. The model reads the first column with the label instead (`Prices.Lookup`).
- `SystemExit` is modelled as the `Prices.Error` value. Its message text is `Prices.Message`, and the process exit itself is not modelled.

## Findings

| source | as written | input that shows it | evidently intended | confidence | as-written member | corrected member |
|---|---|---|---|---|---|---|
| src/cracklib.py:76 | `ret.shift(-21).rolling(21).sum()` needs a full 21-row window of the shifted series, so rows 0..19 are always NaN. Those rows drop out of the per-regime statistics. | daily returns `[NaN] + [0.01] * 41`: row 0 is NaN, although returns 1..21 exist and sum to 0.21 (Forward.FirstRowLostExample) | the sum of the next 21 returns at every row that has them (`rolling(21).sum().shift(-21)`) | medium, not executed | Forward.ForwardAsWritten | Forward.ForwardSum |
