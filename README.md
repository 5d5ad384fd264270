# Stop-loss pivot computation, modelled in Dafny

This project models the computation behind `GET /api/stop-loss` of the
crypto stop-loss alarm application. The handler takes hourly candles from the
exchange and an Average True Range (ATR) series with period 14. It then:

1. scans the low prices for *pivot lows*, meaning indices whose low is
   strictly below every low in the 15 positions before it and the 15 after it;
2. fails with "No pivot lows found" when there is none;
3. otherwise takes the last pivot of the list and reads the ATR value at
   `pivot.index - 14 + 1`;
4. returns the ticker, the newest close (`closes[0]`), the pivot's low, that
   ATR value and the pivot's low minus the ATR value.

Files:

- `pivot_lows.dfy`, module `PivotScan`, models the nested `findPivotLows`.
  - `Min` is JavaScript's `Math.min` over an argument list. `PosInfinity`
    stands for an empty list, so an empty window never blocks a pivot.
  - `IsPivotLow` is the pivot condition.
  - `PivotsBelow`/`PivotLows` hold the specification of the scan's result.
  - `FindPivotLows` is the loop itself. It works on the two window slices,
    as the source does, and is proved equal to `PivotLows`.
  - Lemmas prove soundness, completeness, strict index order, the range
    bound and the tie rule.
- `stop_loss.dfy`, module `StopLoss`, models the handler around the scan.
  - The constants are 14 for the ATR period and 15 for each pivot window.
  - `ResolveTicker` models the ticker fallback to `KRW-BTC`.
  - `SelectRecentPivot` models pivot selection.
  - `AlignedAtr` models the ATR look-up.
  - `ComputeStopLoss` is the whole computation as a function.
  - `StopLossHandler` is the handler's steps as a method that calls the loop.
    It is proved equal to `ComputeStopLoss`.
  - Lemmas describe the outcome using the pivot condition alone.

Choices the model makes:

- Prices are `real`. The scan only uses `<` on them, and assembly only uses `-`.
- Candles are kept in the exchange's order, most recent first, and positions
  are array positions. The "recent" pivot the handler picks has the largest
  array index. Under that order it is the *oldest* pivot in time. The model follows the code here.
- The ATR series is an input sequence.
- The handler never checks the ATR index. When the index falls outside the
  series, JavaScript reads `undefined` (route.ts:66) and the difference at
  route.ts:69 is NaN. `NextResponse.json` then serialises the body with
  `JSON.stringify`, so the handler answers with HTTP 200, a body without the
  `atr` key and with `"swingLowMinusATR": null`. This model returns the
  distinct error `AtrIndexOutOfRange` in place of that response. That is a
  modelling decision, not source behaviour. `AtrInRangeForLongSeries` shows
  the error cannot happen when the series has at least `|candles| - 28`
  values, whatever warm-up convention produced it.
- The code validates no input lengths and writes the ATR offset with the
  literal `14` (route.ts:66), not with the period passed to the library.
  The model does the same.

## Model

| member | source | states |
|---|---|---|
| PivotScan.Min | app/api/stop-loss/route.ts:49 | `Math.min` of a window: `+Infinity` exactly for an empty window; otherwise an element of the window that is no larger than any element |
| PivotScan.BelowMinIffBelowAll | app/api/stop-loss/route.ts:49 | `x < Math.min(...s)` holds exactly when `x` is below every element of `s`; it holds vacuously for an empty window |
| PivotScan.WindowTest | app/api/stop-loss/route.ts:47-49 | the test on the slices `lows[i-leftBars..i]` and `lows[i+1..i+1+rightBars]` decides exactly the strict-local-minimum condition |
| PivotScan.FindPivotLows | app/api/stop-loss/route.ts:44-54 | the loop from `leftBars` while `i < length - rightBars` returns exactly the pivot lows in index order (`PivotLows`) |
| PivotScan.NoPivotsBetween | app/api/stop-loss/route.ts:46-51 | indices that are not pivots add nothing to the collected list |
| PivotScan.PivotsBelowSound | app/api/stop-loss/route.ts:46-50 | what the scan has collected below `n` consists of pivot lows below `n`, each with the low at its index |
| PivotScan.PivotsBelowComplete | app/api/stop-loss/route.ts:46-51 | every pivot low below `n` has been collected |
| PivotScan.PivotsBelowAscending | app/api/stop-loss/route.ts:46-50 | the collected indices strictly increase |
| PivotScan.PivotLowsSound | app/api/stop-loss/route.ts:46-50 | each returned pivot has `leftBars <= index < length - rightBars` and `value == lows[index]`, and its value is strictly below every low in both windows |
| PivotScan.PivotLowsExactly | app/api/stop-loss/route.ts:46-51 | an index appears in the result if and only if it is a pivot low (soundness and completeness) |
| PivotScan.PivotLowsAscending | app/api/stop-loss/route.ts:46-50 | returned indices strictly increase, so no two returned pivots share an index |
| PivotScan.PivotLowsEmptyWhenShort | app/api/stop-loss/route.ts:46 | a series no longer than `leftBars + rightBars` gives an empty result |
| PivotScan.TiesAreNotPivots | app/api/stop-loss/route.ts:49 | a neighbour in either window with an equal low keeps the index out of the result |
| PivotScan.NonIncreasingHasNoPivots | app/api/stop-loss/route.ts:46-51 | with a non-empty right window, lows that never rise give no pivot |
| PivotScan.ScanExample | app/api/stop-loss/route.ts:44-54 | with windows of 2, the series 9,8,7,8,9,8,7,6,7,8 gives exactly the pivots (2, 7) and (7, 6) |
| StopLoss.ResolveTicker | app/api/stop-loss/route.ts:8 | the ticker is the query parameter when present and non-empty, otherwise `KRW-BTC`; it is never empty |
| StopLoss.SelectRecentPivot | app/api/stop-loss/route.ts:59-63 | the "no pivot lows" error exactly for an empty list; otherwise a pivot of the list that, on a list in index order, has a larger index than every other |
| StopLoss.AlignedAtr | app/api/stop-loss/route.ts:66 | the ATR value is `atrValues[pivot.index - 13]` when that position exists; otherwise the model's out-of-range error |
| StopLoss.ComputeStopLoss | app/api/stop-loss/route.ts:36-78 | a result holds the given ticker and `closes[0]` (so the candles are non-empty), and `swingLowMinusATR == recentPivotLow - atr` |
| StopLoss.StopLossHandler | app/api/stop-loss/route.ts:36-78 | the handler's steps, including the loop, compute exactly `ComputeStopLoss` for the resolved ticker |
| StopLoss.LastPivotIsMostRecent | app/api/stop-loss/route.ts:63 | the last element of a non-empty pivot list is the pivot low with the largest index |
| StopLoss.MostRecentPivotExists | app/api/stop-loss/route.ts:56-63 | whenever some index is a pivot low, a pivot low with the largest index exists |
| StopLoss.NoPivotLowsIff | app/api/stop-loss/route.ts:59-60 | the handler fails with "no pivot lows" if and only if no index is a pivot low for windows 15/15 |
| StopLoss.StopLossFromMostRecentPivot | app/api/stop-loss/route.ts:63-78 | for the pivot low `i` with the largest index, the handler returns the ticker, `candles[0].close`, `candles[i].low`, `atrValues[i - 13]` and their difference, or the ATR error when `i - 13` is out of range |
| StopLoss.AtrInRangeForLongSeries | app/api/stop-loss/route.ts:66 | when the ATR series has at least `length - 28` values, the ATR look-up never goes out of range (the pivot's position read is between 2 and `length - 29`) |
| StopLoss.NonIncreasingLowsFail | app/api/stop-loss/route.ts:59-60 | candles whose lows never rise from one position to the next give the "no pivot lows" error |
| StopLoss.ShortSeriesFail | app/api/stop-loss/route.ts:46-60 | 30 candles or fewer always give the "no pivot lows" error |

## Left out

- The ATR computation (`ATR.calculate` of the `technicalindicators` library, route.ts:2 and 40): it is foreign floating-point code whose source is not part of this model. The ATR series is an opaque input, so no property of its values or its length (non-negativity, zeros for constant prices, how many warm-up candles it drops) is modelled.
- The exchange request and the `response.ok` failure (route.ts:13-19): network I/O; the error it raises is not modelled.
- JSON decoding and the mapping of candle fields (route.ts:21-27): the model starts from decoded `Candle` values.
- `console.log`/`console.error` calls: logging only.
- Building the `NextResponse`, the HTTP 500 status and the try/catch (route.ts:72-82): the error becomes a `Result` value.
- IEEE-754 behaviour: prices are exact reals; NaN lows are not modelled, and the NaN from an out-of-range ATR index (serialised as `null`) is replaced by an error; `Math.min` of an empty window is modelled as `+Infinity`.
- PivotScan.FindPivotLows: window sizes are natural numbers. Negative or fractional window sizes are not modelled; the handler only passes 15 and 15.
- The Discord route (app/api/discord/send/route.ts): network I/O against a remote API, plus environment reads.
- The React pages and components and `next.config.ts`: user interface and build configuration.
