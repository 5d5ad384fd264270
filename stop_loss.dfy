/** The stop-loss computation of the `GET /api/stop-loss` handler, once the
    candles are fetched and the ATR series is computed: find the pivot
    lows of the low prices, take the one with the largest array index,
    look up the ATR value aligned to it, and subtract. Candles are in the
    exchange's order, most recent first; everything here works on array
    positions only. */
module StopLoss {
  import opened PivotScan

  /** Ticker used when the query string names none (or an empty one). */
  const DefaultTicker: string := "KRW-BTC"
  /** Period of the ATR series the handler asks the indicator library for. */
  const AtrPeriod: nat := 14
  /** Window sizes of the pivot-low scan. */
  const PivotLeftBars: nat := 15
  const PivotRightBars: nat := 15

  datatype Option<T> = None | Some(value: T)

  /** One hourly candle; `high` only feeds the ATR series, which is an
      input of this model. */
  datatype Candle = Candle(high: real, low: real, close: real)

  /** `NoPivotLowsFound` is the error the handler raises. The ATR index
      falling outside the series is an explicit error of this model; the
      handler instead reads `undefined` there and answers with HTTP 200, a
      body without `atr` and with `swingLowMinusATR` null. */
  datatype StopLossError = NoPivotLowsFound | AtrIndexOutOfRange

  datatype Result<T> = Ok(value: T) | Err(error: StopLossError)

  /** The JSON body of a successful response. */
  datatype StopLossResult = StopLossResult(
    ticker: string,
    currentPrice: real,
    recentPivotLow: real,
    atr: real,
    swingLowMinusATR: real)

  function Lows(candles: seq<Candle>): seq<real> {
    seq(|candles|, k requires 0 <= k < |candles| => candles[k].low)
  }

  function Closes(candles: seq<Candle>): seq<real> {
    seq(|candles|, k requires 0 <= k < |candles| => candles[k].close)
  }

  /** `searchParams.get('ticker') || 'KRW-BTC'`: a missing and an empty
      parameter both fall back to the default. */
  function ResolveTicker(param: Option<string>): (t: string)
    ensures t != []
    ensures param.Some? && param.value != [] ==> t == param.value
    ensures param.None? || param.value == [] ==> t == DefaultTicker
  {
    if param.Some? && param.value != [] then param.value else DefaultTicker
  }

  /** The last pivot of the list, or the "no pivot lows" error when there
      is none. On a list in index order it is the pivot with the largest
      index. */
  function SelectRecentPivot(pivots: seq<Pivot>): (r: Result<Pivot>)
    ensures r.Err? <==> pivots == []
    ensures r.Err? ==> r.error == NoPivotLowsFound
    ensures r.Ok? ==> r.value in pivots
    ensures r.Ok? && Ascending(pivots) ==>
      forall k :: 0 <= k < |pivots| - 1 ==> pivots[k].index < r.value.index
  {
    if pivots == [] then Err(NoPivotLowsFound) else Ok(pivots[|pivots| - 1])
  }

  /** Position in the ATR series that the handler reads for a pivot. */
  function AtrIndex(pivotIndex: nat): int {
    pivotIndex - AtrPeriod + 1
  }

  /** The ATR value aligned to a pivot, `atrValues[pivot.index - 13]`, or
      an error when that position is outside the series. */
  function AlignedAtr(atrValues: seq<real>, pivotIndex: nat): (r: Result<real>)
    ensures r.Ok? <==> 0 <= pivotIndex - 13 < |atrValues|
    ensures r.Ok? ==> r.value == atrValues[pivotIndex - 13]
    ensures r.Err? ==> r.error == AtrIndexOutOfRange
  {
    var k := AtrIndex(pivotIndex);
    if 0 <= k < |atrValues| then Ok(atrValues[k]) else Err(AtrIndexOutOfRange)
  }

  /** The computation the handler performs, as a function of the ticker,
      the candles and the ATR series. */
  function ComputeStopLoss(ticker: string, candles: seq<Candle>, atrValues: seq<real>): (r: Result<StopLossResult>)
    ensures r.Ok? ==> |candles| > 0 && r.value.ticker == ticker && r.value.currentPrice == candles[0].close
    ensures r.Ok? ==> r.value.swingLowMinusATR == r.value.recentPivotLow - r.value.atr
  {
    var lows := Lows(candles);
    match SelectRecentPivot(PivotLows(lows, PivotLeftBars, PivotRightBars))
    case Err(e) => Err(e)
    case Ok(pivot) =>
      match AlignedAtr(atrValues, pivot.index)
      case Err(e) => Err(e)
      case Ok(atr) =>
        PivotLowsSound(lows, PivotLeftBars, PivotRightBars);
        Ok(StopLossResult(ticker, Closes(candles)[0], pivot.value, atr, pivot.value - atr))
  }

  /** `i` is the pivot low with the largest index. */
  ghost predicate IsMostRecentPivot(lows: seq<real>, i: int) {
    && IsPivotLow(lows, i, PivotLeftBars, PivotRightBars)
    && forall j :: IsPivotLow(lows, j, PivotLeftBars, PivotRightBars) ==> j <= i
  }

  /** The handler, step by step: resolve the ticker, scan for pivot lows,
      fail on an empty list, select the last pivot, read the aligned ATR
      value and assemble the response. */
  method StopLossHandler(tickerParam: Option<string>, candles: seq<Candle>, atrValues: seq<real>)
    returns (r: Result<StopLossResult>)
    ensures r == ComputeStopLoss(ResolveTicker(tickerParam), candles, atrValues)
  {
    var ticker := ResolveTicker(tickerParam);
    var lows := Lows(candles);
    var closes := Closes(candles);
    var pivotLows := FindPivotLows(lows, PivotLeftBars, PivotRightBars);
    if |pivotLows| == 0 {
      return Err(NoPivotLowsFound);
    }
    var recentPivot := pivotLows[|pivotLows| - 1];
    var atrIndex := AtrIndex(recentPivot.index);
    if !(0 <= atrIndex < |atrValues|) {
      return Err(AtrIndexOutOfRange);
    }
    var recentAtr := atrValues[atrIndex];
    PivotLowsSound(lows, PivotLeftBars, PivotRightBars);
    var currentPrice := closes[0];
    var swingLowMinusAtr := recentPivot.value - recentAtr;
    r := Ok(StopLossResult(ticker, currentPrice, recentPivot.value, recentAtr, swingLowMinusAtr));
  }

  /** The last element of a non-empty pivot list is the pivot low with the
      largest index. */
  lemma LastPivotIsMostRecent(lows: seq<real>)
    requires PivotLows(lows, PivotLeftBars, PivotRightBars) != []
    ensures var ps := PivotLows(lows, PivotLeftBars, PivotRightBars);
      IsMostRecentPivot(lows, ps[|ps| - 1].index)
  {
    var ps := PivotLows(lows, PivotLeftBars, PivotRightBars);
    var last := ps[|ps| - 1];
    PivotLowsAscending(lows, PivotLeftBars, PivotRightBars);
    PivotLowsExactly(lows, PivotLeftBars, PivotRightBars, last.index);
    assert HasPivotAt(ps, last.index);
    forall j | IsPivotLow(lows, j, PivotLeftBars, PivotRightBars) ensures j <= last.index {
      PivotLowsExactly(lows, PivotLeftBars, PivotRightBars, j);
      var k :| 0 <= k < |ps| && ps[k].index == j;
      assert ps[k].index <= last.index;
    }
  }

  /** When some index is a pivot low there is a most recent one. */
  lemma MostRecentPivotExists(lows: seq<real>, i: int)
    requires IsPivotLow(lows, i, PivotLeftBars, PivotRightBars)
    ensures exists m :: IsMostRecentPivot(lows, m)
  {
    var ps := PivotLows(lows, PivotLeftBars, PivotRightBars);
    PivotLowsExactly(lows, PivotLeftBars, PivotRightBars, i);
    LastPivotIsMostRecent(lows);
  }

  /** The handler reports "no pivot lows" exactly when no index is a pivot
      low; no other input produces that error. */
  lemma NoPivotLowsIff(ticker: string, candles: seq<Candle>, atrValues: seq<real>)
    ensures ComputeStopLoss(ticker, candles, atrValues) == Err(NoPivotLowsFound)
      <==> forall i :: !IsPivotLow(Lows(candles), i, PivotLeftBars, PivotRightBars)
  {
    var lows := Lows(candles);
    var ps := PivotLows(lows, PivotLeftBars, PivotRightBars);
    if ps == [] {
      forall i ensures !IsPivotLow(lows, i, PivotLeftBars, PivotRightBars) {
        PivotLowsExactly(lows, PivotLeftBars, PivotRightBars, i);
      }
    } else {
      LastPivotIsMostRecent(lows);
    }
  }

  /** With `i` the pivot low of largest index, the result is built from
      its low, `atrValues[i - 13]` and the newest close; or it is the ATR
      error when `i - 13` is outside the series. */
  lemma StopLossFromMostRecentPivot(ticker: string, candles: seq<Candle>, atrValues: seq<real>, i: int)
    requires IsMostRecentPivot(Lows(candles), i)
    ensures ComputeStopLoss(ticker, candles, atrValues) ==
      if 0 <= i - 13 < |atrValues|
      then Ok(StopLossResult(ticker, candles[0].close, candles[i].low, atrValues[i - 13],
                             candles[i].low - atrValues[i - 13]))
      else Err(AtrIndexOutOfRange)
  {
    var lows := Lows(candles);
    var ps := PivotLows(lows, PivotLeftBars, PivotRightBars);
    PivotLowsExactly(lows, PivotLeftBars, PivotRightBars, i);
    LastPivotIsMostRecent(lows);
    PivotLowsSound(lows, PivotLeftBars, PivotRightBars);
    assert ps[|ps| - 1] in ps;
  }

  /** The ATR look-up stays inside the series whenever the series has at
      least `|candles| - 28` values: the pivot index lies in `[15, |candles| - 16]`,
      so the position read lies in `[2, |candles| - 29]`. The bound does not
      depend on the indicator library's warm-up convention; an ATR of period
      14 with one value per candle after the first 14 meets it. */
  lemma AtrInRangeForLongSeries(ticker: string, candles: seq<Candle>, atrValues: seq<real>)
    requires |candles| <= |atrValues| + PivotRightBars + AtrPeriod - 1
    ensures ComputeStopLoss(ticker, candles, atrValues) != Err(AtrIndexOutOfRange)
  {
    PivotLowsSound(Lows(candles), PivotLeftBars, PivotRightBars);
  }

  /** A series whose lows never rise from one array position to the next
      has no pivot low, so the handler reports "no pivot lows". */
  lemma NonIncreasingLowsFail(ticker: string, candles: seq<Candle>, atrValues: seq<real>)
    requires forall k :: 0 < k < |candles| ==> candles[k].low <= candles[k - 1].low
    ensures ComputeStopLoss(ticker, candles, atrValues) == Err(NoPivotLowsFound)
  {
    NonIncreasingHasNoPivots(Lows(candles), PivotLeftBars, PivotRightBars);
  }

  /** Fewer than 31 candles can never give a result. */
  lemma ShortSeriesFail(ticker: string, candles: seq<Candle>, atrValues: seq<real>)
    requires |candles| <= PivotLeftBars + PivotRightBars
    ensures ComputeStopLoss(ticker, candles, atrValues) == Err(NoPivotLowsFound)
  {
    PivotLowsEmptyWhenShort(Lows(candles), PivotLeftBars, PivotRightBars);
  }
}
