# crypto-watcher tracker core in Dafny

This project models the core of crypto-watcher, a Laravel application. The core is:

- the indicator service `Calculate`: MA, EMA and its series, ATR, RSI, MACD, VWEMA and VW-MACD;
- the Artisan commands that fill, prune and read the `volume_data` candle table and the
  `cryptos` and `alerts` tables.

The `tracker:*` ingestion commands are `binance-websocket`, `fetch-15m-websocket`,
`fetch-volumes-websocket`, `fetch-volumes` and `fetch-pairs` (FetchCryptos). The signal
detectors are `crossovers-alert`, `emas-alert` (declared by both EmasAlert.php and Emas.php),
`volumes-alert` (declared by both VolumesAlert.php and Volumes.php) and `rsi-alert`. The
maintenance and reporting commands are `tracker:cleanup`, `alerts:update-results`
(UpdateAlertResults) and `alerts:performance` (AlertPerformance).

How the model is built:

- Tables are values. `volume_data`, `cryptos` and `alerts` are sequences of datatypes, one
  field per column the commands read or write (`schema.dfy`; "## Left out" says how this
  differs from the model classes). A JSON `meta` column is a datatype of optional numbers.
- Each command's loop is a `method` with a `while` or `for` loop. It is proved equal to a
  specification function: a fold over the rows the query selects, or a per-event update.
  Lemmas then state what the command promises about that function.
- Real prices and volumes are `real`. Timestamps are whole seconds.
- A PHP exception that ends a pass (a method call on null, a division by zero) is an explicit
  "failed" outcome. The rows written before it stay written.
- BinanceWebSocket keeps state across events in its fields, so it is a `class`. Its
  `cryptos` symbol map and `processedCryptos` list are the fields its methods update.
- The exchange, Telegram, the clock and `Calculate::ADX` are parameters:
  - the exchange becomes candle lists, a market list and a ticker price map;
  - Telegram becomes the message or chunks the command would post;
  - the clock becomes one `now` per pass;
  - `Calculate::ADX` becomes a function parameter returning (adx, +di, -di).

Shared pieces:

- `common.dfy`: PHP's loose comparisons, `round($x, 2)`, `array_slice`, `max`/`min` and sums.
- `text.dfy`: `explode`, `implode`, `trim`, `strtoupper`, `strtolower` and `str_replace`, with
  their round trips.
- `sorting.dfy`: an insertion sort standing for `orderBy` and `usort`, proved to give an ordered
  permutation and to leave ordered input unchanged.
- `chunking.dfy`: the greedy Telegram chunker that CrossoversAlert, EmasAlert and VolumesAlert
  share.
- `ingest.dfy`: the "newest n rows, oldest first" window, the price change, the carried
  histogram and the keyed upsert that the websocket commands share.

Where the code differs from what its comments or the rest of the repository suggest, the
model follows the code:

- RSI is a plain mean of the last 14 gains and losses.
- MACD has no length guard.
- Cleanup can delete a crypto's newest candle.
- The default take-profit levels are `price ± N·atr`.
- Fetch15MWebSocket's window mixes timeframes and includes the bar's own stored row
  (`Fetch15m.Process`). `Fetch15m.ProcessIntended` is the window BinanceWebSocket reads, kept as
  a reference to compare against.
- CrossoversAlert and EmasAlert select every row at a crypto's greatest timestamp, in any timeframe. A 15m and a 4h candle opening together are both read, so their reruns are quiet only when each crypto has one latest candle (`CrossoversAlert.TiedCandlesRepeat`, `EmasAlert.TiedCandlesRepeat`).
- CrossoversAlert reads `vw_macd_line`, `vw_signal_line` and `vw_histogram` from `meta`, which
  no command in the repository writes. So on data this system writes, it never announces a
  trend (`CrossoversAlert.NoSignalWithoutVwHistogram`).

## Model

| member | source | states |
|---|---|---|
| Calculate.EmaSeries | app/Services/Calculate.php:63-74 | The EMA series has one element per input value and starts with the first value. |
| Calculate.EmaRecurrence | app/Services/Calculate.php:65-71 | Every element after the seed is `values[i]*k + ema[i-1]*(1-k)` with `k = 2/(period+1)`. |
| Calculate.EMAs | app/Services/Calculate.php:63-74 | The loop that appends one value per input builds exactly the EMA series. |
| Calculate.EMA | app/Services/Calculate.php:8-21 | The running value the loop keeps is the last element of the EMA series. |
| Calculate.EmaOfConstant | app/Services/Calculate.php:8-21 | A constant input has a constant EMA series, so EMA returns that constant. |
| Calculate.EmaWithinRange | app/Services/Calculate.php:8-21 | For a positive period, every EMA value lies between the smallest and largest input. |
| Calculate.MaWithinWindow | app/Services/Calculate.php:23-31 | Once `period` values exist, the moving average lies between the smallest and largest of the last `period` values. |
| Calculate.MaIgnoresOlderData | app/Services/Calculate.php:23-31 | Values older than the last `period` do not move the moving average. |
| Calculate.TrueRange | app/Services/Calculate.php:36-41 | A true range is non-negative, at least each of `h-l`, `abs(h-prevC)` and `abs(l-prevC)`, and equal to one of them. |
| Calculate.TrueRanges | app/Services/Calculate.php:35-42 | There is one true range per bar from index 1 on. |
| Calculate.ATR | app/Services/Calculate.php:33-45 | The loop computes the sum of the last `period` true ranges divided by `period`, and the result is non-negative. |
| Calculate.AtrNonNegative | app/Services/Calculate.php:33-45 | ATR is never negative, even when fewer than `period` true ranges exist. |
| Calculate.Gains | app/Services/Calculate.php:146-156 | There is one gain per price step. |
| Calculate.Losses | app/Services/Calculate.php:146-156 | There is one loss per price step. |
| Calculate.DivBounds | app/Services/Calculate.php:161-168 | `100/(1+rs)` lies in (0, 100] and is 100 exactly when rs is 0. |
| Calculate.RsiOfBounds | app/Services/Calculate.php:158-168 | The RSI formula is 100 iff the average loss is 0, lies in [0, 100], and is 0 iff there is loss but no gain. |
| Calculate.RSI | app/Services/Calculate.php:142-169 | The loop computes RSI as the plain mean of the last `period` gains and losses, with no Wilder smoothing. |
| Calculate.RsiRange | app/Services/Calculate.php:158-168 | RSI is exactly 100 iff the losses over the last `period` steps sum to 0; it always lies in [0, 100]. |
| Calculate.RsiZero | app/Services/Calculate.php:158-168 | RSI is 0 when the last `period` steps hold no gain and at least one loss. |
| Calculate.Diff | app/Services/Calculate.php:52 | The element-wise difference has the first array's length and holds `a[i]-b[i]`. |
| Calculate.MacdOf | app/Services/Calculate.php:47-61 | The line is the last fast EMA minus the last slow EMA. The signal is the last 9-period EMA of the line series. Line = signal + histogram. |
| Calculate.MacdOfConstant | app/Services/Calculate.php:47-61 | Constant closes give a zero line, signal and histogram. |
| Calculate.VwemaSeed | app/Services/Calculate.php:88-90 | The VWEMA seed is the first price whether or not its volume is positive. |
| Calculate.VwemaSeries | app/Services/Calculate.php:84-102 | The VWEMA series has one element per price and starts with the first price. |
| Calculate.VwemaRecurrence | app/Services/Calculate.php:92-99 | Every later element is `price*effectiveVolume*k + previous*(1-k)`. |
| Calculate.VWEMAs | app/Services/Calculate.php:84-102 | The loop builds exactly the VWEMA series. |
| Calculate.VwemaOfUnitVolumes | app/Services/Calculate.php:84-102 | With every volume 1 or non-positive, the VWEMA series is the EMA series of the prices. |
| Calculate.VwMacdOfUnitVolumes | app/Services/Calculate.php:112-133 | With unit volumes, VW-MACD is the ordinary MACD of the prices. |
| UpdateAlertResults.StopCode | app/Console/Commands/UpdateAlertResults.php:54-60 | The stop-loss code is negative: -11 iff the previous result was 1, -2 iff it was 2, otherwise -1. |
| UpdateAlertResults.Evaluate | app/Console/Commands/UpdateAlertResults.php:40-41 | The new highest price is `max(old ?? p, p)` and the new lowest is `min(old ?? p, p)`. The alert's identity and levels are unchanged. |
| UpdateAlertResults.EvaluateExtrema | app/Console/Commands/UpdateAlertResults.php:40-41 | The highest price never decreases, the lowest never increases, both bracket the price, and lowest ≤ highest. |
| UpdateAlertResults.BullishOutcome | app/Console/Commands/UpdateAlertResults.php:43-63 | For bullish alerts: tp3 closes with 3; tp2 and tp1 give partial 2 and 1; the stop loss closes with StopCode only when no take-profit is reached; otherwise nothing changes but the extrema. |
| UpdateAlertResults.BearishOutcome | app/Console/Commands/UpdateAlertResults.php:66-87 | Bearish alerts mirror the bullish checks, comparing the lowest price with the take-profits and the highest with the stop loss. |
| UpdateAlertResults.NeutralOnlyExtrema | app/Console/Commands/UpdateAlertResults.php:43-89 | An alert that is neither bullish nor bearish keeps its result and status. |
| UpdateAlertResults.NeverReopens | app/Console/Commands/UpdateAlertResults.php:43-87 | No evaluation sets the status back to open. |
| UpdateAlertResults.EvaluateKeepsReachable | app/Console/Commands/UpdateAlertResults.php:40-87 | Evaluation keeps an alert in its reachable states. Once a take-profit result is recorded, the next one is a take-profit at least as high, so -11 and -2 never occur. |
| UpdateAlertResults.Process | app/Console/Commands/UpdateAlertResults.php:17-37 | A closed alert is not selected and stays unchanged. An alert without a ticker price is skipped unchanged. Any other alert is evaluated at its price. |
| UpdateAlertResults.UpdatedAlerts | app/Console/Commands/UpdateAlertResults.php:15-96 | The run maps the table alert by alert and keeps its length. |
| UpdateAlertResults.Handle | app/Console/Commands/UpdateAlertResults.php:15-96 | The loop over the alerts produces exactly the updated table. |
| UpdateAlertResults.UpdatedAlertsKeepReachable | app/Console/Commands/UpdateAlertResults.php:31-92 | A run keeps every alert reachable, and keeps every take-profit result at least as high. |
| UpdateAlertResults.CreatedAlertReachable | app/Console/Commands/Tracker/CrossoversAlert.php:76-78 | An alert as CrossoversAlert creates it (open, no result, no extrema) is reachable. |
| UpdateAlertResults.TrackKeepsTakeProfit | app/Console/Commands/UpdateAlertResults.php:40-87 | Over any sequence of prices, a reachable alert stays reachable, and once it holds a take-profit result it keeps one at least as high. |
| UpdateAlertResults.BullishExample | app/Console/Commands/UpdateAlertResults.php:40-63 | Entry 100, stop 95, take-profits 110/115/120, tracked at 105, 117, 90: the result is 2 and partial, not a stop. |
| Binance.StreamKeyShape | app/Console/Commands/Tracker/BinanceWebSocket.php:33 | A key (the upper-cased symbol without `/`) has no `/` and no lower-case letter. |
| Binance.Lookup | app/Console/Commands/Tracker/BinanceWebSocket.php:92 | `$map[$k] ?? null` is null exactly for a missing key, and otherwise a value stored under it. |
| Binance.LookupEntry | app/Console/Commands/Tracker/BinanceWebSocket.php:92 | With distinct keys, looking a key up finds its own entry. |
| Binance.Put | app/Console/Commands/Tracker/BinanceWebSocket.php:32-34 | Assigning a key keeps keys distinct, adds the key, and holds the new entry. It keeps every other entry. |
| Binance.PutAll | app/Console/Commands/Tracker/BinanceWebSocket.php:32-34 | Assigning the entries in turn keeps keys distinct, and its keys are the old ones plus the new ones. |
| Binance.Pairs | app/Console/Commands/Tracker/BinanceWebSocket.php:32 | `pluck('id', 'symbol')` maps each symbol to an id of a crypto with that symbol. |
| Binance.Rekey | app/Console/Commands/Tracker/BinanceWebSocket.php:32-34 | `mapWithKeys` rewrites each key to its stream key and keeps the id. |
| Binance.SymbolIdsEntry | app/Console/Commands/Tracker/BinanceWebSocket.php:32-34 | Every entry of the symbol map is some crypto's stream key and id. |
| Binance.SymbolIdsKeys | app/Console/Commands/Tracker/BinanceWebSocket.php:32-34 | The map's keys are exactly the cryptos' stream keys. |
| Binance.SymbolIdsEntries | app/Console/Commands/Tracker/BinanceWebSocket.php:32-34 | The map has distinct keys, each of the stream shape, and its keys are the cryptos' stream keys. |
| Binance.SymbolIdsDistinctValues | app/Console/Commands/Tracker/BinanceWebSocket.php:32-34 | With unique crypto ids, no id appears under two keys. |
| Binance.SymbolIdsFind | app/Console/Commands/Tracker/BinanceWebSocket.php:32-34 | A crypto whose key no other crypto shares is found under that key. (Also lines 91-92.) |
| Binance.Resolve | app/Console/Commands/Tracker/BinanceWebSocket.php:91-97 | An event is dropped iff its upper-cased symbol is missing from the map or maps to 0. Otherwise its id is positive and stored under that symbol. |
| Binance.StreamNames | app/Console/Commands/Tracker/BinanceWebSocket.php:41-45 | There is one stream per key, `lower(key) . '@kline_' . timeframe`, in map order. |
| Binance.Truthies | app/Console/Commands/Tracker/BinanceWebSocket.php:131-132 | `array_filter` keeps exactly the values that are set and not 0. |
| Binance.RecentBounds | app/Console/Commands/Tracker/BinanceWebSocket.php:131-132 | The recent high is ≥ every window high and ≥ the previous non-zero recent high, and is one of them; the recent low is ≤ every window low and ≤ the previous non-zero recent low, and is one of them. |
| Binance.Fibonacci | app/Console/Commands/Tracker/BinanceWebSocket.php:193-204 | Level 0 is the high and level 100 is the low. |
| Binance.FibonacciOrdered | app/Console/Commands/Tracker/BinanceWebSocket.php:193-204 | When high ≥ low the levels descend 0 ≥ 38.2 ≥ 50 ≥ 61.8 ≥ 100, and level 50 is the midpoint. |
| Binance.Clamp | app/Console/Commands/Tracker/BinanceWebSocket.php:215-229 | `max(0, min(100, x))` lies in [0, 100] and is x when x is already there. |
| Binance.CalculateEntryScore | app/Console/Commands/Tracker/BinanceWebSocket.php:206-232 | The loop over the Fibonacci weights computes the entry score. |
| Binance.FibTermBounds | app/Console/Commands/Tracker/BinanceWebSocket.php:223-227 | With a positive range, each Fibonacci term lies between 0 and its weight. |
| Binance.FibSumBounds | app/Console/Commands/Tracker/BinanceWebSocket.php:216-227 | With a positive range, the Fibonacci score lies between 0 and the total weight. |
| Binance.EntryScoreBounds | app/Console/Commands/Tracker/BinanceWebSocket.php:206-232 | With a positive range, the rounded score lies in [0, 108]. With a zero range it is 100 when the price is at the high, and 0 otherwise. |
| Binance.RecentData | app/Console/Commands/Tracker/BinanceWebSocket.php:112-119 | The window holds at most 49 rows. |
| Binance.RecentDataFacts | app/Console/Commands/Tracker/BinanceWebSocket.php:112-119 | The window's rows are the crypto's and timeframe's rows at other timestamps, oldest first. Its last row is the newest of them. |
| Binance.ProcessWrites | app/Console/Commands/Tracker/BinanceWebSocket.php:91-97 | A dropped event leaves the table unchanged. Otherwise a row with the event's (crypto, timestamp, timeframe) holds the computed values, other rows are unchanged, and at most one row is added. (Also lines 147-183.) |
| Binance.ProcessKeepsKeysUnique | app/Console/Commands/Tracker/BinanceWebSocket.php:147-152 | The upsert keeps one row per (crypto_id, timestamp, timeframe). After an accepted event exactly one row has the event's key. |
| Binance.RepeatedBarLaterWins | app/Console/Commands/Tracker/BinanceWebSocket.php:112-152 | A bar streamed twice leaves the table as the later event alone would. |
| Binance.AsWrittenAgrees | app/Console/Commands/Tracker/BinanceWebSocket.php:131-132 | The code as written behaves like the model exactly when the previous candle has a recent high and low, and stops otherwise. |
| Binance.AsWrittenFirstBarStops | app/Console/Commands/Tracker/BinanceWebSocket.php:131-132 | With no stored row, the code as written stops, while the model stores the first bar under its key. |
| Binance.BinanceWebSocket.constructor | app/Console/Commands/Tracker/BinanceWebSocket.php:27-34 | The timeframe defaults to 15m, the symbol map is built from the cryptos table, nothing is processed yet, and the state is consistent. |
| Binance.BinanceWebSocket.Subscription | app/Console/Commands/Tracker/BinanceWebSocket.php:36-45 | There is no subscription iff the map is empty. |
| Binance.BinanceWebSocket.SubscriptionSplits | app/Console/Commands/Tracker/BinanceWebSocket.php:41-45 | The subscription splits back into the stream names. Each stream's symbol, upper-cased, finds its crypto's id. (Also lines 91-92.) |
| Binance.BinanceWebSocket.FinishedIff | app/Console/Commands/Tracker/BinanceWebSocket.php:71 | The `--once` stop condition holds iff every crypto of the map has been processed. |
| Binance.BinanceWebSocket.ProcessKlineData | app/Console/Commands/Tracker/BinanceWebSocket.php:89-184 | The table after an event is `Process` of the old table, and the processed list is marked with the event's id. |
| Binance.BinanceWebSocket.Mark | app/Console/Commands/Tracker/BinanceWebSocket.php:97-99 | The id joins the processed list only when it is not yet there, and the state stays consistent. |
| Binance.BinanceWebSocket.ProcessBufferedData | app/Console/Commands/Tracker/BinanceWebSocket.php:186-191 | The buffered events are processed in order, and the state stays consistent. |
| Binance.MarkedKeepsConsistent | app/Console/Commands/Tracker/BinanceWebSocket.php:99-101 | Marking keeps every processed id listed once. A new id is appended. |
| Binance.Compute | app/Console/Commands/Tracker/BinanceWebSocket.php:121-145 | The arrays, carried values and indicators, computed with Calculate's loops, are the row's values. |
| Binance.CacheTime | app/Console/Commands/Tracker/BinanceWebSocket.php:234-243 | The TTL is 61, 901 or 3601 seconds for 1m, 15m and 1h, and 60 for any other timeframe. |
| Chunking.NewAlertsHeaderLength | app/Console/Commands/Tracker/CrossoversAlert.php:88 | The header counts 22 bytes, as `strlen` counts its two four-byte emoji. |
| Chunking.SplitIntoChunks | app/Console/Commands/Tracker/CrossoversAlert.php:165-183 | Exploding the trimmed message at blank lines, packing the pieces and closing a non-empty open chunk computes exactly the chunks. |
| Chunking.PackPieces | app/Console/Commands/Tracker/CrossoversAlert.php:166-178 | The `foreach` over the pieces leaves exactly the open and closed chunks of the greedy packing of all pieces, in order. |
| Chunking.AddAlert | app/Console/Commands/Tracker/CrossoversAlert.php:171-177 | One piece joins the open chunk after a blank line (or alone when the chunk is empty) when the three lengths fit 4000, and otherwise closes the open chunk and opens the next. |
| Chunking.PackAllBounded | app/Console/Commands/Tracker/CrossoversAlert.php:169-178 | Every chunk, open or closed, fits the limit or is one whole piece. |
| Chunking.ChunksBounded | app/Console/Commands/Tracker/CrossoversAlert.php:169-183 | A chunk longer than 4000 bytes holds a single piece, so any chunk of two or more pieces fits. |
| Chunking.PackAllExtends | app/Console/Commands/Tracker/CrossoversAlert.php:169-178 | The closed chunks only grow, at the end. |
| Chunking.LongFirstPiece | app/Console/Commands/Tracker/CrossoversAlert.php:171-177 | A first piece longer than 3998 bytes is preceded by an empty chunk and then stands alone. |
| Chunking.LongFirstOf | app/Console/Commands/Tracker/CrossoversAlert.php:169-183 | For any pieces, a first piece longer than 3998 bytes yields an empty first chunk followed by that piece alone. |
| Chunking.FinishKeepsText | app/Console/Commands/Tracker/CrossoversAlert.php:169-183 | The chunks posted for non-empty pieces, a leading empty one dropped, join at blank lines to the joined pieces, and no later chunk is empty. |
| Chunking.PackAllKeepsText | app/Console/Commands/Tracker/CrossoversAlert.php:169-183 | Packing non-empty pieces loses and reorders nothing: the chunks joined at blank lines are the joined pieces. |
| Chunking.ChunksKeepText | app/Console/Commands/Tracker/CrossoversAlert.php:165-183 | When no piece is empty, the chunks after a possible leading empty one, joined at blank lines, give back the trimmed message, and no later chunk is empty. |
| CrossoversAlert.DetermineTrend | app/Console/Commands/Tracker/CrossoversAlert.php:120-152 | The computation fails (stops the command) iff the row has no meta or a latest price of 0. |
| CrossoversAlert.LowAtrIsNeutral | app/Console/Commands/Tracker/CrossoversAlert.php:122-126 | An ATR below 3% of the price gives neutral, whatever the MACD and RSI say. |
| CrossoversAlert.TrendIff | app/Console/Commands/Tracker/CrossoversAlert.php:122-151 | Bullish iff ATR ≥ 3% and line > signal and 0 < histogram > previous and RSI < 45. Bearish is the mirror with RSI > 55. Never both. |
| CrossoversAlert.NoSignalWithoutVwHistogram | app/Console/Commands/Tracker/CrossoversAlert.php:131-139 | Without a `vw_histogram` key, the trend is never bullish or bearish. |
| CrossoversAlert.TrendMirror | app/Console/Commands/Tracker/CrossoversAlert.php:138-151 | Mirroring the inputs swaps bullish and bearish. |
| CrossoversAlert.Setup | app/Console/Commands/Tracker/CrossoversAlert.php:200-217 | Bullish: SL = p − 1.5·atr and tpN = p + N·atr. Any other trend mirrors the levels. |
| CrossoversAlert.SetupOrdered | app/Console/Commands/Tracker/CrossoversAlert.php:200-217 | With atr > 0 a bullish setup has SL < entry < tp1 < tp2 < tp3, and the mirrored order otherwise. |
| CrossoversAlert.SetupMirror | app/Console/Commands/Tracker/CrossoversAlert.php:200-217 | The bearish levels are the bullish ones reflected about the entry. |
| CrossoversAlert.NewAlert | app/Console/Commands/Tracker/CrossoversAlert.php:76-78 | A created alert takes only the fillable columns. It starts open, with no result and no extrema. |
| CrossoversAlert.Step | app/Console/Commands/Tracker/CrossoversAlert.php:45-79 | One iteration: `last_trend` is always overwritten. When the trend changed and is not neutral, exactly the candle's crossover and the Alert created from it (its Setup levels, open, stamped `now`) are appended; otherwise neither list changes. A missing crypto or failed trend stops the pass. |
| CrossoversAlert.TiedCandlesRepeat | app/Console/Commands/Tracker/CrossoversAlert.php:35-38 | A bullish 15m and a bearish 4h candle of one crypto opening together are both latest, so every run flips `last_trend` twice and creates two more Alerts: without one candle per crypto a rerun is not quiet. |
| CrossoversAlert.TiedPass | app/Console/Commands/Tracker/CrossoversAlert.php:45-79 | Over those two candles a crypto not already bullish ends bearish, with two alerts and two crossovers added. |
| CrossoversAlert.Pass | app/Console/Commands/Tracker/CrossoversAlert.php:45-80 | The loop computes the fold `Run` over the latest candles. |
| CrossoversAlert.Handle | app/Console/Commands/Tracker/CrossoversAlert.php:30-112 | The latest candle per crypto is processed. Chunks are sent only when the pass did not fail and found a crossover. |
| CrossoversAlert.RunStaysFailed | app/Console/Commands/Tracker/CrossoversAlert.php:45-80 | Once the loop has stopped, later candles change nothing. |
| CrossoversAlert.RunKeepsIds | app/Console/Commands/Tracker/CrossoversAlert.php:53 | A pass keeps the cryptos' ids in place. |
| CrossoversAlert.RunRowsSucceed | app/Console/Commands/Tracker/CrossoversAlert.php:45-53 | In a pass that did not fail, every candle's trend is computable and its crypto exists. |
| CrossoversAlert.RunSetsLastTrend | app/Console/Commands/Tracker/CrossoversAlert.php:46-53 | After a pass over distinct cryptos that did not fail, every crypto's `last_trend` is its candle's trend. |
| CrossoversAlert.QuietPass | app/Console/Commands/Tracker/CrossoversAlert.php:53-56 | If every crypto already holds its candle's trend, the pass changes nothing and announces nothing. |
| CrossoversAlert.RerunIsQuiet | app/Console/Commands/Tracker/CrossoversAlert.php:30-112 | When no two latest candles belong to one crypto, running again on the same candles announces nothing and creates no Alert. The query does not guarantee that premise (TiedCandlesRepeat). |
| Emas.TrendIff | app/Console/Commands/Tracker/Emas.php:94-105 | With both EMAs present: bullish iff EMA7 > EMA15, bearish iff EMA7 < EMA15, neutral iff equal. |
| Emas.MissingFastEma | app/Console/Commands/Tracker/Emas.php:94-105 | A candle without EMA7 reads as bearish once EMA15 is present, and as neutral when both are missing. |
| Emas.Step | app/Console/Commands/Tracker/Emas.php:37-58 | The crypto is updated only on a change; a change, to neutral included, is announced. A candle without a crypto stops the pass. |
| Emas.StepWritesTrend | app/Console/Commands/Tracker/Emas.php:45-58 | After a step the crypto holds the candle's trend and no other crypto changed. |
| Emas.Pass | app/Console/Commands/Tracker/Emas.php:37-59 | The loop computes the fold `Run` over the candles of the window. |
| Emas.Handle | app/Console/Commands/Tracker/Emas.php:27-86 | The pass runs over the rows of the last 5 minutes. One message is sent only when the pass did not fail and found a change. |
| Emas.RunStaysFailed | app/Console/Commands/Tracker/Emas.php:37-59 | Once the loop has stopped, later candles change nothing. |
| Emas.RunKeepsIds | app/Console/Commands/Tracker/Emas.php:57 | A pass that did not fail keeps the crypto ids in place. |
| Emas.RunKeepsUniqueIds | app/Console/Commands/Tracker/Emas.php:57 | A pass keeps the crypto ids unique. |
| Emas.RunLeavesOthers | app/Console/Commands/Tracker/Emas.php:37-59 | A crypto without candles in the pass is unchanged. |
| Emas.RunLastTrend | app/Console/Commands/Tracker/Emas.php:37-59 | After a pass that did not fail, each crypto holds the trend of its last candle in the pass. |
| Emas.CrossoversChange | app/Console/Commands/Tracker/Emas.php:45 | Every announced change differs from the trend it replaced. |
| Emas.QuietStep | app/Console/Commands/Tracker/Emas.php:45 | A candle whose crypto already holds its trend changes nothing. |
| EmasAlert.DetermineTrend | app/Console/Commands/Tracker/EmasAlert.php:105-120 | The trend fails (stops the command) iff the row has no meta. |
| EmasAlert.LowAtrIsNeutral | app/Console/Commands/Tracker/EmasAlert.php:107-109 | An ATR below 0.5, or none, gives neutral whatever the EMAs say. |
| EmasAlert.TrendIff | app/Console/Commands/Tracker/EmasAlert.php:107-119 | Bullish iff ATR ≥ 0.5 and EMA15 > EMA25 > EMA50. Bearish iff ATR ≥ 0.5 and EMA15 < EMA25 < EMA50. Neutral otherwise. |
| EmasAlert.TrendMirror | app/Console/Commands/Tracker/EmasAlert.php:111-119 | Mirroring the EMA stack swaps bullish and bearish. |
| EmasAlert.Step | app/Console/Commands/Tracker/EmasAlert.php:43-68 | `last_trend` is always overwritten. A crossover is recorded iff the trend changed and is not neutral. No Alert row is created. |
| EmasAlert.Pass | app/Console/Commands/Tracker/EmasAlert.php:43-69 | The loop computes the fold `Run` over the latest candles. |
| EmasAlert.Handle | app/Console/Commands/Tracker/EmasAlert.php:28-97 | Chunks are sent only when the pass did not fail and found a crossover. |
| EmasAlert.RunStaysFailed | app/Console/Commands/Tracker/EmasAlert.php:43-69 | Once the loop has stopped, later candles change nothing. |
| EmasAlert.RunKeepsIds | app/Console/Commands/Tracker/EmasAlert.php:51 | A pass that did not fail keeps the crypto ids in place. |
| EmasAlert.RunRowsSucceed | app/Console/Commands/Tracker/EmasAlert.php:43-51 | In a pass that did not fail, every candle has a meta and a crypto. |
| EmasAlert.RunSetsLastTrend | app/Console/Commands/Tracker/EmasAlert.php:44-51 | After a pass over distinct cryptos that did not fail, each crypto's `last_trend` is its candle's trend, announced or not. |
| EmasAlert.CrossoversFire | app/Console/Commands/Tracker/EmasAlert.php:54 | Every announced crossover is bullish or bearish and differs from the trend it replaced. |
| EmasAlert.QuietPass | app/Console/Commands/Tracker/EmasAlert.php:51-54 | If every crypto already holds its candle's trend, the pass changes nothing and announces nothing. |
| EmasAlert.RerunIsQuiet | app/Console/Commands/Tracker/EmasAlert.php:28-97 | When no two latest candles belong to one crypto, running again on the same candles announces nothing. The query does not guarantee that premise (TiedCandlesRepeat). |
| EmasAlert.TiedCandlesLatest | app/Console/Commands/Tracker/EmasAlert.php:33-36 | A 15m and a 4h candle of one crypto opening at the same time are both selected as latest. |
| EmasAlert.TiedPass | app/Console/Commands/Tracker/EmasAlert.php:43-69 | Over a bullish and a bearish tied candle a crypto not already bullish ends bearish, with two crossovers added. |
| EmasAlert.TiedCandlesRepeat | app/Console/Commands/Tracker/EmasAlert.php:33-69 | With those two latest candles a second run leaves the cryptos as the first left them and announces two more crossovers. |
| Fetch15m.Subscription | app/Console/Commands/Tracker/Fetch15MWebSocket.php:24-33 | There is no subscription, and the command exits, iff the cryptos table is empty. |
| Fetch15m.SubscriptionStreams | app/Console/Commands/Tracker/Fetch15MWebSocket.php:24-33 | The subscription splits back into one `@kline_15m` stream per crypto, in descending volume order. |
| Fetch15m.RecentData | app/Console/Commands/Tracker/Fetch15MWebSocket.php:84-87 | The window holds at most 49 rows. It is taken over every timeframe of the crypto and includes the bar's own stored row. |
| Fetch15m.ProcessKlineData | app/Console/Commands/Tracker/Fetch15MWebSocket.php:64-147 | Appending the bar to the window arrays, computing with Calculate and upserting gives exactly `Process` of the table. |
| Fetch15m.ProcessWrites | app/Console/Commands/Tracker/Fetch15MWebSocket.php:66-73 | An unresolved symbol writes nothing. Otherwise a 15m row of the crypto at the bar holds the values, other rows are unchanged, and at most one row is added. (Also lines 111-143.) |
| Fetch15m.ProcessKeepsKeysUnique | app/Console/Commands/Tracker/Fetch15MWebSocket.php:111-116 | The upsert keeps one row per (crypto_id, timestamp, timeframe), and after an accepted event exactly one row has its key. |
| Fetch15m.ReadsOwnBar | app/Console/Commands/Tracker/Fetch15MWebSocket.php:84-106 | When the bar's own row is the crypto's newest, the previous close and histogram come from that row itself. |
| Fetch15m.IntendedRepeatedBarLaterWins | app/Console/Commands/Tracker/Fetch15MWebSocket.php:84-116 | With the window BinanceWebSocket uses (15m rows, own bar excluded), a repeated bar leaves the table as the later event alone would. |
| Fetch15m.AsWrittenTickResetsPriceChange | app/Console/Commands/Tracker/Fetch15MWebSocket.php:84-104 | After a first tick at 110 over a close of 100, a second tick of the same bar is stored, as written, with a price change of 0. With the 15m-before-the-bar window it would be 10%. |
| FetchCryptos.UpsertKeepsValid | app/Console/Commands/Tracker/FetchCryptos.php:74-81 | An upsert keeps symbols unique, ids unique and below the next id. |
| FetchCryptos.UpsertWrites | app/Console/Commands/Tracker/FetchCryptos.php:74-81 | The market's symbol then has a row with its assets and the fresh stamp. An existing row keeps place, id, trend, volume alert and volume. Other rows are unchanged. |
| FetchCryptos.UpsertSymbols | app/Console/Commands/Tracker/FetchCryptos.php:74-81 | An upsert adds the market's symbol and removes none. |
| FetchCryptos.RunKeepsValid | app/Console/Commands/Tracker/FetchCryptos.php:72-84 | The table stays valid through the pass. |
| FetchCryptos.RunSymbols | app/Console/Commands/Tracker/FetchCryptos.php:72-84 | After the pass the symbol set is the old set plus the markets' symbols. |
| FetchCryptos.RunKeepsRows | app/Console/Commands/Tracker/FetchCryptos.php:72-84 | Every old row keeps its place, id, symbol, `last_trend`, `last_volume_alert` and volume. |
| FetchCryptos.RunStampsAll | app/Console/Commands/Tracker/FetchCryptos.php:72-84 | Every market's symbol has a row stamped with the pass time. |
| FetchCryptos.Handle | app/Console/Commands/Tracker/FetchCryptos.php:55-94 | A failed `fetch_markets` leaves the table unchanged. Otherwise the pass upserts exactly the USDT markets. |
| FetchCryptos.HandleSymbols | app/Console/Commands/Tracker/FetchCryptos.php:64-84 | The symbols after a pass are the old ones plus the markets' USDT symbols, so every added symbol ends in `USDT`. |
| FetchCryptos.RerunKeepsSymbols | app/Console/Commands/Tracker/FetchCryptos.php:72-84 | A second pass over the same markets adds no symbol. |
| FetchVolumes.FetchedFirstIsPreorder | app/Console/Commands/Tracker/FetchVolumes.php:63 | Ascending `last_fetched` with NULL first is a total preorder. |
| FetchVolumes.BatchIsOldest | app/Console/Commands/Tracker/FetchVolumes.php:58-65 | The batch is min(n, 500) cryptos of the table, ordered by `last_fetched`, and no crypto left out was fetched before one in the batch. |
| FetchVolumes.Volumes | app/Console/Commands/Tracker/FetchVolumes.php:96 | The volume column has one entry per candle. |
| FetchVolumes.Closes | app/Console/Commands/Tracker/FetchVolumes.php:97 | The close column has one entry per candle. |
| FetchVolumes.CalculateEMA | app/Console/Commands/Tracker/FetchVolumes.php:162-176 | The loop that skips index 0 returns the last element of `Calculate`'s EMA series, so it equals `Calculate::EMA`. |
| FetchVolumes.NewRowFromLastCandle | app/Console/Commands/Tracker/FetchVolumes.php:87-133 | The row is the newest candle's, at its bar time, with latest price = close, no timeframe and no meta. Each volume EMA lies within the range of the fetched volumes, and each price EMA within the range of the fetched closes. |
| FetchVolumes.RowsFor | app/Console/Commands/Tracker/FetchVolumes.php:114-133 | There is one row per successful crypto, in order. |
| FetchVolumes.Run | app/Console/Commands/Tracker/FetchVolumes.php:76-143 | The pass keeps the cryptos table's length. |
| FetchVolumes.RunRows | app/Console/Commands/Tracker/FetchVolumes.php:79-133 | The pass appends one row per crypto with at least 100 candles, in batch order. A failed or short fetch leaves no row. |
| FetchVolumes.OkRowsSnoc | app/Console/Commands/Tracker/FetchVolumes.php:79-84 | One more crypto in the batch adds its row after the others exactly when its call returns at least 100 candles. |
| FetchVolumes.RunStamps | app/Console/Commands/Tracker/FetchVolumes.php:80-84 | `last_fetched` is stamped with the pass time on exactly the cryptos that succeeded. Nothing else in the table changes. (Also lines 136-142.) |
| FetchVolumes.RunRotates | app/Console/Commands/Tracker/FetchVolumes.php:63-65 | With no stamp after the pass time, a fetched crypto sorts after every unfetched one, so the next batch starts with those. (Also line 136.) |
| FetchVolumes.RerunAppendsAgain | app/Console/Commands/Tracker/FetchVolumes.php:114 | `create` is not an upsert: fetching the same batch again appends the same rows again. |
| FetchVolumes.BuildRow | app/Console/Commands/Tracker/FetchVolumes.php:87-133 | The ten `calculateEMA` calls and the last candle build exactly `NewRow`. |
| FetchVolumes.Pass | app/Console/Commands/Tracker/FetchVolumes.php:76-143 | The loop over the batch computes the fold `Run`: each crypto whose call succeeds is stamped and adds its row. |
| FetchVolumes.Handle | app/Console/Commands/Tracker/FetchVolumes.php:56-153 | The command runs the fold `Run` over the oldest-fetched batch. An empty table leaves both tables unchanged. |
| FetchVolumesWebSocket.Top | app/Console/Commands/Tracker/FetchVolumesWebSocket.php:24-26 | The list is at most 120 cryptos of the table, by descending `volume24`. |
| FetchVolumesWebSocket.InsufficientIff | app/Console/Commands/Tracker/FetchVolumesWebSocket.php:30-39 | An id is listed iff a top crypto has it and fewer than 119 rows in the lookback. |
| FetchVolumesWebSocket.FindInsufficient | app/Console/Commands/Tracker/FetchVolumesWebSocket.php:29-39 | The loop computes exactly the insufficient ids. |
| FetchVolumesWebSocket.DecimalString | app/Console/Commands/Tracker/FetchVolumesWebSocket.php:48 | The decimal spelling of a number is made of digits only. |
| FetchVolumesWebSocket.AsWrittenExcludesNothing | app/Console/Commands/Tracker/FetchVolumesWebSocket.php:48 | As written, `whereNotIn('symbol', ids)` excludes no pair symbol, so every top crypto is subscribed. |
| FetchVolumesWebSocket.SubscribedIff | app/Console/Commands/Tracker/FetchVolumesWebSocket.php:36-48 | With the intended filter, a top crypto is subscribed iff it has at least 119 rows in the lookback. |
| FetchVolumesWebSocket.AsWrittenSubscribesStarved | app/Console/Commands/Tracker/FetchVolumesWebSocket.php:36-48 | A crypto without rows is queued for a backfill and still subscribed as written, but not with the intended filter. |
| FetchVolumesWebSocket.Subscription | app/Console/Commands/Tracker/FetchVolumesWebSocket.php:50-55 | There is no subscription, and the command exits, iff no crypto remains after the filter. |
| FetchVolumesWebSocket.Handle | app/Console/Commands/Tracker/FetchVolumesWebSocket.php:19-55 | When there are insufficient ids they are queued. The subscription is the one computed with the intended filter. |
| FetchVolumesWebSocket.Chunk | app/Console/Commands/Tracker/FetchVolumesWebSocket.php:127-128 | `array_chunk` gives consecutive pieces of n elements; only the last may be shorter. |
| FetchVolumesWebSocket.ChunkPartitions | app/Console/Commands/Tracker/FetchVolumesWebSocket.php:127-128 | The pieces, put back together, are the sequence. |
| FetchVolumesWebSocket.ChunkCount | app/Console/Commands/Tracker/FetchVolumesWebSocket.php:127-128 | There are ⌈n/4⌉ chunks of four. |
| FetchVolumesWebSocket.AggregatedCloses | app/Console/Commands/Tracker/FetchVolumesWebSocket.php:130 | There is one mean close per chunk. |
| FetchVolumesWebSocket.AggregatedVolumes | app/Console/Commands/Tracker/FetchVolumesWebSocket.php:131 | There is one summed volume per chunk. |
| FetchVolumesWebSocket.AggregatedVolumesTotal | app/Console/Commands/Tracker/FetchVolumesWebSocket.php:128-131 | The hourly volumes add up to the quarter-hour volumes. |
| FetchVolumesWebSocket.MeanWithin | app/Console/Commands/Tracker/FetchVolumesWebSocket.php:130 | A chunk mean lies between the chunk's smallest and largest close. |
| FetchVolumesWebSocket.HourlyCloses | app/Console/Commands/Tracker/FetchVolumesWebSocket.php:127-130 | There are ⌈n/4⌉ hourly closes, each within its hour's closes. |
| FetchVolumesWebSocket.RecentData | app/Console/Commands/Tracker/FetchVolumesWebSocket.php:106-109 | The window holds at most 119 rows. It is taken over every timeframe of the crypto. |
| FetchVolumesWebSocket.ProcessKlineData | app/Console/Commands/Tracker/FetchVolumesWebSocket.php:86-168 | Appending the bar, aggregating four at a time for the hourly MACD and upserting gives exactly `Process` of the table. |
| FetchVolumesWebSocket.ProcessWrites | app/Console/Commands/Tracker/FetchVolumesWebSocket.php:88-139 | An unresolved symbol writes nothing. Otherwise a row of the crypto at the bar holds the values and other rows are unchanged. The table keeps one row per (crypto_id, timestamp). |
| FetchVolumesWebSocket.PreviousHistogramIsZero | app/Console/Commands/Tracker/FetchVolumesWebSocket.php:124-158 | The command never writes `vw_histogram`, so a row it wrote gives the next event a previous histogram of 0. |
| Ingest.NoLaterIsPreorder | app/Console/Commands/Tracker/BinanceWebSocket.php:115 | Ascending timestamp order (oldest first, as the window is returned) is a total preorder. |
| Ingest.Window | app/Console/Commands/Tracker/BinanceWebSocket.php:113-118 | The window holds the newest n rows satisfying the condition, or all of them when there are fewer. |
| Ingest.WindowRows | app/Console/Commands/Tracker/BinanceWebSocket.php:113-118 | The window's rows are rows of the table satisfying the condition, oldest first. |
| Ingest.TakeLastKeepsNewer | app/Console/Commands/Tracker/BinanceWebSocket.php:117 | In an ordered sequence, anything later than the first kept element is kept, and nothing is later than the last one kept. |
| Ingest.SortByTime | app/Console/Commands/Tracker/BinanceWebSocket.php:115 | Sorting by timestamp orders and permutes. |
| Ingest.WindowNewest | app/Console/Commands/Tracker/BinanceWebSocket.php:113-118 | Every selected row newer than the window's first is in it, and its last row is the newest of them. |
| Ingest.WindowHoldsAll | app/Console/Commands/Tracker/BinanceWebSocket.php:113-118 | With at most n selected rows, the window holds all of them. |
| Ingest.LastRow | app/Console/Commands/Tracker/BinanceWebSocket.php:125 | `optional($window->last())` is null iff the window is empty, and otherwise its last row. |
| Ingest.Series | app/Console/Commands/Tracker/BinanceWebSocket.php:121-129 | There is one entry per window row, oldest first, with the new bar's value last. |
| Ingest.SeriesShape | app/Console/Commands/Tracker/BinanceWebSocket.php:121-129 | The four arrays have equal length, at most n + 1, and end with the new bar. |
| Ingest.PriceChangeFacts | app/Console/Commands/Tracker/BinanceWebSocket.php:141-144 | With no previous row, or a previous close of 0, the change is 0. Otherwise it is the relative change, positive iff the price rose from a positive close. |
| Ingest.CarriedHistogram | app/Console/Commands/Tracker/BinanceWebSocket.php:145 | The value is the previous row's histogram, or 0 without one. |
| Ingest.StoreWrites | app/Console/Commands/Tracker/BinanceWebSocket.php:147-183 | After an upsert, a row with the key holds the values, other rows are unchanged, and at most one row is added. |
| Ingest.StoreKeepsKeyUnique | app/Console/Commands/Tracker/Fetch15MWebSocket.php:111-116 | An upsert on (crypto_id, timestamp, timeframe) keeps that key unique and leaves exactly one row with it. |
| Ingest.StoreKeepsBarUnique | app/Console/Commands/Tracker/FetchVolumesWebSocket.php:135-139 | An upsert on (crypto_id, timestamp) keeps that pair unique and leaves exactly one row with it. |
| Ingest.StoreLaterWins | app/Console/Commands/Tracker/BinanceWebSocket.php:147-152 | Storing a key twice is storing it once with the later values. |
| Ingest.FilterUpdateAt | app/Console/Commands/Tracker/BinanceWebSocket.php:113-116 | Updating a row that the window's condition rejects before and after leaves the window's selection unchanged. |
| Ingest.StoreOutsideWindow | app/Console/Commands/Tracker/BinanceWebSocket.php:116-147 | An upsert whose key rows the condition never selects leaves the selection unchanged. |
| Ingest.StreamName15m | app/Console/Commands/Tracker/Fetch15MWebSocket.php:33 | The 15m stream name of a symbol holds no `/`. |
| Ingest.StreamNames15m | app/Console/Commands/Tracker/FetchVolumesWebSocket.php:55 | There is one stream per crypto, in order. |
| Ingest.StreamsSplit | app/Console/Commands/Tracker/FetchVolumesWebSocket.php:55 | When no name contains `/`, the joined stream list splits back into the names. |
| Ingest.FindBase | app/Console/Commands/Tracker/Fetch15MWebSocket.php:68 | `where('base_asset', …)->first()` finds null iff no crypto has the base, and otherwise the first such crypto. |
| Ingest.BaseOfPair | app/Console/Commands/Tracker/Fetch15MWebSocket.php:66-68 | A stream symbol of a USDT pair whose base contains no `@` and cannot run into "USDT" resolves to that base, in any case. |
| RsiAlert.LatestIn | app/Console/Commands/Tracker/RSIAlert.php:36-53 | The `latest<tf>` relation is null iff the crypto has no candle in the timeframe, and is otherwise one of greatest timestamp. |
| RsiAlert.GetPriceChanges | app/Console/Commands/Tracker/RSIAlert.php:119-131 | There are entries for 15m, 1h and 4h, each the latest candle's price change, or 0 without a candle. |
| RsiAlert.Probe | app/Console/Commands/Tracker/RSIAlert.php:53-66 | A crypto yields an alert in a timeframe iff its latest candle there has RSI set and below 30. |
| RsiAlert.HitsForIff | app/Console/Commands/Tracker/RSIAlert.php:50-66 | Every alert of a timeframe comes from a crypto whose latest candle there is oversold, and every such crypto has its alert. |
| RsiAlert.HitsForAppend | app/Console/Commands/Tracker/RSIAlert.php:50-66 | The alerts of earlier cryptos, in `volume24` order, come before those of later ones. |
| RsiAlert.AddAlertGroupOf | app/Console/Commands/Tracker/RSIAlert.php:58 | Adding an alert appends it to its timeframe's group and leaves the other groups unchanged. |
| RsiAlert.ScanGroupOf | app/Console/Commands/Tracker/RSIAlert.php:52-67 | The inner loop appends the crypto's alert to each timeframe's own group. |
| RsiAlert.GroupsByTimeframe | app/Console/Commands/Tracker/RSIAlert.php:40-68 | 15m and 1h groups always exist; 1m and 4h only once they have an alert. Each group holds exactly its timeframe's alerts, in crypto order. |
| RsiAlert.InitialGroupOf | app/Console/Commands/Tracker/RSIAlert.php:40-45 | `$alerts` starts with empty 15m and 1h groups and nothing else. |
| RsiAlert.Blocks | app/Console/Commands/Tracker/RSIAlert.php:95-107 | There is one block per alert. |
| RsiAlert.FormatAlerts | app/Console/Commands/Tracker/RSIAlert.php:90-110 | The loop builds the header `*RSI <TF>*` and the blocks, joined by blank lines. |
| RsiAlert.AlertsTextSplits | app/Console/Commands/Tracker/RSIAlert.php:92-109 | When no block contains a blank line or ends in a newline, the message splits back at blank lines into the header and the blocks. |
| RsiAlert.MessagesIff | app/Console/Commands/Tracker/RSIAlert.php:71-76 | Every group with alerts has its message, and every message is that of a group with alerts. |
| RsiAlert.MessagesBounded | app/Console/Commands/Tracker/RSIAlert.php:71-76 | There are at most as many messages as groups. |
| RsiAlert.MessagePerTimeframe | app/Console/Commands/Tracker/RSIAlert.php:50-76 | A timeframe with alerts gets its message, listing them in crypto order. A timeframe without alerts gets none. |
| RsiAlert.Handle | app/Console/Commands/Tracker/RSIAlert.php:28-81 | The messages posted are those of the groups collected over the cryptos by descending volume. |
| RsiAlert.SendGroups | app/Console/Commands/Tracker/RSIAlert.php:71-76 | The send loop posts one message per group with alerts, in group order. |
| RsiAlert.ScanCrypto | app/Console/Commands/Tracker/RSIAlert.php:52-67 | The inner loop over 1m, 15m, 1h and 4h computes the crypto's scan step. |
| RsiAlert.CollectAsWrittenIff | app/Console/Commands/Tracker/RSIAlert.php:53-54 | As written, the loop gets through iff every crypto has a candle in every timeframe, and then collects what the corrected loop collects. |
| RsiAlert.AsWrittenDropsAlerts | app/Console/Commands/Tracker/RSIAlert.php:53-54 | A crypto whose only candle is an oversold 15m one: as written the command stops without a message, while the corrected loop sends its 15m message. |
| Schema.Filter | app/Console/Commands/Tracker/Emas.php:32-34 | `where(...)->get()` keeps exactly the rows satisfying the condition, and no more rows than the table has. |
| Schema.FilterAll | app/Console/Commands/Tracker/Cleanup.php:30-33 | When every row satisfies the condition, filtering keeps the whole table. |
| Schema.FilterFilter | app/Console/Commands/Tracker/Cleanup.php:30-33 | Two deletes in a row are one delete by both conditions. |
| Schema.FirstIndex | app/Console/Commands/Tracker/Fetch15MWebSocket.php:68 | `first()` finds the position of the first matching row, or none when no row matches. |
| Schema.UpdateOrCreate | app/Console/Commands/Tracker/BinanceWebSocket.php:147-183 | `updateOrCreate` fills the first matching row, or appends a created row, so the table grows by at most one. |
| Schema.UpsertKeepsKeysUnique | app/Console/Commands/Tracker/BinanceWebSocket.php:147-152 | A keyed upsert keeps the keys unique and leaves exactly one row with its key. |
| Schema.UpsertLaterWins | app/Console/Commands/Tracker/BinanceWebSocket.php:147-152 | Writing a key twice equals writing it once with the later values. |
| Schema.UpdateCrypto | app/Console/Commands/Tracker/Emas.php:57 | `$crypto->update(...)` changes only the crypto with that id and keeps the table's length. |
| Schema.FindCrypto | app/Console/Commands/Tracker/Emas.php:41 | The `crypto` relation finds null iff no crypto has the id, and otherwise a crypto with it. |
| Schema.LatestPerCrypto | app/Console/Commands/Tracker/CrossoversAlert.php:35-38 | The rows kept are those with the greatest timestamp among their crypto's selected rows. |
| Schema.LatestPerCryptoCovers | app/Console/Commands/Tracker/CrossoversAlert.php:35-38 | Every crypto with a selected row has one in the result. |
| Schema.StartOfDay | app/Models/Crypto.php:27 | The `'date'` cast reads back the start of the stored moment's day: no later than it and less than a day before. |
| Schema.FindUpdated | app/Console/Commands/Tracker/Emas.php:41-57 | After updating one crypto, looking up any id finds the same crypto as before, updated if it is that one. |
| Schema.RowsSince | app/Console/Commands/Tracker/Volumes.php:32-34 | `where('timestamp', '>=', $from)` keeps exactly the rows from that moment on. |
| Sorting.SortByPermutes | app/Console/Commands/AlertPerformance.php:81-83 | Sorting permutes its input. |
| Sorting.SortBySorted | app/Console/Commands/AlertPerformance.php:81-83 | For a total preorder the result is ordered. |
| Sorting.SortBySortedIdentity | app/Console/Commands/AlertPerformance.php:81-83 | Input that is already ordered comes back unchanged, so sorting twice is sorting once. |
| VolumeOrder.ByVolumeOrdered | app/Console/Commands/Tracker/VolumesAlert.php:36 | `orderByDesc('volume24')` is a permutation of the table by descending volume, NULL last. |
| VolumeOrder.ByVolumeKeepsUniqueIds | app/Console/Commands/Tracker/VolumesAlert.php:36 | Sorting keeps the ids unique. |
| Text.Explode | app/Console/Commands/Tracker/CrossoversAlert.php:165 | `explode` always returns at least one piece. |
| Text.Trim | app/Console/Commands/Tracker/CrossoversAlert.php:165 | `trim` leaves no trimmable character at either end, and leaves a string untouched whose ends are not trimmable. |
| Text.Upper | app/Console/Commands/Tracker/BinanceWebSocket.php:33 | `strtoupper` changes ASCII letters only and keeps the length. |
| Text.Lower | app/Console/Commands/Tracker/BinanceWebSocket.php:43 | `strtolower` changes ASCII letters only and keeps the length. |
| Text.UpperLowerRoundTrip | app/Console/Commands/Tracker/BinanceWebSocket.php:43 | Lower-casing a key without lower-case letters and upper-casing it again gives the key back. (Also line 91.) |
| Text.JoinExplode | app/Console/Commands/Tracker/CrossoversAlert.php:165 | Joining the pieces of `explode` with the same separator gives back the string. |
| Text.ExplodeJoin | app/Console/Commands/Tracker/BinanceWebSocket.php:42-45 | Pieces that cannot run into the separator come back out of `explode` after `implode`. |
| Text.ExplodePiecesFree | app/Console/Commands/Tracker/CrossoversAlert.php:165 | No piece of `explode` holds the separator. |
| Text.RemoveAllChar | app/Console/Commands/Tracker/BinanceWebSocket.php:33 | `str_replace` of a one-character pattern leaves no such character. |
| Text.RemoveAllSuffix | app/Console/Commands/Tracker/Fetch15MWebSocket.php:68 | Removing "USDT" from base + "USDT" gives the base back when the base cannot run into "USDT". |
| Text.SplitOnChar | app/Console/Commands/Tracker/BinanceWebSocket.php:42-45 | Joining pieces free of a one-character separator and exploding on it gives the pieces back. |
| Common.LooseLessAsymmetric | app/Console/Commands/Tracker/Emas.php:96-101 | PHP's loose `<` with null is a strict order: never true both ways. |
| Common.Round2 | app/Console/Commands/Tracker/BinanceWebSocket.php:160 | `round($x, 2)` is a whole number of hundredths and the nearest one to x: a non-negative half goes up and a negative half goes down, so halves round away from zero. It therefore lies within half a hundredth of x, and is non-negative for non-negative x. |
| Common.Round2Between | app/Console/Commands/Tracker/BinanceWebSocket.php:231 | A value between two hundredths rounds to a value between them. |
| Common.TakeLast | app/Services/Calculate.php:27 | `array_slice($s, -$n)` gives the last n elements, or all when there are fewer. |
| Common.MaxOf | app/Console/Commands/Tracker/BinanceWebSocket.php:131 | `max(array)` is at least every element and is one of them. |
| Common.MinOf | app/Console/Commands/Tracker/BinanceWebSocket.php:132 | `min(array)` is at most every element and is one of them. |
| Common.SumBounds | app/Services/Calculate.php:27-30 | A sum of n terms from [lo, hi] lies in [n·lo, n·hi]. |
| Volumes.Step | app/Console/Commands/Tracker/Volumes.php:37-62 | A non-spike (`last_volume ≤ 1.5·ema_7`) leaves everything unchanged. A cooling crypto is skipped. A spike is recorded and stamped with `now`. A spike without a crypto stops the pass. |
| Volumes.Handle | app/Console/Commands/Tracker/Volumes.php:27-87 | As intended (cooldown on the stored moment, timestamp parsed before formatting): the pass runs over the rows of the last 5 minutes, and one message, the header and a block per spike, is sent exactly when it did not fail and found a spike. |
| Volumes.HandleAsWritten | app/Console/Commands/Tracker/Volumes.php:27-87 | As written: the pass with the cooldown as written keeps its `last_volume_alert` stamps, and the command ends in an error exactly when the pass failed or found a spike (line 78), so no message is ever sent. |
| Volumes.AsWrittenSpikeIsNeverSent | app/Console/Commands/Tracker/Volumes.php:37-78 | One spiking candle of a never-announced crypto is recorded and its crypto stamped under either cooldown: the as-written command then throws without sending, the intended one sends it. |
| Volumes.Pass | app/Console/Commands/Tracker/Volumes.php:37-62 | The loop computes the fold `Run`, for either cooldown check. |
| Volumes.RunStaysFailed | app/Console/Commands/Tracker/Volumes.php:37-62 | Once the loop has stopped, later candles change nothing. |
| Volumes.StepKeepsStamped | app/Console/Commands/Tracker/Volumes.php:48-61 | Every announced crypto stays stamped with `now`. |
| Volumes.OneSpikePerCrypto | app/Console/Commands/Tracker/Volumes.php:48-61 | With the intended cooldown, a crypto is announced at most once per pass. |
| Volumes.CoolingAsWrittenMisses | app/Console/Commands/Tracker/Volumes.php:48 | At 12:45, an alert stamped a second ago reads back as midnight, so the cooldown as written does not hold the crypto back. |
| Volumes.AsWrittenAnnouncesTwice | app/Console/Commands/Tracker/Volumes.php:48-61 | As written, two spiking candles of one crypto at 12:43 and 12:44, both kept by the five-minute `RowsSince` query at 12:45, are both announced. |
| VolumesAlert.Ids | app/Console/Commands/Tracker/VolumesAlert.php:39-41 | `pluck('id')` gives the ids, in order. |
| VolumesAlert.Slice | app/Console/Commands/Tracker/VolumesAlert.php:39-41 | `slice($offset, $length)` holds the elements at positions offset .. offset+length, cut to the end. |
| VolumesAlert.MinPercent | app/Console/Commands/Tracker/VolumesAlert.php:180-195 | The threshold is 1, 2 or 3 for the three buckets and 4 otherwise. |
| VolumesAlert.InSliceIff | app/Console/Commands/Tracker/VolumesAlert.php:39-41 | With distinct ids, the id at a position is in a slice iff the position is. |
| VolumesAlert.MinPercentByPosition | app/Console/Commands/Tracker/VolumesAlert.php:36-42 | By volume rank the threshold is 1% for positions 0-19, 2% for 20-49, 3% for 50-119 and 4% beyond. (Also lines 180-195.) |
| VolumesAlert.RanksDisjoint | app/Console/Commands/Tracker/VolumesAlert.php:38-42 | No id is in two buckets. |
| VolumesAlert.Amplitude | app/Console/Commands/Tracker/VolumesAlert.php:172-178 | The amplitude is `(high−low)/low·100`, or 0 for a zero low. |
| VolumesAlert.AmplitudeSign | app/Console/Commands/Tracker/VolumesAlert.php:172-178 | For a positive low, the amplitude has the sign of the range. |
| VolumesAlert.MakeSpike | app/Console/Commands/Tracker/VolumesAlert.php:80-88 | A spike record holds volume·close and vma·close, and is green iff close > open. |
| VolumesAlert.Step | app/Console/Commands/Tracker/VolumesAlert.php:64-92 | A candle without a crypto stops the pass. A seen candle is skipped. A spike (> 2·vma_15 and amplitude ≥ threshold) is recorded and stamped with the bar time. |
| VolumesAlert.Latest15mOneTimestamp | app/Console/Commands/Tracker/VolumesAlert.php:45-57 | The join keeps only each crypto's latest 15m rows, all at one timestamp per crypto. |
| VolumesAlert.Handle | app/Console/Commands/Tracker/VolumesAlert.php:31-118 | The pass runs over each crypto's latest 15m rows with the intended duplicate check. Chunks are sent only when it did not fail and found a spike. |
| VolumesAlert.Pass | app/Console/Commands/Tracker/VolumesAlert.php:64-92 | The loop computes the fold `Run`. |
| VolumesAlert.RunStaysFailed | app/Console/Commands/Tracker/VolumesAlert.php:64-92 | Once the loop has stopped, later candles change nothing. |
| VolumesAlert.StepKeepsQuiet | app/Console/Commands/Tracker/VolumesAlert.php:68-91 | A step keeps every other candle of the selection quiet (seen or not a spike). |
| VolumesAlert.RunMakesQuiet | app/Console/Commands/Tracker/VolumesAlert.php:68-91 | After a pass that did not fail, every candle of it is quiet. |
| VolumesAlert.QuietPass | app/Console/Commands/Tracker/VolumesAlert.php:64-92 | A pass over quiet candles changes nothing and announces nothing. |
| VolumesAlert.RerunIsQuiet | app/Console/Commands/Tracker/VolumesAlert.php:68-91 | Running again on the same latest candles announces nothing and changes nothing. |
| VolumesAlert.SeenAsWrittenMissesSameCandle | app/Console/Commands/Tracker/VolumesAlert.php:68 | As written, a 12:45 alert reads back as midnight, so the same candle is not recognised as seen. |
| VolumesAlert.AsWrittenRerunRepeats | app/Console/Commands/Tracker/VolumesAlert.php:68-91 | As written, a second run on the same 12:45 candle announces the same spike again. |
| Cleanup.Retention | app/Console/Commands/Tracker/Cleanup.php:30-33 | Only 1m, 15m, 1h and 4h have a retention: 70 minutes, 15 hours, 55 hours and 220 hours. |
| Cleanup.DeletesAreRetention | app/Console/Commands/Tracker/Cleanup.php:30-33 | A row survives the four deletes iff it is retained. |
| Cleanup.Handle | app/Console/Commands/Tracker/Cleanup.php:28-34 | The four deletes in turn leave exactly the rows that are not expired, in order. |
| Cleanup.KeptIff | app/Console/Commands/Tracker/Cleanup.php:30-33 | A row is kept iff it is not older than its timeframe's cutoff. |
| Cleanup.CutoffIsKept | app/Console/Commands/Tracker/Cleanup.php:30-33 | The comparison is strict: a row exactly at the cutoff is kept, and one a second older is deleted. |
| Cleanup.OtherTimeframesKept | app/Console/Commands/Tracker/Cleanup.php:30-33 | Rows of other timeframes, and rows with no timeframe, are all kept, in order. |
| Cleanup.Idempotent | app/Console/Commands/Tracker/Cleanup.php:28-34 | A second cleanup at the same time deletes nothing more. |
| Cleanup.LaterDeletesMore | app/Console/Commands/Tracker/Cleanup.php:28-34 | A later cleanup keeps no row that an earlier one deleted. |
| AlertPerformance.ClosedAlerts | app/Console/Commands/AlertPerformance.php:29-32 | The relation holds as many alerts as the crypto has closed ones. |
| AlertPerformance.ClosedAlertsFacts | app/Console/Commands/AlertPerformance.php:29-32 | The relation holds the crypto's closed alerts, each as often as in the table, newest first. |
| AlertPerformance.Data | app/Console/Commands/AlertPerformance.php:41-73 | There is at most one row per crypto. |
| AlertPerformance.PercentBetween | app/Console/Commands/AlertPerformance.php:58-62 | A share of the total is a percentage between 0 and 100. |
| AlertPerformance.HitsBound | app/Console/Commands/AlertPerformance.php:45-48 | No alert counts toward two levels, so the four counts add up to at most the signals. |
| AlertPerformance.OtherResultCountsOnlyAsSignal | app/Console/Commands/AlertPerformance.php:42-50 | An alert with result -11, -2 or none adds a signal, counts toward no level, so it adds to the winning rate's denominator and not to its numerator. |
| AlertPerformance.RowCounts | app/Console/Commands/AlertPerformance.php:42-64 | A crypto's counts fit in its signals, and every percentage and the winning rate lie in [0, 100]. |
| AlertPerformance.LastAlertIsNewest | app/Console/Commands/AlertPerformance.php:31-53 | "Last Alert" is the newest `created_at` among the crypto's closed alerts. |
| AlertPerformance.DataCovers | app/Console/Commands/AlertPerformance.php:41-73 | A row appears exactly for each crypto with a closed alert, and every row is such a crypto's. |
| AlertPerformance.DataFits | app/Console/Commands/AlertPerformance.php:41-73 | Every row's counts fit in its signals, and it has signals. |
| AlertPerformance.TotalFits | app/Console/Commands/AlertPerformance.php:67-71 | The sums of rows that fit also fit. |
| AlertPerformance.ReportShape | app/Console/Commands/AlertPerformance.php:75-97 | There is no report iff there are no rows. Otherwise the report is the rows permuted, ordered by last alert oldest first, then TOTAL. |
| AlertPerformance.TotalRates | app/Console/Commands/AlertPerformance.php:86-97 | The TOTAL row has signals, and its winning rate and stop-loss percentage lie in [0, 100]. |
| AlertPerformance.Pass | app/Console/Commands/AlertPerformance.php:34-73 | The loop builds exactly the rows, and its accumulators are the TOTAL row of those rows. |
| AlertPerformance.AddCrypto | app/Console/Commands/AlertPerformance.php:42-72 | One crypto appends its row only when it has closed alerts, and the five running counts stay the column sums of the rows. |
| AlertPerformance.Handle | app/Console/Commands/AlertPerformance.php:27-104 | The result is nothing for no rows, and otherwise the sorted rows and the TOTAL row. |
| AlertPerformance.TotalAppend | app/Console/Commands/AlertPerformance.php:67-71 | Adding a row to the totals adds its counts. |

## Left out

- The WebSocket connections, the ReactPHP loop, the periodic timer, buffer draining and the reconnect are left out. They are I/O and concurrency. Each `processKlineData` is a function of the event and the table, and `processBufferedData` of the events in order.
- Telegram posts are left out. They are I/O. The model computes the message or chunks each command would post; a failed post changes nothing in the source.
- The ccxt calls (`fetch_markets`, `fetch_ohlcv`, `fetch_tickers`) are parameters. So is the static ticker cache of UpdateAlertResults, as a symbol-to-price map. A failed ticker fetch is the empty map, in which every alert is skipped.
- `Calculate::ADX` is not part of this model. It is a function parameter returning (adx, +di, -di).
- `Cache::remember` and its TTL are left out. The window is always recomputed, which is the cache-miss behaviour. `Binance.CacheTime` states the TTL itself.
- Eloquent queries are in-memory functions over the tables: the window, the latest row per crypto and the `where` filters. SQL NULL ordering follows the defaults: NULL first ascending, NULL last descending.
- The clock is one `now` per pass. The wall clock advancing during a pass, time zones (Africa/Johannesburg) and date string formats are left out.
- The text of each message is a `format` parameter, so `sprintf`, `number_format` and `strtoupper` of the trend are left out. Message structure (header, blocks, blank-line separators, chunks) is modelled. `round($x, 2)` on stored values is modelled as `Common.Round2`.
- Floating point is left out: prices and volumes are exact reals. The `volume_data` price, volume and indicator columns are `decimal(20,8)` (database/migrations/2024_11_17_084935_create_volume_data_table.php:17-28), so the database rounds every stored value to 8 decimals and the next pass reads it back rounded; the model stores and reads the unrounded reals.
- The progress bars, `info`/`warn`/`error` console output and `Log` calls are left out. They are output only.
- `Artisan::queue('tracker:fetch-volumes', …)` is left out; `FetchVolumesWebSocket.Handle` returns the ids it would queue. The `cryptos` argument that queue passes is not read by `tracker:fetch-volumes`, so the model does not take it either.
- `FetchVolumesWebSocket.DecimalString`: ids in PHP's loose comparison are matched only through their canonical decimal spelling. That is all the `whereNotIn` finding needs.
- FetchCryptos.Handle: a database exception in the middle of the upsert loop is not modelled. Only a failing `fetch_markets` is, and it leaves the table unchanged.
- Emas.Handle: line 77 reads `$crossover['ema_50']`, which the crossover record of lines 46-54 never gets. Laravel turns that warning into an exception after the `last_trend` updates, so the message would not be sent. The model leaves message text to the `format` parameter and does not capture this.
- UpdateAlertResults.StopCode: the `result` column is created `unsignedInteger`, yet the stop codes are -1, -2 and -11. Whether the database rejects, clamps or stores them depends on its strict mode, which the model does not capture; it stores the code as computed.
- app/Livewire/Cryptos.php, app/Http/Controllers/MainController.php, routes/console.php and the seeder are left out. They are the UI, debug code, the schedule and a schema edit. The models and migrations are not modelled as code; the next four lines say how the datatypes' fields relate to them.
- The schema (`schema.dfy`) follows the columns the commands read and write and `_ide_helper_models.php`, not the `$fillable` lists of app/Models/VolumeData.php and app/Models/Crypto.php. VolumeData.php:12-31 lists neither `timeframe`, `price_change`, `meta` nor the `vma_*` columns, so Eloquent's mass-assignment guard would drop them from `updateOrCreate` and `create`. The model writes every column a command passes; mass-assignment guarding is not modelled.
- `meta` is modelled as a structured value with optional numbers. This assumes the cast to a collection that `_ide_helper_models.php:141` records; VolumeData.php declares no cast. Only `timestamp` and `last_volume_alert` follow the casts the model files do declare (none, and `'date'` at Crypto.php:27), which is what the Volumes.php:78 and VolumesAlert.php:68 findings rest on.
- The relations `alerts` and `latest15m`/`latest1h`/`latest4h`/`latest1m` that the commands use are not declared in app/Models/Crypto.php. The model writes them as queries over the tables (`AlertPerformance.ClosedAlerts`, `RsiAlert.LatestIn`), with the meaning their names give.
- Schema.VolumeData: `open`, `high`, `low`, `close`, `last_volume` and `latest_price` are nullable in database/migrations/2024_11_17_084935_create_volume_data_table.php:17-22, but the model makes them plain reals. Every modelled writer sets them, so no modelled behaviour depends on a null there.

## Findings

| source | as written | input that shows it | evidently intended | confidence | as-written member | corrected member |
|---|---|---|---|---|---|---|
| app/Console/Commands/Tracker/VolumesAlert.php:68 | `last_volume_alert` is cast as `'date'` (app/Models/Crypto.php:27), so it reads back as midnight, and `equalTo($data->timestamp)` never matches a bar that is not at midnight | a spike on the 12:45 candle, then a second run on that candle | the candle already announced is skipped, so a rerun announces nothing | medium, not executed | VolumesAlert.AsWrittenRerunRepeats | VolumesAlert.RerunIsQuiet |
| app/Console/Commands/Tracker/Volumes.php:48 | the 10-minute cooldown compares the midnight of the stored alert time with `now − 10 min` | two spiking candles of one crypto at 12:43 and 12:44, both kept by the five-minute query at 12:45 | a crypto announced in the last 10 minutes is skipped, so at most one spike per crypto per pass | medium, not executed | Volumes.AsWrittenAnnouncesTwice | Volumes.OneSpikePerCrypto |
| app/Console/Commands/Tracker/Volumes.php:78 | `$spike['timestamp']->toDateTimeString()` is called on the `timestamp` column, which app/Models/VolumeData.php does not cast, so on a string; the call throws after the loop has stamped `last_volume_alert` | one spiking candle in the last five minutes of a crypto never announced | the timestamp is parsed (as `Carbon::parse` does in VolumesAlert.php:109) and the message is sent | medium, not executed | Volumes.AsWrittenSpikeIsNeverSent | Volumes.Handle |
| app/Console/Commands/Tracker/BinanceWebSocket.php:131-132 | `$last->meta['recent_high']` and `['recent_low']` are read without `??`, so with no previous candle (or one without those keys) the read warns and the command stops | an empty candle table and a first kline for BTCUSDT | the first bar is stored, with the missing previous values left out of `array_filter` | medium, not executed | Binance.AsWrittenFirstBarStops | Binance.ProcessWrites |
| app/Console/Commands/Tracker/FetchVolumesWebSocket.php:48 | `whereNotIn('symbol', $insufficientDataCryptos)` compares symbols with crypto ids, so no crypto is excluded | a top crypto with no stored rows: queued for a backfill and still subscribed | cryptos queued for a backfill are not subscribed | high, not executed | FetchVolumesWebSocket.AsWrittenSubscribesStarved | FetchVolumesWebSocket.SubscribedIff |
| app/Console/Commands/Tracker/RSIAlert.php:53-54 | `$data->meta` is read on the relation's null when a crypto has no candle in a timeframe, which stops the command before any message | a table whose only candle is an oversold 15m candle | a timeframe without a candle is skipped, and the 15m message is sent | medium, not executed | RsiAlert.AsWrittenDropsAlerts | RsiAlert.MessagePerTimeframe |
