# Binance market dashboard — a verified model of its core

The dashboard is a React application over the Binance public API with these parts:

- a live market list fed by the all-market mini-ticker stream;
- a background scanner that raises volume-spike, price-surge and price-dump alerts into a bounded, de-duplicated log;
- an order book and a trade feed for the active symbol;
- a funding-rate arbitrage page;
- a simulated cross-exchange price comparison;
- a fear and greed index page.

This project models the parts of that application that decide something. It states and proves what each of them promises.

| module | file | models |
|---|---|---|
| `Types` | types.dfy | the records of `types.ts`, plus the base-asset stripping `symbol.replace('USDT', '')` |
| `Anomaly` | anomaly.dfy | `checkAnomaly`: volume spike above 1.3x, price move strictly beyond ±10%, volume first |
| `Klines` | klines.dfy | the `fetchKlines` request (spot or futures base, upper-cased symbol, default limit 100) and the row decoding, empty unless the payload is an array |
| `TickerTable` | tickers.dfy | the ticker frame filter, the insertion-ordered merge, the top-20 selection for the scanner and `displayedTickers`, as a class `TickerFeed` |
| `Alerts` | alerts.dfy | the alert log: a 60-second duplicate window, newest first, capped at 50, with test and clear. It is a class `AlertStore` with a ghost sound counter, plus the scanner loop `ScanMarket` |
| `MarketData` | marketdata.dfy | the active-symbol stream: the depth snapshot replaced wholesale, the 50 newest trades, and the reset on a context switch. It is a class `SymbolFeed` |
| `FundingArbitrage` | arbitrage.dfy | `getArbitrageData`: the spot map (last record wins), the USDT / spot-present filter, spread and APY |
| `CrossChain` | crosschain.dfy | `getCrossChainData`: the four paths, the first strictly greatest spread above 0, the 0.1% threshold and the sort by spread |
| `ArbitrageView` | arbitrage_view.dfy | the positive and negative funding tables (top 50 each) and the settlement countdown |
| `AlertPanel` | alert_panel.dfy | type label and colour, the message detail, and the header |
| `OrderBookView` | order_book.dfy | the 15 displayed levels per side (asks reversed), the bar scale and the bar width |
| `FearGreedView` | fear_greed.dfy | the five bands and their colours, the chronological chart series, and the selected readings |
| `Seqs`, `Sorting`, `Strings`, `Wrappers` | seqs.dfy, sorting.dfy, strings.dfy, wrappers.dfy | shared building blocks |

The shared building blocks are:

- `Seqs`: JavaScript's `slice`, `filter`, `reverse`, `find`, and a prepend-then-truncate.
- `Sorting`: a stable descending sort, which is what `Array.prototype.sort` with a numeric comparator is. It is proved sorted, a permutation, stable, and to select the top `n`.
- `Strings`: `endsWith`, `includes`, `replace` of the first occurrence, the second piece of a `split`, ASCII `toUpperCase`, and decimal `String(n)`.
- `Wrappers`: `Option`.

How the model represents what it cannot compute:

- Numbers are `real`, except timestamps, which are `int`.
- Network results are parameters of type `Json`: an array (`JArray`), a falsy value (`JFalsy`: the `null` that `safeFetch` yields for a failed request, or `0`, `false`, `""`), or any other value (`JOther`). `getArbitrageData` and `getCrossChainData` test only `!data`. A truthy payload that is not an array reaches `forEach` or `find`, so the call rejects. The model returns `None` for that.
- The current time is a parameter `now`. The scanner takes a sequence `clock` with one reading per symbol examined.
- The random choices of the test alert and of the cross-exchange simulation are parameters, with the ranges the random draws can produce.
- Number formatting (`toFixed`) is a function parameter.
- The alert sound is a ghost counter `soundCount`.

Behaviour the model reproduces:

- The ticker table is cleared only when the market view is (re)entered. Leaving the view keeps it, because App.tsx:94-100 returns before the reset.
- `displayedTickers` without a search term sorts the state array itself in place, because `result` aliases `tickers`. `TickerFeed.Displayed` therefore modifies the table in that case and leaves it alone when a search term is given.
- The order-book scale `Math.max(...) || 1` falls back to 1 only when the maximum is 0. With no rows at all, `Math.max()` is minus infinity, which is truthy. No row uses it, so the model has no scale (`None`) in that case.
- The cross-exchange spread of a zero price is NaN. NaN is modelled as `None`, and it never beats the running maximum.
- The scanner awaits a candle request for every symbol, so the clock moves between symbols. The model gives each symbol its own reading `clock[k]`. Within one symbol, that one reading serves the alert's id, its timestamp and the duplicate check (see "Left out").

## Model

| member | source | states |
|---|---|---|
| Types.BaseAssetOfPair | components/AlertPanel.tsx:71 | removing the first `USDT` from `<base>USDT` gives back `<base>` when the base has no `USDT` in it, and a symbol without `USDT` is shown unchanged (used for the alert symbol and the arbitrage token, ArbitrageDashboard.tsx:59) |
| Anomaly.CheckAnomaly | services/binanceService.ts:56-77 | a missing candle gives no anomaly; VOLUME is reported iff the volume rule holds, with diff the percentage increase of volume (diff × previous volume = (current − previous volume) × 100); SURGE and DUMP carry the close-to-close percentage change (diff × previous close = (current − previous close) × 100), above +10 for a surge and below −10 for a dump |
| Anomaly.CheckAnomalyByRatios | services/binanceService.ts:59-76 | on the candles themselves: VOLUME iff current volume > 1.3 × previous (diff then > 30); SURGE iff no spike and close > 1.1 × previous close; DUMP iff no spike and close < 0.9 × previous; nothing iff neither, so exactly ±10% is no anomaly |
| Anomaly.VolumeTakesPrecedence | services/binanceService.ts:60-63 | a 40% volume rise with a simultaneous 15% price rise is reported as VOLUME with diff 40 |
| Anomaly.ThresholdsAreStrict | services/binanceService.ts:60-75 | exactly 1.3× volume and exactly +10% give no anomaly |
| Klines.Request | services/binanceService.ts:19-26 | the spot base is used iff the market is spot; the symbol is `ToUpper` of the argument, of the same length and with no lower-case letter left; interval and limit are passed through, the limit defaulting to 100 |
| Klines.QueryDeterminesRequest | services/binanceService.ts:26 | the query string `/klines?symbol=…&interval=…&limit=…` determines the request: for symbols without `&`, equal query strings have equal symbol, interval and limit |
| Klines.DecodeKlines | services/binanceService.ts:28-52 | anything but an array decodes to the empty list; an array gives one candle per row |
| Klines.DecodeEncode | services/binanceService.ts:45-52 | rows that start with a candle's six fields, followed by any further fields, decode to exactly those candles, in order: positions 0..5 are time, open, high, low, close, volume, and later positions are ignored |
| TickerTable.ChangePercent | App.tsx:115-117 | 0 when open is 0, otherwise (close − open)/open × 100; for a positive open its sign is the sign of close − open |
| TickerTable.RelevantIsUsdtOnly | App.tsx:111-125 | every ticker kept ends in `USDT`, and every USDT record of the frame is kept |
| TickerTable.RelevantInFrameOrder | App.tsx:111-125 | the kept tickers of two consecutive stretches of a frame are those of the first stretch followed by those of the second: frame order is kept |
| TickerTable.LookupAfterMerge | App.tsx:127-131 | after a merge a symbol in the frame maps to the frame's last ticker for it; every other symbol keeps its entry or stays absent |
| TickerTable.SymbolsAfterMerge | App.tsx:127-131 | the merged table's symbols are the old symbols in their old positions followed by the frame's new symbols in first-appearance order, so nothing is dropped or moved |
| TickerTable.FreshIsNew | App.tsx:129-130 | the appended symbols are new, pairwise distinct, and include every unknown symbol of the frame |
| TickerTable.MergeKeepsDistinct | App.tsx:127-131 | a merge keeps symbols unique in the table |
| TickerTable.TopByVolumeSelects | App.tsx:216-219 | the scan list has min(n, 20) tickers in non-increasing volume, is a sub-multiset of the table, no ticker left out has a higher volume than one picked, and tickers of equal volume keep their table order |
| TickerTable.TickerFeed.constructor | App.tsx:78 | the ticker table starts empty |
| TickerTable.TickerFeed.SwitchContext | App.tsx:92-103 | entering the market view empties the table; otherwise it is unchanged |
| TickerTable.TickerFeed.Set | App.tsx:129 | setting one ticker replaces the row with its symbol or appends it when the symbol is new, so the length grows by one exactly for a new symbol; symbols stay unique |
| TickerTable.TickerFeed.Ingest | App.tsx:109-131 | a non-array frame changes nothing; an array frame's USDT tickers are merged in order, symbols staying unique |
| TickerTable.TickerFeed.Displayed | App.tsx:282-294 | with a search term: the upper-cased-term matches, sorted, all shown, table untouched; without: the table sorted in place and its first 50 shown |
| Sorting.SortDesc | App.tsx:287-292 | the result is sorted by the key, descending, and is a permutation of the input |
| Sorting.SortDescStable | App.tsx:216-217 | elements with equal keys keep their relative order |
| Sorting.TopNSelects | App.tsx:216-218 | the first n of the sorted copy: length min(length of s, n), sorted, together with the rest a permutation of the input, every picked key ≥ every unpicked key, ties in input order |
| Sorting.TopOfFilteredComplete | components/ArbitrageDashboard.tsx:31-32 | when at most n elements match, the selection holds every copy of every matching element and nothing else |
| Sorting.TopOfFiltered | components/ArbitrageDashboard.tsx:31-32 | filter, sort, slice: only matching elements, sorted, at most n, taken from the input, all matches when there are at most n, and no unpicked match outranks a picked one |
| Seqs.PrependCapped | App.tsx:251 | `[x, ...s].slice(0, cap)`: x first, then the first cap − 1 of s, length min(length of s + 1, cap) |
| Seqs.PrependEachKeepsNewest | App.tsx:201 | prepending a stream of items one by one under a cap keeps the newest cap items, newest first |
| Seqs.FilterCounts | App.tsx:111-112 | `filter` keeps every copy of an element that passes and no copy of one that fails |
| Seqs.FilterAppend | App.tsx:111-112 | `filter` of a concatenation is the concatenation of the filters, so kept elements stay in input order |
| Seqs.FindFirst | App.tsx:247 | `find`: the index of the first element satisfying the predicate, or none when no element does |
| Strings.ToUpperNormalises | services/binanceService.ts:26 | an upper-cased string has no lower-case ASCII letter, and upper-casing it again changes nothing |
| Strings.NatToStringRoundTrip | App.tsx:234 | the decimal digits of a number read back as that number |
| Alerts.OfferedShape | App.tsx:245-251 | a duplicate leaves the log unchanged; otherwise the alert is at index 0, followed by the old log's first 49, length ≤ 50 |
| Alerts.OfferKeepsSpaced | App.tsx:245-251 | offering alerts stamped with the current time keeps every two entries of the same symbol and type at least 60 s apart |
| Alerts.RepeatWithinWindow | App.tsx:247 | after an alert is accepted at t, the same symbol and type is rejected at t + d iff d < 60000 (the window is strict) |
| Alerts.AcceptAllKeepsNewest | App.tsx:279 | repeated test alerts leave the newest 50 in the log, newest first |
| Alerts.AlertStore.constructor | App.tsx:80 | the log starts empty and no sound has played |
| Alerts.AlertStore.Offer | App.tsx:245-252 | accepted iff no entry has the same symbol and type with timestamp > now − 60000; the log becomes the offered log; the sound plays exactly once per acceptance |
| Alerts.AlertStore.TestAlert | App.tsx:262-280 | a test alert is prepended and the log truncated to 50 without any duplicate check, and the sound always plays |
| Alerts.AlertStore.Clear | App.tsx:449 | the log becomes empty; no sound |
| Alerts.Candidate | App.tsx:224-243 | no alert from fewer than two candles; otherwise an alert iff `checkAnomaly` of the last candle against the one before reports one, with the type mapped VOLUME → VOLUME_SPIKE, SURGE → PRICE_SURGE, DUMP → PRICE_DUMP, the message built from that anomaly, and the symbol and time |
| Alerts.AlertTypeByRatios | App.tsx:231-236 | for two candles with positive previous volume and close: VOLUME_SPIKE iff volume > 1.3 × previous, PRICE_SURGE iff no spike and close > 1.1 × previous, PRICE_DUMP iff no spike and close < 0.9 × previous, no alert iff neither (services/binanceService.ts:59-76) |
| Alerts.CandidateRule | App.tsx:224-243 | the scanner's rule on the fetched candles: with at least two, the last against the one before, a spike iff volume grew by more than 30%, else a surge or dump iff the close moved by more than 10%, else nothing |
| Alerts.ScanBounded | App.tsx:223-255 | a scan keeps the log within 50 and accepts at most one alert per symbol examined, whatever the clock readings |
| Alerts.ScanMarket | App.tsx:215-256 | the scanner offers, in order, the candidates of the top-20-by-volume symbols, each at its own clock reading; the log and the sound count become those of that sequence of offers |
| Alerts.ScanSymbols | App.tsx:223-255 | the loop over the chosen symbols: log and sound count become those of offering each symbol's candidate, at that symbol's clock reading, in order |
| Alerts.ScanSymbol | App.tsx:224-254 | one symbol: with at least two candles and an anomaly between the last two, the alert is offered and the sound count rises exactly when it is accepted; otherwise nothing changes |
| MarketData.FirstPresent | App.tsx:189-190 | the first of the two fields that is present (`bids` before `b`, `asks` before `a`), else empty |
| MarketData.BookFromReset | App.tsx:171-191 | after a reset the order book is the last depth snapshot received, or empty if none |
| MarketData.TradesFromReset | App.tsx:172-201 | after a reset the trade buffer is the 50 newest trades received, newest first |
| MarketData.SymbolFeed.constructor | App.tsx:84-85 | an empty book and no trades |
| MarketData.SymbolFeed.SwitchContext | App.tsx:161-172 | in the market view a symbol or market change empties book and trades; otherwise they are unchanged |
| MarketData.SymbolFeed.OnMessage | App.tsx:181-203 | a message without data changes nothing; a depth message replaces the book; a trade message prepends the trade to at most 50 |
| FundingArbitrage.SpotPriceOf | services/binanceService.ts:87-91 | the spot map: absent iff no record has the symbol; present values come from a record of that symbol, the last one for duplicates |
| FundingArbitrage.ArbitrageRow | services/binanceService.ts:102-120 | spread × spot = (mark − spot) × 100; APY = rate × 3 × 365 × 100; the other fields are copied |
| FundingArbitrage.ArbitrageRows | services/binanceService.ts:93-123 | every row is a USDT pair with a non-zero spot price from the map, built from a premium record; every qualifying premium record yields its row |
| FundingArbitrage.ArbitrageRowsAppend | services/binanceService.ts:95-121 | rows come out in premium order: the rows of a concatenation are the concatenated rows |
| FundingArbitrage.GetArbitrageData | services/binanceService.ts:79-124 | empty if either payload is falsy (`null` from a failed request, `0`, `false`, `""`); rejected (`None`) iff neither is falsy and one is not an array; with two arrays exactly the rows of the premium list joined with the spot map |
| CrossChain.Percent | services/binanceService.ts:164-167 | a spread is defined iff its base price is non-zero, and then spread × base = difference × 100 |
| CrossChain.Paths | services/binanceService.ts:163-168 | four paths with pairwise different names, none of them "None" |
| CrossChain.PathsAreTransfers | services/binanceService.ts:163-168 | with positive prices, Binance → Aster buys at the spot price and sells at Aster's, and likewise for the other three paths: each profit is sell − buy, each spread is defined and equals profit × 100 / buy price, a spread is positive iff selling beats buying, and opposite directions have opposite profits |
| CrossChain.PathIsTransfer | services/binanceService.ts:164-167 | a path priced as a percentage of its buying price is a transfer in that sense |
| CrossChain.BestFrom | services/binanceService.ts:170-176 | the running maximum never decreases |
| CrossChain.BestFromIsFirstMaximum | services/binanceService.ts:158-176 | no path beats the chosen spread; with no path above the start the choice stays "None"/0, otherwise it is a path with the greatest spread, and every earlier path has a strictly smaller spread or none, so it is the first such path |
| CrossChain.ChooseRoute | services/binanceService.ts:158-176 | the loop with its running maximum computes the chosen route |
| CrossChain.FirstPrice | services/binanceService.ts:146-147 | `find`: absent iff no record has the symbol, else the price of a record of that symbol |
| CrossChain.Entry | services/binanceService.ts:178-188 | a kept row has the pair's symbol and a spread above 0.1 |
| CrossChain.EntryIsBestPath | services/binanceService.ts:158-188 | a kept row names one of the four paths, carries that path's spread and profit, no path has a wider spread, and every earlier path's spread is strictly narrower, so it is the first widest path |
| CrossChain.Rows | services/binanceService.ts:145-189 | no more rows than target pairs examined |
| CrossChain.RowsDistinct | services/binanceService.ts:145-189 | every row belongs to one of the target pairs examined, and no two rows share a symbol: one row per pair at most |
| CrossChain.TableDistinct | services/binanceService.ts:145-191 | sorting keeps the rows one per pair: no two table rows share a symbol |
| CrossChain.RowsSound | services/binanceService.ts:145-189 | every row is above 0.1, for a target pair found in the spot list |
| CrossChain.CrossChainTableProperties | services/binanceService.ts:142-191 | the table has at most 10 rows, is sorted by spread descending, is a permutation of the per-target rows, each row is above 0.1 for a target found in the spot list, and no two rows share a symbol |
| CrossChain.GetCrossChainData | services/binanceService.ts:138-192 | empty if the payload is falsy (`null` from a failed request, `0`, `false`, `""`); rejected (`None`) for a truthy non-array payload; for an array the sorted table |
| ArbitrageView.PositiveRatesSelect | components/ArbitrageDashboard.tsx:31 | at most 50 entries, each with rate > 0, by rate descending, taken from the data, all of them when there are at most 50, and no positive entry left out has a higher rate than one shown |
| ArbitrageView.NegativeRatesSelect | components/ArbitrageDashboard.tsx:32 | the same for rate < 0, most negative first |
| ArbitrageView.PositiveRatesComplete | components/ArbitrageDashboard.tsx:31 | with at most 50 positive entries, the list holds each of them exactly as often as the data does, and no other entry |
| ArbitrageView.NegativeRatesComplete | components/ArbitrageDashboard.tsx:32 | the same for the negative entries |
| ArbitrageView.TablesDisjoint | components/ArbitrageDashboard.tsx:31-32 | no entry is in both tables, and a zero-rate entry is in neither |
| ArbitrageView.CountdownOf | components/ArbitrageDashboard.tsx:72-79 | settled iff next − now < 0; otherwise 0 ≤ minutes < 60, hours ≥ 0, and hours·3600000 + minutes·60000 ≤ diff < hours·3600000 + (minutes + 1)·60000 |
| ArbitrageView.CountdownTextSettled | components/ArbitrageDashboard.tsx:73-78 | the text is "00:00:00" iff the time is past; at exactly the settlement time it is "0h 0m" |
| AlertPanel.LabelAndColourAgree | components/AlertPanel.tsx:75-82 | label (VOL/PUMP/DUMP) and colour (yellow/green/red) each distinguish the three types, so they agree |
| AlertPanel.DetailWithoutParen | components/AlertPanel.tsx:87 | a message without `(` is shown whole |
| AlertPanel.DetailRoundTrip | components/AlertPanel.tsx:87 | `<caption> (<detail>)` with no parenthesis in caption or detail and a non-empty detail shows exactly `<detail>` |
| AlertPanel.ScannerAlertDetail | components/AlertPanel.tsx:87 | a scanner message shows its formatted percentage followed by `%` (App.tsx:239-241) |
| AlertPanel.TestAlertDetail | components/AlertPanel.tsx:87 | a test alert shows "45.2%" for a volume spike, "12.5%" otherwise (App.tsx:269-275) |
| AlertPanel.HeaderTracksLog | components/AlertPanel.tsx:22-44 | the count and the clear button appear once an alert is accepted (count between 1 and 50) and vanish after clearing; the test button depends only on the handler |
| OrderBookView.DisplayAsks | components/OrderBook.tsx:33 | min(15, number of asks) asks, the first of them reversed, so the best ask is drawn last |
| OrderBookView.DisplayBids | components/OrderBook.tsx:34 | the first min(15, number of bids) bids in book order |
| OrderBookView.BestLevelsMeetAtSpread | components/OrderBook.tsx:33-34 | the best ask is the bottom ask row and the best bid the top bid row |
| OrderBookView.DisplayedRowsComeFromBook | components/OrderBook.tsx:33-34 | each side shows at most 15 rows, exactly the first levels of the book |
| OrderBookView.MaxOf | components/OrderBook.tsx:36-38 | the maximum is an upper bound that is one of the amounts |
| OrderBookView.Scale | components/OrderBook.tsx:36-39 | no scale iff both sides are empty; the scale is non-zero and bounds every displayed amount; it is a displayed amount, or it is 1 because the largest displayed amount is 0 |
| OrderBookView.BarWidthBounds | components/OrderBook.tsx:13 | a bar is at most 100% wide, not negative for a non-negative amount under a positive scale, and full when the amount equals the scale |
| OrderBookView.WidestBarIsLargestLevel | components/OrderBook.tsx:13-39 | for a book with non-negative amounts the scale is positive, no bar is cut off, each bar is amount / scale × 100 within 0..100%; with some volume a largest level equals the scale and fills its row; with none the scale is 1 and every bar is empty |
| FearGreedView.BandBoundaries | components/FearGreedIndex.tsx:55-59 | extreme fear iff < 25, fear iff 25..49, neutral iff exactly 50, greed iff 51..74, extreme greed iff ≥ 75 |
| FearGreedView.BandMonotone | components/FearGreedIndex.tsx:55-59 | a higher value never falls into a more fearful band |
| FearGreedView.ColoursDistinct | components/FearGreedIndex.tsx:55-59 | the five band colours are pairwise different |
| FearGreedView.Series | components/FearGreedIndex.tsx:62-65 | the chart has one point per reading, in reverse order |
| FearGreedView.SeriesIsChronological | components/FearGreedIndex.tsx:62-65 | readings that arrive newest first are charted oldest first |
| FearGreedView.ViewOf | components/FearGreedIndex.tsx:35-55 | empty data shows the loading view while loading and the retry view otherwise; else the newest reading and its band |
| FearGreedView.LoadedViewSelects | components/FearGreedIndex.tsx:80-132 | yesterday is data[1] and last week data[7], each only when present; the series ends with the newest reading; the next update is the seconds rounded down to minutes |

## Left out

- Network I/O (`safeFetch`, `fetch`, the WebSockets and `getFearGreedIndex`) is left out. Responses are parameters, and failure is `JFalsy` or empty data.
- Timers, effect clean-up, the `isMounted` guard and the interleaving of the asynchronous scanner with other state updates are left out. Each scan cycle is one sequential pass. The scan effect depends on `tickers` (App.tsx:258-260), and the all-market ticker stream (App.tsx:106) replaces `tickers` about once a second, so the 30-second timer is usually cleared and re-armed before it fires: the live app may rarely reach the cycle the model describes.
- The Web Audio sound is left out. Only the number of times it plays is modelled, as a ghost counter.
- Floating point is left out: `parseFloat`, `parseInt`, IEEE rounding, and the infinities and NaNs of a division by zero. Numbers are exact reals and parsed integers.
- Anomaly.CheckAnomaly: requires `Evaluable`, a non-zero previous volume, or previous close when it is reached. The source divides by zero there and gets Infinity or NaN.
- Klines.DecodeKlines: requires every row to have at least six fields. A shorter row would decode to NaN fields in the source.
- `toFixed` formatting is left out. It is a function parameter of the alert message, and its output is required to contain no parentheses where the detail round trip is stated.
- `Date.now()` is left out; it is a parameter, and for the scanner a sequence of readings, one per symbol.
- Alerts.ScanSymbol: one clock reading serves the alert's id, its timestamp and the duplicate check. The source reads the clock three times (App.tsx:234, 242 and 247), the last inside the state updater. Those readings differ only by the time between them, which the model does not measure.
- OrderBookView.WidestBarIsLargestLevel: requires the displayed amounts to be non-negative, as order-book quantities are. With a negative amount the source draws a negative bar width, and the scale can be negative.
- `Math.random` in the test alert and in the cross-exchange simulation is left out. The chosen type, symbol and variations are parameters, and the variations are constrained to the ranges the draws produce.
- `toUpperCase` is modelled for ASCII letters only.
- `toLocaleTimeString`, `toLocaleDateString` and the chart's date labels are left out.
- The localised texts are left out; only the three alert captions are modelled.
- Layout, icons, the fear and greed needle angle, and the price and amount formatting of the order book rows are left out.
- components/CandleChart.tsx, components/RecentTrades.tsx and components/CrossChainArbitrage.tsx are left out because they are rendering only. The last one is not mounted by App.tsx.
- The alert row's click-to-select handler is left out. App.tsx never passes it.
- constants.ts is not part of this model. The API base addresses are an enumeration `ApiBase`.
- FearGreedView.ViewOf: the classification text is shown as delivered. A value that does not parse (NaN) would fall into the extreme greed band in the source; values here are integers.
