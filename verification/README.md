# Live trade feed dashboard — a Dafny model

This project models the client side of a live trade feed dashboard.

- **The feed hook** opens a WebSocket to a trade stream. It keeps a connection record `{isConnected, url, error}` and a newest-first buffer of the last 1000 parsed frames.
- **The page** derives one view of that buffer: the trades narrowed by the symbol, side and exchange filters, then sorted by a chosen field and direction. It also derives the symbol and exchange option lists.
- **The panels** work on that view:
  - the statistics panel counts trades and sums the buy volume;
  - the symbol-performance panel accumulates per-symbol statistics, ranks the symbols by volume and keeps the top ten;
  - the trade table pages the view twenty rows at a time.
- **The filter controls** update the filter and sort settings.

The modules follow the source files:

| module | file | form |
|---|---|---|
| `Types` | types/trade.ts | datatypes |
| `WebSocketHook` | hooks/useWebSocket.ts | class `TradeFeed` plus the pure prepend |
| `StatisticsPanel` | components/StatisticsPanel.tsx | functions |
| `SymbolPerformance` | components/SymbolPerformance.tsx | methods with loops over a map, proved equal to closed-form functions |
| `Dashboard` | app/page.tsx | functions, plus the render as methods on the feed |
| `TradePanel` | components/TradePanel.tsx | page arithmetic plus class `Pager` |
| `TradeFilters` | components/TradeFilters.tsx | functions |

Three supporting modules:

- `Order` writes out JavaScript's `<` on numbers and strings.
- `StableSort` models `Array.prototype.sort` with a key comparator as a stable insertion sort.
- `Tally` holds the filters and sums both aggregators use.

Prices and sizes are `real`, so the aggregate equalities hold exactly.

The code has no reconnect timer, no backoff and no check of a frame's fields. Any value the frame parser returns is prepended, which is why `TradeFeed` is generic in the type of the buffered values.

## Model

| member | source | states |
|---|---|---|
| WebSocketHook.Prepend | hooks/useWebSocket.ts:36 | The new value is at index 0 and every old entry moves up by one. The length grows by one below 1000 and otherwise stays 1000, so the last, oldest entry is dropped. |
| WebSocketHook.PrependKeepsNewest | hooks/useWebSocket.ts:36 | Prepending to the newest 1000 values of an arrival history gives the newest 1000 of that history extended by the value. So a frame keeps a buffer that holds the latest arrivals, newest first, in that state. Nothing restores that order once the page's in-place sort has reordered the buffer (see Findings). |
| WebSocketHook.NewestAt | hooks/useWebSocket.ts:36 | Buffer entry i is the value that arrived i frames before the last one. |
| WebSocketHook.CloseSocket | hooks/useWebSocket.ts:18 | `close()` moves a connecting or open socket to closing and keeps its url. |
| WebSocketHook.TradeFeed.constructor | hooks/useWebSocket.ts:7-14 | The feed starts disconnected, with url '', no error, an empty buffer and no socket. |
| WebSocketHook.TradeFeed.Connect | hooks/useWebSocket.ts:16-23 | The current socket is closed only if it is open. A new socket becomes the reference; the record changes only when its events arrive. If construction fails, only `error` changes, to "Failed to create WebSocket connection". |
| WebSocketHook.TradeFeed.HandleOpen | hooks/useWebSocket.ts:25-31 | The record becomes exactly {true, that socket's url, null}. |
| WebSocketHook.TradeFeed.HandleMessage | hooks/useWebSocket.ts:33-40 | A frame that fails to parse leaves the buffer unchanged. Any parsed value is prepended with the 1000 cap. A buffer that was the newest arrivals in order stays so (`InArrivalOrder`); one that was reordered is not repaired. |
| WebSocketHook.TradeFeed.HandleError | hooks/useWebSocket.ts:42-47 | Only `error` changes, to "WebSocket connection error". |
| WebSocketHook.TradeFeed.HandleClose | hooks/useWebSocket.ts:49-54 | Only `isConnected` changes, to false; url and error are kept. |
| WebSocketHook.TradeFeed.Disconnect | hooks/useWebSocket.ts:63-73 | The current socket is closed and forgotten, and the record is reset to {false, '', null} whatever it was. |
| WebSocketHook.TradeFeed.ClearTrades | hooks/useWebSocket.ts:75-77 | The buffer is emptied, which restores arrival order; the connection record and the socket are untouched. |
| WebSocketHook.TradeFeed.Reorder | app/page.tsx:44 | Another holder of the buffer array permutes it in place. The buffer becomes that permutation, the arrival history stays, and nothing else changes. |
| StatisticsPanel.ComputeStats | components/StatisticsPanel.tsx:11-26 | `totalTrades` is the input length and buy count plus sell count equals it. Empty input gives all zeros. |
| StatisticsPanel.StatsCountSides | components/StatisticsPanel.tsx:13-18 | `buyCount` and `sellCount` are the numbers of buy and sell trades. |
| StatisticsPanel.StatsIncremental | components/StatisticsPanel.tsx:12-18 | One more trade adds one to the total and to its side's count. It adds price×size to `buyVolume` only if it is a buy. |
| StatisticsPanel.StatsOrderIndependent | components/StatisticsPanel.tsx:13-16 | Statistics over any reordering of the trades are the same. |
| Tally.BuySellPartition | components/StatisticsPanel.tsx:13-14 | The buy and sell filters split the list between them. |
| Tally.OfSideVolumePermutation | components/StatisticsPanel.tsx:16 | The summed notional volume of a side does not depend on the order of the trades. |
| SymbolPerformance.Accumulate | components/SymbolPerformance.tsx:12-40 | After the loop, the map has one entry per symbol that occurs, inserted in first-trade order. Each entry equals the symbol's closed-form statistics `StatsFor`. |
| SymbolPerformance.ComputeSymbolStats | components/SymbolPerformance.tsx:11-45 | The memo returns `TopSymbols`: the map's values, stably sorted by volume descending, first ten. |
| SymbolPerformance.StatsForUpdate | components/SymbolPerformance.tsx:17-28 | The in-place update of an existing entry turns a symbol's statistics into those of the list with one more trade. |
| SymbolPerformance.FirstEntry | components/SymbolPerformance.tsx:30-38 | A symbol's first trade creates an entry for that symbol with count 1, split between buys and sells, and buyRatio = buyCount / tradeCount. |
| SymbolPerformance.UpdateEntry | components/SymbolPerformance.tsx:17-28 | The in-place update keeps the symbol and adds one to the count. It keeps buyCount + sellCount = tradeCount, and buyRatio = buyCount / tradeCount after it. |
| SymbolPerformance.StatsForFirst | components/SymbolPerformance.tsx:29-38 | The entry created by a symbol's first trade is that symbol's statistics. |
| SymbolPerformance.FoldMeanIsMean | components/SymbolPerformance.tsx:20 | The running update avg := (avg·(n−1)+price)/n, started at the first price, equals the arithmetic mean of the prices. |
| SymbolPerformance.AveragePriceIsRunningMean | components/SymbolPerformance.tsx:20-34 | A symbol's `averagePrice` is the running mean of its prices in input order. |
| SymbolPerformance.AveragePriceBounds | components/SymbolPerformance.tsx:20-34 | `averagePrice` lies between the lowest and highest price of the symbol's trades. |
| SymbolPerformance.StatsForCounts | components/SymbolPerformance.tsx:18-36 | The entry is for that symbol. `tradeCount` is how often the symbol occurs, and is positive. buyCount + sellCount = tradeCount. `totalVolume` is the sum of price×size over its trades. |
| SymbolPerformance.StatsForBuyRatio | components/SymbolPerformance.tsx:28-37 | buyRatio = buyCount / tradeCount, so it lies in [0, 1]. |
| SymbolPerformance.RankedOrdered | components/SymbolPerformance.tsx:42-43 | The ranked entries' volumes never increase. |
| SymbolPerformance.RankedStable | components/SymbolPerformance.tsx:42-43 | Entries of equal volume keep the map's insertion order, that is, the order of their symbols' first trades. |
| SymbolPerformance.RankedDistinct | components/SymbolPerformance.tsx:42-43 | No symbol is ranked twice. |
| SymbolPerformance.RankedComplete | components/SymbolPerformance.tsx:42-43 | Every symbol that occurs has its entry in the ranking. |
| SymbolPerformance.TopSymbolsSize | components/SymbolPerformance.tsx:44 | There are min(10, number of symbols) entries, and none exactly when there are no trades. |
| SymbolPerformance.TopSymbolsEntries | components/SymbolPerformance.tsx:42-44 | Each shown entry is the statistics of a symbol present in the input. No symbol is shown twice, and volumes do not increase. |
| SymbolPerformance.TopSymbolsKeepsLargest | components/SymbolPerformance.tsx:42-44 | A symbol left out means ten are shown, each with at least its volume. |
| StableSort.Insert | app/page.tsx:44-58 | Inserting adds exactly the one element: the result is the list plus it, as a multiset. |
| StableSort.Sort | app/page.tsx:44-58 | The sort returns a permutation of its input. Order and stability are stated by SortOrdered and SortStable. |
| StableSort.SortOrdered | app/page.tsx:44-58 | The sort returns its input with no element after one the comparator puts after it. |
| StableSort.SortStable | app/page.tsx:44-58 | The sort keeps the input order of elements the comparator calls equal. |
| StableSort.SortDistinct | app/page.tsx:21-29 | Sorting introduces no repeated values. |
| Order.LexLessTotal | app/page.tsx:23 | Of two different strings, one is below the other in JavaScript's string order. |
| Dashboard.SymbolOptions | app/page.tsx:21-24 | The symbol options are exactly the symbols in the feed, in strictly ascending string order. |
| Dashboard.ExchangeOptions | app/page.tsx:26-29 | The exchange options are exactly the exchanges in the feed, in strictly ascending string order. |
| Dashboard.DistinctSortedSpec | app/page.tsx:21-29 | The option list holds exactly the values that occur, in strictly ascending string order, so each appears once. |
| Dashboard.OptionsComplete | app/page.tsx:21-29 | Every trade's symbol and exchange is offered. |
| Dashboard.ApplyFilters | app/page.tsx:32-42 | The filter chain never adds a trade. With no truthy filter it returns the buffer itself. |
| Dashboard.View | app/page.tsx:31-58 | The rows of the memo are the filtered trades, sorted: a permutation of the filter chain's output. |
| Dashboard.ApplyFiltersIsMatching | app/page.tsx:31-42 | The filter chain equals one pass that keeps, in feed order, the trades passing every filter that is set. A filter that is absent or '' imposes nothing. |
| Dashboard.Matching | app/page.tsx:34-42 | A trade is kept exactly when it is in the feed and matches every truthy filter. |
| Dashboard.Compare | app/page.tsx:44-58 | The comparator returns -1 exactly when the first trade goes strictly before the second in the chosen direction. It returns 1 for the reverse, and 0 exactly when their keys are equal. |
| Dashboard.ViewContents | app/page.tsx:31-58 | The view is a permutation of the filtered trades: its members are exactly the feed's trades that match. |
| Dashboard.ViewOrdered | app/page.tsx:53-57 | The comparator never puts a later row before an earlier one: non-decreasing for asc, non-increasing for desc. |
| Dashboard.ViewStable | app/page.tsx:53-57 | Rows the comparator calls equal keep their feed order. |
| Dashboard.SymbolSortIgnoresCase | app/page.tsx:48-51 | Sorting by symbol, two trades compare equal exactly when their symbols have equal length and each pair of characters is equal or the two cases of one ASCII letter. |
| Dashboard.Lower | app/page.tsx:49-50 | Lower-casing keeps the length and turns each capital ASCII letter into its small letter (code + 32). It leaves every other character as it is, so no capital remains. |
| Dashboard.StatsOfView | app/page.tsx:81 | The statistics panel, given the sorted view, shows the statistics of the filtered trades whatever the sort. |
| Dashboard.InitialViewShowsAll | app/page.tsx:15-19 | Initially no filter is set and the sort is timestamp descending: every trade is shown, newest timestamp first. |
| Dashboard.BufferAfterRender | app/page.tsx:32-44 | As written, a render with a filter set leaves the buffer as it is. One with no filter set leaves the buffer equal to the view, a permutation in comparator order. |
| Dashboard.RenderInPlace | app/page.tsx:31-58 | As written, the render returns the view of the buffer. With no filter set it also reorders the feed's own buffer into that view, while the arrival history stays. |
| Dashboard.AliasSortBreaksFeed | app/page.tsx:32-44 | Once such a render has reordered the buffer, the next frame does not leave it the newest arrivals in order. |
| Dashboard.AliasSortExample | app/page.tsx:32-44 | Two trades received in rising price order, sorted by price ascending, leave the older one in front of the buffer. After the next frame it is still ahead of the newer one. |
| Dashboard.RenderCopy | app/page.tsx:31-58 | Corrected, not in the source (see Findings): the render sorts a copy. It returns the same rows as the as-written render, exactly the matching trades, and changes nothing. |
| Dashboard.FramesKeepNewest | hooks/useWebSocket.ts:36 | Any number of frames prepended to the newest arrivals leave the newest arrivals of the extended history. |
| Dashboard.CopySortKeepsFeed | app/page.tsx:31-58 | Corrected, not in the source (see Findings): with renders leaving the buffer alone, after any further frames the buffer is the newest arrivals. The view then shows exactly the matching ones among them. |
| Dashboard.CopyRenderThenFrame | app/page.tsx:31-58 | Corrected, not in the source (see Findings): a copy render and then a frame return the view and leave the buffer the newest arrivals, including the new one. |
| Dashboard.InPlaceRenderThenFrame | app/page.tsx:31-58 | As written, the same view is returned. If the sort moved anything, the next frame leaves the buffer out of arrival order. |
| TradePanel.TotalPages | components/TradePanel.tsx:12-13 | The page count is the least number of 20-row pages that holds n rows (ceil(n/20)). |
| TradePanel.PageOf | components/TradePanel.tsx:15-17 | A page is the slice from (p−1)·20, clipped to the list: at most 20 rows, in list order. It is non-empty exactly when p ≤ totalPages. |
| TradePanel.PageOfIndex | components/TradePanel.tsx:15-17 | Row i of the list is row i mod 20 of page i div 20 + 1. |
| TradePanel.AllPages | components/TradePanel.tsx:15-17 | Pages 1, 2, … read in turn reproduce the whole list. |
| TradePanel.PastLastPage | components/TradePanel.tsx:15-17 | A page beyond the last is empty, and an empty list has no pages. |
| TradePanel.PrevOf | components/TradePanel.tsx:31-33 | Previous steps back one from a page above 1, and from page 1 or below it gives 1. |
| TradePanel.NextOf | components/TradePanel.tsx:35-37 | Next steps forward one from a page before the last. From the last page, or a stale page beyond it, it gives the last page. |
| TradePanel.PrevNextInverse | components/TradePanel.tsx:31-37 | Within the pages, Previous undoes Next and Next undoes Previous. |
| TradePanel.StalePageHidesTrades | components/TradePanel.tsx:11-17 | With at most 20 rows, page 2 is empty and there is one page, so no Previous/Next buttons are rendered (line 110). |
| TradePanel.ShownPage | components/TradePanel.tsx:15-17 | Corrected, not in the source (see Findings): the clamped page is the current one unless that is past the end; then it is the last page. |
| TradePanel.ShownPageHasTrades | components/TradePanel.tsx:15-17 | Corrected, not in the source (see Findings): with the page clamped, a list with rows always shows some. |
| TradePanel.Pager.constructor | components/TradePanel.tsx:11 | The page starts at 1. |
| TradePanel.Pager.PrevPage | components/TradePanel.tsx:31-33 | The page becomes max(1, page − 1). |
| TradePanel.Pager.NextPage | components/TradePanel.tsx:35-37 | The page becomes min(totalPages, page + 1). The button exists only when there are two or more pages (line 110). |
| TradePanel.Pager.Visible | components/TradePanel.tsx:15-17 | Corrected, not in the source (see Findings): the rows shown are the clamped page's slice, non-empty when the list is. |
| TradeFilters.HandleFilterChange | components/TradeFilters.tsx:22-27 | The named key becomes undefined for '' and the value verbatim otherwise. Every other key is copied. |
| TradeFilters.FilterChangeEffect | components/TradeFilters.tsx:22-27 | After the change, a trade is shown exactly when its field equals the chosen value ('' meaning any) and it passes the other filters as before. |
| TradeFilters.FilterChangeOverwrites | components/TradeFilters.tsx:25 | The last choice under a key wins. |
| TradeFilters.MatchesEachKey | components/TradeFilters.tsx:22-27 | A trade matches the filters exactly when it passes each of the three keys. |
| TradeFilters.ReselectKeepsView | components/TradeFilters.tsx:22-27 | Choosing the option a select already displays leaves the view as it was. |
| TradeFilters.Displayed | components/TradeFilters.tsx:22-27 | A select displays '' exactly when its filter is not truthy. |
| TradeFilters.HandleSortChange | components/TradeFilters.tsx:29-35 | The field becomes the clicked one. The direction becomes asc exactly when the clicked field was sorted descending; otherwise it is desc. |
| TradeFilters.SortChangeToggles | components/TradeFilters.tsx:30-34 | Two clicks on the sorted field restore the sort. A click on another field sorts it descending. |

## Left out

- The socket itself, `JSON.parse` and React's hooks (`useState`, `useMemo`, `useCallback`) are not modelled as such.
  - Socket events are the methods of `TradeFeed`, naming the socket whose handler fires.
  - A frame's parse is the `Option` argument of `HandleMessage`.
  - A memo is the function of its inputs.
- The unmount cleanup of the feed hook (hooks/useWebSocket.ts:79-85) is not modelled; it only closes the socket.
- Reconnect, backoff and validation of a frame's fields are not modelled, because the code has none. Downstream views take well-formed trades. The buffer itself takes any parsed value, such as the server's welcome object.
- StatisticsPanel.ComputeStats, and every other view, is stated for buffers of well-formed trades only. The bundled server sends a `server_info` object first (websocket-server/server.js:112-121), and the hook prepends it like a trade (hooks/useWebSocket.ts:36-37). The program then behaves differently:
  - `totalTrades` exceeds buyCount + sellCount by one;
  - the symbol and exchange option lists gain `undefined`;
  - the symbol panel gets an entry with a NaN volume.
  - The model has no value for such an entry in the views.
- The trade servers (websocket-server/server.js, mock-ws-server.js) are not part of this model. They are random generators over timers and sockets.
- Floating-point arithmetic: price×size, sums and the running mean are exact `real` arithmetic.
  - `SymbolPerformance.FoldMeanIsMean` therefore holds exactly, where doubles only approximate it.
  - The comparator's handling of NaN is not modelled.
- The formatters (`formatTime`, `formatPrice`, `formatSize`, `formatNumber`, `formatCurrency`, `formatPercentage`) and all rendering are not modelled.
- `Dashboard.Lower` folds only the ASCII capitals A–Z; `toLowerCase` also folds other letters.
- `Order.LexLess` compares characters by code point; JavaScript compares UTF-16 code units. They differ only above the Basic Multilingual Plane.
- `WebSocketHook.IsTrimmedNonEmpty` treats only space, tab, newline and carriage return as white space. It stands for the connect control's `url.trim()` guard (components/WebSocketControls.tsx:21-25).
- `WebSocketHook.TradeFeed.Connect` records a failed construction by the `created` flag. Which urls the browser refuses is not modelled.

## Findings

| source | as written | input that shows it | evidently intended | confidence | as-written member | corrected member |
|---|---|---|---|---|---|---|
| app/page.tsx:32-44 | With no filter set, `filtered` is the hook's `trades` array and `.sort` reorders it in place. The feed buffer stops being newest-first, so the next frame at capacity drops the entry the sort put last, not the oldest. | Trades with prices 1 then 2 arrive; sort by price ascending; a third trade arrives. The buffer is [third, older, newer] instead of [third, newer, older]. | Sort a copy; the buffer stays the newest 1000 trades in arrival order. | not executed | Dashboard.AliasSortBreaksFeed, Dashboard.AliasSortExample, Dashboard.InPlaceRenderThenFrame | Dashboard.CopySortKeepsFeed, Dashboard.CopyRenderThenFrame |
| components/TradePanel.tsx:11-17 | `currentPage` is not reset or clamped when the list shrinks. | On page 2 of 40 trades, choose a filter that leaves 5 trades. The page shows no rows, and with one page no Previous/Next buttons are rendered. | Show the last page when the current one is past the end. | not executed | TradePanel.StalePageHidesTrades | TradePanel.ShownPageHasTrades, TradePanel.Pager.Visible |
