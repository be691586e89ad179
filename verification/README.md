# Resin/kelp strategy and its replay backtest, in Dafny

This project models two pieces of a trading-competition research repository:

- **The per-tick strategy** (`Trader.run`). It reads every product's order book and loads its own state from the text the previous tick returned. For RAINFOREST_RESIN it trades mean reversion against an exponentially smoothed mean (factor 0.1). For KELP it trades a crossover of two smoothed averages (factors 0.3 and 0.1). Every order is capped by a position limit of 50, and the strategy returns its orders, `conversions` 1, and the new state text.
- **The replay backtest** (`create_order_depth`, `backtest`). It turns each historical row into books, calls the strategy once per row, fills every returned order in full at its own price, and finally liquidates both products at their last mid-price.

The records of the mock data model (`Order`, `OrderDepth`, `TradingState`) are datatypes in `DataModel`.

Modules:

- `Basics`: Option/Result and Python's `min`, `abs` and `int()` truncation.
- `DataModel`: the records, the persisted-state shape `Memo`, and the state codec.
- `Book`: best bid, best ask and mid-price.
- `Sizing`: capacity-bounded take/hit orders.
- `Trader`: one strategy call.
- `Backtest`: book construction, replay and liquidation.

The persisted state is JSON in the source. Here it is an abstract `Codec` pair `(parse, dump)` passed as a parameter. `RoundTrips(codec, data)` says that storing one particular state is faithful: `dump` does not yield the empty text for it and `parse` reads it back. Nothing is assumed of the codec as a whole. Facts about what a tick stores hold for every codec. Facts about what the next tick reads back assume `RoundTrips` only of the state that was actually stored.

A persisted value of the wrong shape makes the source raise a `TypeError` or `AttributeError`. Examples are a dictionary under RAINFOREST_RESIN or a number under KELP. Such a value becomes `Err(MalformedState)`.

The strategy sizes a buy by the NEGATED volume of the best ask. The backtest copies the ask volume columns of each row unchanged. The model keeps both behaviours, and `Backtest.Replay` states the consequence: when every row's ask volumes are non-negative, the replay only ever sells.

## Model

| member | source | states |
|---|---|---|
| Basics.Truncate | Research/run_backtest.py:22 | `int(volume)` truncates toward zero: the result is within one unit of the value, on the zero side |
| Book.LowestPrice | Research/Tutorial/kelp_ma_resin_mr.py:29 | the best ask is absent exactly when the ask side is empty; otherwise it is a resting price no greater than any other |
| Book.HighestPrice | Research/Tutorial/kelp_ma_resin_mr.py:30 | the best bid is absent exactly when the bid side is empty; otherwise it is a resting price no smaller than any other |
| Book.MidPrice | Research/Tutorial/kelp_ma_resin_mr.py:32-41 | no mid-price exactly when both sides are empty; with both sides it is equidistant from bid and ask and between them when the book is not crossed; 0.99 × ask or 1.01 × bid with one side, so a positive one-sided price moves inward |
| Book.BookMid | Research/Tutorial/kelp_ma_resin_mr.py:29-33 | a product gets a mid-price (and is processed) exactly when its book has a level on some side |
| Sizing.BuySize | Research/Tutorial/kelp_ma_resin_mr.py:58-63 | a buy is sized by the smaller of the remaining buy capacity (50 − position) and the negated ask volume |
| Sizing.SellSize | Research/Tutorial/kelp_ma_resin_mr.py:59-70 | a sell is sized by the smaller of the remaining sell capacity (50 + position) and the bid volume |
| Sizing.TakeAsk | Research/Tutorial/kelp_ma_resin_mr.py:62-65 | at most one buy, placed exactly when the best ask is below the threshold and the sized quantity is positive; it buys at the best ask and never exceeds the buy capacity |
| Sizing.HitBid | Research/Tutorial/kelp_ma_resin_mr.py:69-72 | at most one sell, placed exactly when the best bid is above the threshold and the sized quantity is positive; it sells at the best bid and never exceeds the sell capacity |
| Sizing.TakeAndHitWithinLimit | Research/Tutorial/kelp_ma_resin_mr.py:57-73 | a buy and a sell sized from the same position keep a position that was within ±50 within ±50 |
| Trader.Ewma | Research/Tutorial/kelp_ma_resin_mr.py:50-51 | a smoothing step lands between the old value and the mid-price, and strictly between them when they differ and the factor is strictly between 0 and 1 |
| Trader.LoadState | Research/Tutorial/kelp_ma_resin_mr.py:18-21 | empty or undecodable persisted text loads as the empty state and never fails; otherwise the decoded state is used |
| Trader.LoadDumpRoundTrip | Research/Tutorial/kelp_ma_resin_mr.py:18-21 | stored state that round-trips is exactly what the next tick loads; for non-empty state, round-tripping is also the only way to load it back |
| Trader.ResinPrior | Research/Tutorial/kelp_ma_resin_mr.py:48 | the resin mean defaults to the mid-price; a stored pair of averages is a type error |
| Trader.KelpPrior | Research/Tutorial/kelp_ma_resin_mr.py:84-86 | each kelp average defaults to the mid-price when absent; a stored plain number is an attribute error |
| Trader.ResinOrders | Research/Tutorial/kelp_ma_resin_mr.py:57-73 | at most two resin orders, and when there are two the buy comes first and the sell second; a buy exists exactly when the best ask is below the prior mean with capacity, and a sell exactly when the best bid is above it; each is at the best price with its sized quantity; the limit is kept |
| Trader.KelpOrders | Research/Tutorial/kelp_ma_resin_mr.py:99-118 | at most one kelp order; equal averages never trade; a buy exactly when short > long and the best ask is below the short average, a sell exactly when short < long and the best bid is above it; the limit is kept |
| Trader.ProductTick | Research/Tutorial/kelp_ma_resin_mr.py:24-124 | an unquoted book is skipped; a quoted book fails exactly when its stored value has the wrong shape for the product, and is traded otherwise |
| Trader.ProductTickOrders | Research/Tutorial/kelp_ma_resin_mr.py:46-124 | a traded product other than resin and kelp gets no orders and stores nothing; orders carry their own product and keep the limit; resin stores a mean and kelp a pair of averages |
| Trader.ResinTickUsesPriorMean | Research/Tutorial/kelp_ma_resin_mr.py:46-76 | resin trades against the PRIOR mean (stored, or the mid-price) and stores 0.1 × mid + 0.9 × prior |
| Trader.KelpTickUsesUpdatedAverages | Research/Tutorial/kelp_ma_resin_mr.py:81-121 | kelp updates both averages (0.3 and 0.1) first, trades on the updated ones and stores both |
| Trader.ResinFirstTickNoTrade | Research/Tutorial/kelp_ma_resin_mr.py:46-73 | with nothing stored and a book that is not crossed, the first resin tick places no order |
| Trader.KelpFirstTickNoTrade | Research/Tutorial/kelp_ma_resin_mr.py:84-112 | with nothing stored both kelp averages equal the mid-price, so the first kelp tick places no order |
| Trader.Run | Research/Tutorial/kelp_ma_resin_mr.py:126-129 | a successful call returns `conversions` 1 |
| Trader.RunFailsOnlyOnMalformedState | Research/Tutorial/kelp_ma_resin_mr.py:18-93 | a call fails exactly when a quoted resin or kelp book meets a stored value of the wrong shape; well-shaped state never fails |
| Trader.RunOrders | Research/Tutorial/kelp_ma_resin_mr.py:23-124 | the result has one entry per quoted product, empty lists for other products, orders only for their own product, and no product pushed outside ±50 |
| Trader.RunStoresPersisted | Research/Tutorial/kelp_ma_resin_mr.py:126-127 | for every codec, a successful tick returns the encoding of the state it persists; when that state round-trips, the next tick loads exactly that state |
| Trader.PersistedEntries | Research/Tutorial/kelp_ma_resin_mr.py:75-121 | the persisted state keeps every loaded entry and adds or replaces exactly the quoted resin and kelp entries; after a successful tick these hold a mean and a pair of averages; well-shaped state stays well-shaped |
| Trader.NoBuyWithNonNegativeAskVolumes | Research/Tutorial/kelp_ma_resin_mr.py:61-65 | when every resting ask volume is non-negative, every order of a tick is a sell |
| Trader.ResinBookExample | Research/Tutorial/kelp_ma_resin_mr.py:61-73 | concrete books: a spread around the mean does not trade; an ask of 9995 with volume −5 buys 5; the same ask with volume +5 buys nothing |
| Backtest.CreateOrderDepth | Research/run_backtest.py:15-23 | a price is a level exactly when some pair has both price and volume present; its volume is the truncated volume of the LAST such pair; at most one level per pair |
| Backtest.RowAsksNonNegative | Research/run_backtest.py:45-47 | non-negative ask volume columns give an ask side with non-negative volumes |
| Backtest.FirstRowFrom | Research/run_backtest.py:37-40 | finds the first row with the given timestamp and product, or reports that none exists |
| Backtest.TickDepths | Research/run_backtest.py:34-49 | a tick has a resin or kelp book exactly when some row has that timestamp and product, and the book is built from the first such row |
| Backtest.TickAsksNonNegative | Research/run_backtest.py:34-49 | when no row has a negative ask volume, no book of any tick does |
| Backtest.InitialLedger | Research/run_backtest.py:26-30 | the replay starts flat in both products, with no cash, empty state text and an empty log |
| Backtest.FillEntry | Research/run_backtest.py:65 | a fill is logged as BUY exactly when its quantity is positive, with the quantity's magnitude and the order's price |
| Backtest.ApplyFill | Research/run_backtest.py:60-65 | a fill moves only its product's position by the order quantity and the cash by minus price × quantity, and appends one log line |
| Backtest.FillOrders | Research/run_backtest.py:58-65 | filling a list moves the position by its net quantity and the cash by minus its notional, and appends one matching log line per order in order |
| Backtest.FillResult | Research/run_backtest.py:58-65 | each product's position moves by its net order quantity and the cash by minus both notionals; other positions are untouched; the log grows by one line per order and the earlier log is kept |
| Backtest.FillResultLines | Research/run_backtest.py:58-65 | the appended lines are resin's fills in list order, followed by kelp's fills in list order |
| Backtest.Step | Research/run_backtest.py:51-65 | a row succeeds exactly when the strategy call succeeds, and otherwise stops the replay with that timestamp; the returned state text is handed on; the result holds only resin and kelp entries; each position moves by that product's net order quantity, the cash by minus the notionals, and the log by one line per order after the earlier log |
| Backtest.StepOrderKeys | Research/run_backtest.py:34-58 | the strategy's result only has resin and kelp entries, so filling those two fills every returned order |
| Backtest.Replay | Research/run_backtest.py:32-65 | for every codec: the replay tracks exactly resin and kelp and keeps both positions within ±50; cash and every position are always what the trade log adds up to; when no row has a negative ask volume the log holds SELL fills only |
| Backtest.StepKeepsLimits | Research/run_backtest.py:51-65 | for every codec, one row keeps both positions within ±50 |
| Backtest.StepKeepsStateWellTyped | Research/run_backtest.py:51-56 | a row called with text that loads as well-shaped state never fails; when the state it stores round-trips, the text it hands on loads as well-shaped state again |
| Backtest.InitialLedgerInvariant | Research/run_backtest.py:26-30 | the initial ledger is within the limits and its empty state text loads as the empty state |
| Backtest.ReplayNeverFails | Research/run_backtest.py:32-56 | when the state of every replayed tick round-trips, the replay never stops early and always hands on text that loads as well-shaped state |
| Backtest.StateThreadsThroughTicks | Research/run_backtest.py:51-56 | each tick is called with the state text the previous tick returned |
| Backtest.LastMid | Research/run_backtest.py:69 | the final mid-price of a product is the mid-price of its last row, absent exactly when it has no row |
| Backtest.Liquidate | Research/run_backtest.py:67-72 | the final cash adds each position times its final mid-price, and one LIQUIDATE line per product is appended to the log |
| Backtest.RunBacktest | Research/run_backtest.py:25-74 | the backtest succeeds exactly when the replay succeeds and both products have a last row, and then returns the liquidated ledger |
| Backtest.BacktestFailsOnlyWithoutRows | Research/run_backtest.py:67-70 | a successful backtest has a resin row and a kelp row; when the state of every replayed tick round-trips, it fails exactly when resin or kelp has no row at all |
| Backtest.FillOrdersOnlySells | Research/run_backtest.py:60-65 | filling only negative quantities appends only SELL lines |
| Backtest.StepOnlySells | Research/run_backtest.py:51-65 | when no row has a negative ask volume, one row appends only SELL lines to a log of SELL lines |
| Backtest.FillResultOnlySells | Research/run_backtest.py:58-65 | filling a tick result made only of sell orders appends only SELL lines |
| Backtest.FillEntryAccounts | Research/run_backtest.py:63-65 | a fill's log line carries exactly the cash and the position change the fill makes |
| Backtest.ApplyFillAgrees | Research/run_backtest.py:60-65 | after a fill, cash and positions are still what the log adds up to |
| Backtest.FillOrdersAgrees | Research/run_backtest.py:58-65 | after filling a list, cash and positions are still what the log adds up to |
| Backtest.StepAgreesWithLog | Research/run_backtest.py:51-65 | one row keeps cash and every position equal to what the trade log adds up to |
| Backtest.LiquidateBalances | Research/run_backtest.py:67-72 | after liquidation the log's cash flows add up to the final cash and its holdings are flat |
| Backtest.StepLogLength | Research/run_backtest.py:58-65 | one row appends one log line per order the strategy returned |
| Backtest.ReplayLogLength | Research/run_backtest.py:32-65 | after any number of rows the log holds one line per order the strategy returned over those rows |
| Backtest.BacktestLogLength | Research/run_backtest.py:25-74 | the backtest's log holds one line per order the strategy returned, plus the two LIQUIDATE lines |
| Backtest.BacktestBalancesLog | Research/run_backtest.py:25-74 | the reported final cash is the sum of the cash flows in the returned log, and the log closes both products flat |

## Left out

- Loading the CSV with pandas, the script at the bottom of the backtest file and the `sys.path` set-up are file-system work and are not modelled. Rows are given as a sequence.
- A missing or NaN cell becomes an absent key of `Row.numbers`. Cell values are reals. The row's `mid_price` is taken to be a number, not NaN.
- Console output (`print`) and `Order.__repr__` have no effect on results and are not modelled.
- JSON is an abstract codec. Two kinds of persisted value are not represented: values other than numbers and objects, and object entries holding `null`. A top-level JSON value that is not an object is treated like undecodable text: the model loads it as the empty state and stores the encoding of this tick's entries. The source behaves differently. It fails on `.get` only when a quoted RAINFOREST_RESIN or KELP book reads the state (Research/Tutorial/kelp_ma_resin_mr.py:48 and :84). Otherwise it hands the non-object back unchanged at :127.
- Backtest.ReplayNeverFails: the JSON round trip itself is not modelled, so the promise that the replay never stops early assumes `RoundTrips` of each state the replay stores. Python's `json` does read back what it writes for these dictionaries of floats.
- Floating-point rounding is not modelled: prices, means and cash are exact reals.
- `timestamp` is taken to be an integer already, so `int(row["timestamp"])` is not modelled.
- Dictionary iteration order only matters for the fill order. That order is modelled explicitly as resin, then kelp, following the order in which the backtest inserts the books.
- The `mid_price` read at Research/run_backtest.py:59 is never used, so it is not modelled.
- Trader.Run: its own contract states only `conversions`. What it computes is stated by RunFailsOnlyOnMalformedState, RunOrders, RunStoresPersisted, PersistedEntries and NoBuyWithNonNegativeAskVolumes.
