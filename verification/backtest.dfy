/** The replay loop: one strategy tick per historical row, every order filled
    in full, and a final liquidation at the last mid-price. */
module Backtest {
  import opened Basics
  import opened DataModel
  import opened Book
  import opened Sizing
  import opened Trader

  /** One historical row. `numbers` holds the price and volume columns that
      are present; a missing or empty column has no key. */
  datatype Row = Row(timestamp: int, product: string, midPrice: real, numbers: map<string, real>)

  const BidPriceKeys: seq<string> := ["bid_price_1", "bid_price_2", "bid_price_3"]
  const BidVolumeKeys: seq<string> := ["bid_volume_1", "bid_volume_2", "bid_volume_3"]
  const AskPriceKeys: seq<string> := ["ask_price_1", "ask_price_2", "ask_price_3"]
  const AskVolumeKeys: seq<string> := ["ask_volume_1", "ask_volume_2", "ask_volume_3"]

  /** The number of (price, volume) column pairs `zip` walks through. */
  function PairCount(priceKeys: seq<string>, volumeKeys: seq<string>): nat {
    Min(|priceKeys|, |volumeKeys|)
  }

  /** Pair `i` has both its price and its volume, and the price is `price`. */
  ghost predicate LevelAt(numbers: map<string, real>, priceKeys: seq<string>, volumeKeys: seq<string>,
                          i: int, price: real) {
    && 0 <= i < PairCount(priceKeys, volumeKeys)
    && priceKeys[i] in numbers && volumeKeys[i] in numbers
    && numbers[priceKeys[i]] == price
  }

  /** Pair `i` is the last pair with price `price`. */
  ghost predicate LastLevelAt(numbers: map<string, real>, priceKeys: seq<string>, volumeKeys: seq<string>,
                              i: int, price: real) {
    LevelAt(numbers, priceKeys, volumeKeys, i, price) &&
    forall j :: i < j ==> !LevelAt(numbers, priceKeys, volumeKeys, j, price)
  }

  /** The book side built from a row: every pair whose price and volume are
      both present becomes a level, the volume truncated to an integer; a
      later pair with the same price overwrites an earlier one. */
  function CreateOrderDepth(numbers: map<string, real>, priceKeys: seq<string>, volumeKeys: seq<string>)
    : (levels: map<real, int>)
    ensures forall price :: price in levels <==>
              exists i :: LevelAt(numbers, priceKeys, volumeKeys, i, price)
    ensures forall i, price ::
              LastLevelAt(numbers, priceKeys, volumeKeys, i, price) ==>
              levels[price] == Truncate(numbers[volumeKeys[i]])
    ensures |levels| <= PairCount(priceKeys, volumeKeys)
    decreases |priceKeys|
  {
    var n := PairCount(priceKeys, volumeKeys);
    if n == 0 then map[]
    else
      var rest := CreateOrderDepth(numbers, priceKeys[..n - 1], volumeKeys[..n - 1]);
      var levels :=
        if priceKeys[n - 1] in numbers && volumeKeys[n - 1] in numbers then
          rest[numbers[priceKeys[n - 1]] := Truncate(numbers[volumeKeys[n - 1]])]
        else
          rest;
      CreateOrderDepthStep(numbers, priceKeys, volumeKeys, priceKeys[..n - 1], volumeKeys[..n - 1], rest, levels);
      levels
  }

  /** Adding the last pair to the levels built from the earlier pairs. */
  lemma CreateOrderDepthStep(numbers: map<string, real>, priceKeys: seq<string>, volumeKeys: seq<string>,
                             pk: seq<string>, vk: seq<string>, rest: map<real, int>, levels: map<real, int>)
    requires PairCount(priceKeys, volumeKeys) > 0
    requires pk == priceKeys[..PairCount(priceKeys, volumeKeys) - 1]
    requires vk == volumeKeys[..PairCount(priceKeys, volumeKeys) - 1]
    requires forall price :: price in rest <==> exists i :: LevelAt(numbers, pk, vk, i, price)
    requires forall i, price ::
               LastLevelAt(numbers, pk, vk, i, price) ==>
               rest[price] == Truncate(numbers[vk[i]])
    requires |rest| <= PairCount(priceKeys, volumeKeys) - 1
    requires var n := PairCount(priceKeys, volumeKeys);
             levels == if priceKeys[n - 1] in numbers && volumeKeys[n - 1] in numbers then
                            rest[numbers[priceKeys[n - 1]] := Truncate(numbers[volumeKeys[n - 1]])]
                          else
                            rest
    ensures forall price :: price in levels <==>
              exists i :: LevelAt(numbers, priceKeys, volumeKeys, i, price)
    ensures forall i, price ::
              LastLevelAt(numbers, priceKeys, volumeKeys, i, price) ==>
              levels[price] == Truncate(numbers[volumeKeys[i]])
    ensures |levels| <= PairCount(priceKeys, volumeKeys)
  {
    var n := PairCount(priceKeys, volumeKeys);
    assert PairCount(pk, vk) == n - 1;
    forall i, price | 0 <= i < n - 1
      ensures LevelAt(numbers, pk, vk, i, price) <==> LevelAt(numbers, priceKeys, volumeKeys, i, price)
    {
    }
    forall price
      ensures price in levels <==> exists i :: LevelAt(numbers, priceKeys, volumeKeys, i, price)
    {
      StepKeys(numbers, priceKeys, volumeKeys, pk, vk, rest, levels, price);
    }
    forall i, price | LastLevelAt(numbers, priceKeys, volumeKeys, i, price)
      ensures levels[price] == Truncate(numbers[volumeKeys[i]])
    {
      StepValue(numbers, priceKeys, volumeKeys, pk, vk, rest, levels, i, price);
    }
  }

  /** One price is a level after the step exactly when some pair carries it. */
  lemma StepKeys(numbers: map<string, real>, priceKeys: seq<string>, volumeKeys: seq<string>,
                 pk: seq<string>, vk: seq<string>, rest: map<real, int>, levels: map<real, int>, price: real)
    requires PairCount(priceKeys, volumeKeys) > 0
    requires pk == priceKeys[..PairCount(priceKeys, volumeKeys) - 1]
    requires vk == volumeKeys[..PairCount(priceKeys, volumeKeys) - 1]
    requires price in rest <==> exists i :: LevelAt(numbers, pk, vk, i, price)
    requires var n := PairCount(priceKeys, volumeKeys);
             levels == if priceKeys[n - 1] in numbers && volumeKeys[n - 1] in numbers then
                            rest[numbers[priceKeys[n - 1]] := Truncate(numbers[volumeKeys[n - 1]])]
                          else
                            rest
    ensures price in levels <==> exists i :: LevelAt(numbers, priceKeys, volumeKeys, i, price)
  {
    var n := PairCount(priceKeys, volumeKeys);
    assert PairCount(pk, vk) == n - 1;
    var last := priceKeys[n - 1] in numbers && volumeKeys[n - 1] in numbers;
    if price in levels {
      if last && price == numbers[priceKeys[n - 1]] {
        assert LevelAt(numbers, priceKeys, volumeKeys, n - 1, price);
      } else {
        var i :| LevelAt(numbers, pk, vk, i, price);
        assert LevelAt(numbers, priceKeys, volumeKeys, i, price);
      }
    }
    if exists i :: LevelAt(numbers, priceKeys, volumeKeys, i, price) {
      var i :| LevelAt(numbers, priceKeys, volumeKeys, i, price);
      if i < n - 1 {
        assert LevelAt(numbers, pk, vk, i, price);
      }
    }
  }

  /** The value of a level after the step is the volume of its last pair. */
  lemma StepValue(numbers: map<string, real>, priceKeys: seq<string>, volumeKeys: seq<string>,
                  pk: seq<string>, vk: seq<string>, rest: map<real, int>, levels: map<real, int>,
                  i: int, price: real)
    requires PairCount(priceKeys, volumeKeys) > 0
    requires pk == priceKeys[..PairCount(priceKeys, volumeKeys) - 1]
    requires vk == volumeKeys[..PairCount(priceKeys, volumeKeys) - 1]
    requires forall price :: price in rest <==> exists i :: LevelAt(numbers, pk, vk, i, price)
    requires LastLevelAt(numbers, pk, vk, i, price) ==> rest[price] == Truncate(numbers[vk[i]])
    requires var n := PairCount(priceKeys, volumeKeys);
             levels == if priceKeys[n - 1] in numbers && volumeKeys[n - 1] in numbers then
                            rest[numbers[priceKeys[n - 1]] := Truncate(numbers[volumeKeys[n - 1]])]
                          else
                            rest
    requires LastLevelAt(numbers, priceKeys, volumeKeys, i, price)
    ensures price in levels && levels[price] == Truncate(numbers[volumeKeys[i]])
  {
    var n := PairCount(priceKeys, volumeKeys);
    assert PairCount(pk, vk) == n - 1;
    if i < n - 1 {
      assert !LevelAt(numbers, priceKeys, volumeKeys, n - 1, price);
      assert LevelAt(numbers, pk, vk, i, price);
      forall j | i < j
        ensures !LevelAt(numbers, pk, vk, j, price)
      {
        if j < n - 1 {
          assert !LevelAt(numbers, priceKeys, volumeKeys, j, price);
        }
      }
      assert LastLevelAt(numbers, pk, vk, i, price);
    }
  }

  /** The book a row describes: three bid levels and three ask levels. */
  function RowBook(row: Row): OrderDepth {
    OrderDepth(CreateOrderDepth(row.numbers, BidPriceKeys, BidVolumeKeys),
               CreateOrderDepth(row.numbers, AskPriceKeys, AskVolumeKeys))
  }

  /** The index of the first row at or after `from` with this timestamp and product. */
  function FirstRowFrom(rows: seq<Row>, timestamp: int, product: string, from: nat): (r: Option<nat>)
    requires from <= |rows|
    ensures r.Some? ==> from <= r.value < |rows| &&
                        rows[r.value].timestamp == timestamp && rows[r.value].product == product
    ensures r.Some? ==> forall j :: from <= j < r.value ==>
                          !(rows[j].timestamp == timestamp && rows[j].product == product)
    ensures r.None? ==> forall j :: from <= j < |rows| ==>
                          !(rows[j].timestamp == timestamp && rows[j].product == product)
    decreases |rows| - from
  {
    if from == |rows| then None
    else if rows[from].timestamp == timestamp && rows[from].product == product then Some(from)
    else FirstRowFrom(rows, timestamp, product, from + 1)
  }

  /** The books of one tick: for each of resin and kelp, the book of the FIRST
      row of the whole input with the tick's timestamp, if there is one. */
  function TickDepths(rows: seq<Row>, timestamp: int): (depths: map<string, OrderDepth>)
    ensures forall p :: p in depths <==> (p == Resin || p == Kelp) && FirstRowFrom(rows, timestamp, p, 0).Some?
    ensures forall p :: p in depths ==> depths[p] == RowBook(rows[FirstRowFrom(rows, timestamp, p, 0).value])
  {
    var resin := ProductDepth(rows, timestamp, Resin);
    var kelp := ProductDepth(rows, timestamp, Kelp);
    assert Resin != Kelp;
    resin + kelp
  }

  /** The book of one product at one tick, keyed by the product, if it has a row. */
  function ProductDepth(rows: seq<Row>, timestamp: int, product: string): (depths: map<string, OrderDepth>)
    ensures depths.Keys == if FirstRowFrom(rows, timestamp, product, 0).Some? then {product} else {}
    ensures product in depths ==> depths[product] == RowBook(rows[FirstRowFrom(rows, timestamp, product, 0).value])
  {
    match FirstRowFrom(rows, timestamp, product, 0)
    case None => map[]
    case Some(i) => map[product := RowBook(rows[i])]
  }

  /** A trade-log line: a fill, or the closing liquidation of a product. */
  datatype Side = Buy | Sell
  datatype LogEntry =
    | Fill(timestamp: int, product: string, side: Side, quantity: nat, price: real)
    | Liquidation(product: string, finalPosition: int, finalMid: real)

  /** The replay's running state: positions, cash, the persisted-state text
      handed from tick to tick, and the trade log. */
  datatype Ledger = Ledger(position: map<string, int>, cash: real, traderData: string, log: seq<LogEntry>)

  /** The ledger before the first row. */
  function InitialLedger(): (l: Ledger)
    ensures l.position.Keys == {Resin, Kelp} && l.position[Resin] == 0 && l.position[Kelp] == 0
    ensures l.cash == 0.0 && l.traderData == "" && l.log == []
  {
    Ledger(map[Resin := 0, Kelp := 0], 0.0, "", [])
  }

  /** The cash paid for a list of orders filled in full. */
  function Notional(orders: seq<Order>): real {
    if orders == [] then 0.0
    else Notional(orders[..|orders| - 1]) + orders[|orders| - 1].price * orders[|orders| - 1].quantity as real
  }

  /** The log line of one fill: BUY exactly when the quantity is positive,
      with the quantity's magnitude. */
  function FillEntry(timestamp: int, product: string, order: Order): (e: LogEntry)
    ensures e.Fill? && e.product == product && e.price == order.price
    ensures e.side == Buy <==> order.quantity > 0
    ensures e.quantity == Abs(order.quantity)
  {
    Fill(timestamp, product, if order.quantity > 0 then Buy else Sell, Abs(order.quantity), order.price)
  }

  /** Fill one order in full: only this product's position and the cash move,
      and one log line is appended. */
  function ApplyFill(ledger: Ledger, timestamp: int, product: string, order: Order): (next: Ledger)
    requires product in ledger.position
    ensures next.position.Keys == ledger.position.Keys
    ensures next.position[product] == ledger.position[product] + order.quantity
    ensures forall p :: p in ledger.position && p != product ==> next.position[p] == ledger.position[p]
    ensures next.cash == ledger.cash - order.price * order.quantity as real
    ensures next.log == ledger.log + [FillEntry(timestamp, product, order)]
    ensures next.traderData == ledger.traderData
  {
    ledger.(position := ledger.position[product := ledger.position[product] + order.quantity],
            cash := ledger.cash - order.price * order.quantity as real,
            log := ledger.log + [FillEntry(timestamp, product, order)])
  }

  /** Fill one product's orders in list order. */
  function FillOrders(ledger: Ledger, timestamp: int, product: string, orders: seq<Order>): (next: Ledger)
    requires product in ledger.position
    ensures next.position.Keys == ledger.position.Keys
    ensures next.position[product] == ledger.position[product] + NetQuantity(orders)
    ensures forall p :: p in ledger.position && p != product ==> next.position[p] == ledger.position[p]
    ensures next.cash == ledger.cash - Notional(orders)
    ensures |next.log| == |ledger.log| + |orders| && next.log[..|ledger.log|] == ledger.log
    ensures forall i :: 0 <= i < |orders| ==> next.log[|ledger.log| + i] == FillEntry(timestamp, product, orders[i])
    ensures next.traderData == ledger.traderData
    decreases |orders|
  {
    if orders == [] then ledger
    else
      var n := |orders| - 1;
      var before := FillOrders(ledger, timestamp, product, orders[..n]);
      ApplyFill(before, timestamp, product, orders[n])
  }

  /** The orders of one product in a tick's result, none if it has no entry. */
  function OrdersFor(orders: map<string, seq<Order>>, product: string): seq<Order> {
    if product in orders then orders[product] else []
  }

  /** Fill a tick's result: resin's orders, then kelp's. */
  function FillResult(ledger: Ledger, timestamp: int, orders: map<string, seq<Order>>): (next: Ledger)
    requires Resin in ledger.position && Kelp in ledger.position
    ensures next.position.Keys == ledger.position.Keys
    ensures next.position[Resin] == ledger.position[Resin] + NetQuantity(OrdersFor(orders, Resin))
    ensures next.position[Kelp] == ledger.position[Kelp] + NetQuantity(OrdersFor(orders, Kelp))
    ensures forall p :: p in ledger.position && p != Resin && p != Kelp ==> next.position[p] == ledger.position[p]
    ensures next.cash == ledger.cash - Notional(OrdersFor(orders, Resin)) - Notional(OrdersFor(orders, Kelp))
    ensures |next.log| == |ledger.log| + |OrdersFor(orders, Resin)| + |OrdersFor(orders, Kelp)|
    ensures next.log[..|ledger.log|] == ledger.log
    ensures next.traderData == ledger.traderData
  {
    var afterResin := FillOrders(ledger, timestamp, Resin, OrdersFor(orders, Resin));
    var next := FillOrders(afterResin, timestamp, Kelp, OrdersFor(orders, Kelp));
    assert next.log[..|ledger.log|] == afterResin.log[..|afterResin.log|][..|ledger.log|];
    next
  }

  /** The lines a tick's result appends: resin's fills in list order, then
      kelp's. */
  lemma FillResultLines(ledger: Ledger, timestamp: int, orders: map<string, seq<Order>>)
    requires Resin in ledger.position && Kelp in ledger.position
    ensures var next := FillResult(ledger, timestamp, orders);
            && (forall i :: 0 <= i < |OrdersFor(orders, Resin)| ==>
                  next.log[|ledger.log| + i] == FillEntry(timestamp, Resin, OrdersFor(orders, Resin)[i]))
            && (forall i :: 0 <= i < |OrdersFor(orders, Kelp)| ==>
                  next.log[|ledger.log| + |OrdersFor(orders, Resin)| + i] ==
                  FillEntry(timestamp, Kelp, OrdersFor(orders, Kelp)[i]))
  {
    var afterResin := FillOrders(ledger, timestamp, Resin, OrdersFor(orders, Resin));
    var next := FillOrders(afterResin, timestamp, Kelp, OrdersFor(orders, Kelp));
    assert FillResult(ledger, timestamp, orders) == next;
    FillOrdersAppends(ledger, timestamp, Resin, OrdersFor(orders, Resin));
    FillOrdersAppends(afterResin, timestamp, Kelp, OrdersFor(orders, Kelp));
    AppendedLines(ledger.log, afterResin.log, next.log, timestamp, OrdersFor(orders, Resin), OrdersFor(orders, Kelp));
  }

  /** `log` is `log0` followed by one fill line per order, in list order. */
  ghost predicate Appends(log0: seq<LogEntry>, log: seq<LogEntry>, timestamp: int, product: string, orders: seq<Order>) {
    && |log| == |log0| + |orders| && log[..|log0|] == log0
    && forall i :: 0 <= i < |orders| ==> log[|log0| + i] == FillEntry(timestamp, product, orders[i])
  }

  /** Filling a list appends its fill lines. */
  lemma FillOrdersAppends(ledger: Ledger, timestamp: int, product: string, orders: seq<Order>)
    requires product in ledger.position
    ensures Appends(ledger.log, FillOrders(ledger, timestamp, product, orders).log, timestamp, product, orders)
  {
  }

  /** A log grown by resin's fill lines and then by kelp's holds the resin
      lines right after the earlier log and the kelp lines after them. */
  lemma AppendedLines(log0: seq<LogEntry>, log1: seq<LogEntry>, log2: seq<LogEntry>, timestamp: int,
                      resin: seq<Order>, kelp: seq<Order>)
    requires Appends(log0, log1, timestamp, Resin, resin)
    requires Appends(log1, log2, timestamp, Kelp, kelp)
    ensures forall i :: 0 <= i < |resin| ==> log2[|log0| + i] == FillEntry(timestamp, Resin, resin[i])
    ensures forall i :: 0 <= i < |kelp| ==> log2[|log0| + |resin| + i] == FillEntry(timestamp, Kelp, kelp[i])
  {
    forall i | 0 <= i < |resin|
      ensures log2[|log0| + i] == FillEntry(timestamp, Resin, resin[i])
    {
      assert log2[|log0| + i] == log2[..|log1|][|log0| + i];
    }
  }

  /** Why a replay stops: the strategy raised on a tick, or a product has no
      row to read a final mid-price from. */
  datatype BacktestError = StrategyFailed(timestamp: int) | NoRowsFor(product: string)

  /** The strategy's view at a row: that timestamp's books, a copy of the
      positions and the persisted-state text of the previous tick. */
  function TickState(rows: seq<Row>, row: Row, ledger: Ledger): TradingState {
    TradingState(row.timestamp, TickDepths(rows, row.timestamp), ledger.position, ledger.traderData)
  }

  /** One row of the replay: call the strategy, keep the text it returns for
      the next row, and fill every order it returns. */
  function Step(codec: Codec, rows: seq<Row>, row: Row, ledger: Ledger): (r: Result<Ledger, BacktestError>)
    requires Resin in ledger.position && Kelp in ledger.position
    ensures r.Ok? <==> Run(codec, TickState(rows, row, ledger)).Ok?
    ensures r.Err? ==> r.error == StrategyFailed(row.timestamp)
    ensures r.Ok? ==> r.value.traderData == Run(codec, TickState(rows, row, ledger)).value.traderData
    ensures r.Ok? ==> r.value.position.Keys == ledger.position.Keys
    ensures r.Ok? ==> |ledger.log| <= |r.value.log| && r.value.log[..|ledger.log|] == ledger.log
    ensures r.Ok? ==>
              var orders := Run(codec, TickState(rows, row, ledger)).value.orders;
              && orders.Keys <= {Resin, Kelp}
              && r.value.position[Resin] == ledger.position[Resin] + NetQuantity(OrdersFor(orders, Resin))
              && r.value.position[Kelp] == ledger.position[Kelp] + NetQuantity(OrdersFor(orders, Kelp))
              && r.value.cash == ledger.cash - Notional(OrdersFor(orders, Resin)) - Notional(OrdersFor(orders, Kelp))
              && |r.value.log| == |ledger.log| + |OrdersFor(orders, Resin)| + |OrdersFor(orders, Kelp)|
  {
    StepOrderKeys(codec, rows, row, ledger);
    match Run(codec, TickState(rows, row, ledger))
    case Err(_) => Err(StrategyFailed(row.timestamp))
    case Ok(out) => Ok(FillResult(ledger.(traderData := out.traderData), row.timestamp, out.orders))
  }

  /** A tick's result only has entries for resin and kelp, the only books the
      replay builds, so filling those two fills every order. */
  lemma StepOrderKeys(codec: Codec, rows: seq<Row>, row: Row, ledger: Ledger)
    ensures Run(codec, TickState(rows, row, ledger)).Ok? ==>
              Run(codec, TickState(rows, row, ledger)).value.orders.Keys <= {Resin, Kelp}
  {
    if Run(codec, TickState(rows, row, ledger)).Ok? {
      RunOrders(codec, TickState(rows, row, ledger));
    }
  }

  /** The ledger after the first `k` rows, one tick per row. */
  function Replay(codec: Codec, rows: seq<Row>, k: nat): (r: Result<Ledger, BacktestError>)
    requires k <= |rows|
    ensures k == 0 ==> r == Ok(InitialLedger())
    ensures r.Ok? ==> r.value.position.Keys == {Resin, Kelp}
    ensures r.Ok? ==> WithinLimits(r.value)
    ensures r.Ok? ==> AgreesWithLog(r.value)
    ensures r.Ok? && (forall i :: 0 <= i < |rows| ==> AskVolumesNonNegative(rows[i])) ==> OnlySells(r.value.log)
  {
    if k == 0 then
      Ok(InitialLedger())
    else
      match Replay(codec, rows, k - 1)
      case Err(e) => Err(e)
      case Ok(ledger) =>
        StepKeepsLimits(codec, rows, rows[k - 1], ledger);
        StepAgreesWithLog(codec, rows, rows[k - 1], ledger);
        StepOnlySells(codec, rows, rows[k - 1], ledger);
        Step(codec, rows, rows[k - 1], ledger)
  }

  /** The mid-price of the last row of `product` among the first `k` rows. */
  function LastMid(rows: seq<Row>, product: string, k: nat): (r: Option<real>)
    requires k <= |rows|
    ensures r.None? <==> forall i :: 0 <= i < k ==> rows[i].product != product
    ensures r.Some? ==> exists i :: 0 <= i < k && rows[i].product == product && r.value == rows[i].midPrice &&
                          forall j :: i < j < k ==> rows[j].product != product
  {
    if k == 0 then None
    else if rows[k - 1].product == product then Some(rows[k - 1].midPrice)
    else LastMid(rows, product, k - 1)
  }

  /** Close out the replayed ledger: each product's position is sold at its
      final mid-price and one LIQUIDATE line per product is logged. */
  function Liquidate(l: Ledger, resinMid: real, kelpMid: real): (r: (real, seq<LogEntry>))
    requires Resin in l.position && Kelp in l.position
    ensures r.0 == l.cash + l.position[Resin] as real * resinMid + l.position[Kelp] as real * kelpMid
    ensures |r.1| == |l.log| + 2 && r.1[..|l.log|] == l.log
    ensures r.1[|l.log|] == Liquidation(Resin, l.position[Resin], resinMid)
    ensures r.1[|l.log| + 1] == Liquidation(Kelp, l.position[Kelp], kelpMid)
  {
    var afterResin := l.cash + l.position[Resin] as real * resinMid;
    (afterResin + l.position[Kelp] as real * kelpMid,
     l.log + [Liquidation(Resin, l.position[Resin], resinMid), Liquidation(Kelp, l.position[Kelp], kelpMid)])
  }

  /** The whole replay: every row, then resin and kelp liquidated at their
      last mid-prices. Returns the final cash and the trade log. */
  function RunBacktest(codec: Codec, rows: seq<Row>): (r: Result<(real, seq<LogEntry>), BacktestError>)
    ensures r.Ok? <==> Replay(codec, rows, |rows|).Ok? &&
                       LastMid(rows, Resin, |rows|).Some? && LastMid(rows, Kelp, |rows|).Some?
    ensures r.Ok? ==>
              r.value == Liquidate(Replay(codec, rows, |rows|).value,
                                   LastMid(rows, Resin, |rows|).value, LastMid(rows, Kelp, |rows|).value)
  {
    var replay := Replay(codec, rows, |rows|);
    match replay
    case Err(e) => Err(e)
    case Ok(l) =>
      match LastMid(rows, Resin, |rows|)
      case None => Err(NoRowsFor(Resin))
      case Some(resinMid) =>
        match LastMid(rows, Kelp, |rows|)
        case None => Err(NoRowsFor(Kelp))
        case Some(kelpMid) => Ok(Liquidate(l, resinMid, kelpMid))
  }

  /** Both products tracked and both positions inside the limit. */
  ghost predicate WithinLimits(l: Ledger) {
    && l.position.Keys == {Resin, Kelp}
    && WithinLimit(l.position[Resin])
    && WithinLimit(l.position[Kelp])
  }

  /** A tick's orders for a product net to a position inside the limit. */
  lemma OrdersForWithinLimit(state: TradingState, orders: map<string, seq<Order>>, p: string)
    requires OrdersFitBooks(state, orders)
    requires WithinLimit(PositionOf(state.position, p))
    ensures WithinLimit(PositionOf(state.position, p) + NetQuantity(OrdersFor(orders, p)))
  {
  }

  /** One row keeps both positions inside the limit. */
  lemma StepKeepsLimits(codec: Codec, rows: seq<Row>, row: Row, l: Ledger)
    requires Resin in l.position && Kelp in l.position
    ensures WithinLimits(l) && Step(codec, rows, row, l).Ok? ==> WithinLimits(Step(codec, rows, row, l).value)
  {
    var state := TickState(rows, row, l);
    if WithinLimits(l) && Run(codec, state).Ok? {
      var out := Run(codec, state).value;
      RunOrders(codec, state);
      OrdersForWithinLimit(state, out.orders, Resin);
      OrdersForWithinLimit(state, out.orders, Kelp);
    }
  }

  /** One row never makes the strategy fail when the text it is called with
      loads as well-shaped state, and the text it hands on loads as
      well-shaped state again when storing it is faithful. */
  lemma StepKeepsStateWellTyped(codec: Codec, rows: seq<Row>, row: Row, l: Ledger)
    requires Resin in l.position && Kelp in l.position
    ensures WellTyped(LoadState(codec, l.traderData)) ==> Step(codec, rows, row, l).Ok?
    ensures WellTyped(LoadState(codec, l.traderData)) && RoundTrips(codec, Persisted(codec, TickState(rows, row, l))) ==>
              WellTyped(LoadState(codec, Step(codec, rows, row, l).value.traderData))
  {
    var state := TickState(rows, row, l);
    if WellTyped(LoadState(codec, l.traderData)) {
      RunFailsOnlyOnMalformedState(codec, state);
      RunStoresPersisted(codec, state);
      PersistedEntries(codec, state);
    }
  }

  /** The initial ledger is flat and its empty text loads as the empty state. */
  lemma InitialLedgerInvariant(codec: Codec)
    ensures WithinLimits(InitialLedger())
    ensures LoadState(codec, InitialLedger().traderData) == map[]
  {
  }

  /** Storing the state of the tick at row `j` is faithful, unless the replay
      stopped before reaching it. */
  ghost predicate TickRoundTrips(codec: Codec, rows: seq<Row>, j: nat)
    requires j < |rows|
  {
    Replay(codec, rows, j).Ok? ==>
      RoundTrips(codec, Persisted(codec, TickState(rows, rows[j], Replay(codec, rows, j).value)))
  }

  /** When every tick's state is stored faithfully, the replay never stops
      early and always hands on text that loads as well-shaped state. */
  lemma {:induction false} ReplayNeverFails(codec: Codec, rows: seq<Row>, k: nat)
    requires k <= |rows|
    ensures (forall j :: 0 <= j < k ==> TickRoundTrips(codec, rows, j)) ==>
              Replay(codec, rows, k).Ok? && WellTyped(LoadState(codec, Replay(codec, rows, k).value.traderData))
  {
    if k == 0 {
      InitialLedgerInvariant(codec);
    } else if forall j :: 0 <= j < k ==> TickRoundTrips(codec, rows, j) {
      ReplayNeverFails(codec, rows, k - 1);
      var l := Replay(codec, rows, k - 1).value;
      assert TickRoundTrips(codec, rows, k - 1);
      StepKeepsStateWellTyped(codec, rows, rows[k - 1], l);
      assert Replay(codec, rows, k) == Step(codec, rows, rows[k - 1], l);
    }
  }

  /** The backtest fails only when resin or kelp has no row at all, and when
      every tick's state is stored faithfully that is exactly when it fails. */
  lemma BacktestFailsOnlyWithoutRows(codec: Codec, rows: seq<Row>)
    ensures RunBacktest(codec, rows).Ok? ==>
              (exists i :: 0 <= i < |rows| && rows[i].product == Resin) &&
              (exists i :: 0 <= i < |rows| && rows[i].product == Kelp)
    ensures (forall j :: 0 <= j < |rows| ==> TickRoundTrips(codec, rows, j)) ==>
              (RunBacktest(codec, rows).Ok? <==>
                 (exists i :: 0 <= i < |rows| && rows[i].product == Resin) &&
                 (exists i :: 0 <= i < |rows| && rows[i].product == Kelp))
  {
    ReplayNeverFails(codec, rows, |rows|);
    var resin := LastMid(rows, Resin, |rows|);
    var kelp := LastMid(rows, Kelp, |rows|);
    assert RunBacktest(codec, rows).Ok? ==> resin.Some? && kelp.Some?;
  }

  /** The text a tick persists is the text the next tick is called with. */
  lemma StateThreadsThroughTicks(codec: Codec, rows: seq<Row>, k: nat)
    requires 0 < k < |rows|
    ensures Replay(codec, rows, k).Ok? ==>
              TickState(rows, rows[k], Replay(codec, rows, k).value).traderData ==
              Run(codec, TickState(rows, rows[k - 1], Replay(codec, rows, k - 1).value)).value.traderData
  {
  }

  /** A present ask-volume column of a row is never negative. */
  ghost predicate AskVolumesNonNegative(row: Row) {
    forall k :: k in AskVolumeKeys && k in row.numbers ==> row.numbers[k] >= 0.0
  }

  /** Some pair carrying `price` is the last pair carrying it. */
  lemma {:induction false} LastLevelExists(numbers: map<string, real>, priceKeys: seq<string>,
                                           volumeKeys: seq<string>, i: int, price: real)
    requires LevelAt(numbers, priceKeys, volumeKeys, i, price)
    ensures exists j :: LastLevelAt(numbers, priceKeys, volumeKeys, j, price)
    decreases PairCount(priceKeys, volumeKeys) - i
  {
    if exists j :: i < j && LevelAt(numbers, priceKeys, volumeKeys, j, price) {
      var j :| i < j && LevelAt(numbers, priceKeys, volumeKeys, j, price);
      LastLevelExists(numbers, priceKeys, volumeKeys, j, price);
    } else {
      assert LastLevelAt(numbers, priceKeys, volumeKeys, i, price);
    }
  }

  /** A row whose ask volumes are not negative yields an ask side whose
      volumes are not negative. */
  lemma RowAsksNonNegative(row: Row)
    requires AskVolumesNonNegative(row)
    ensures forall price :: price in RowBook(row).sellOrders ==> RowBook(row).sellOrders[price] >= 0
  {
    var levels := RowBook(row).sellOrders;
    forall price | price in levels
      ensures levels[price] >= 0
    {
      var i :| LevelAt(row.numbers, AskPriceKeys, AskVolumeKeys, i, price);
      LastLevelExists(row.numbers, AskPriceKeys, AskVolumeKeys, i, price);
      var j :| LastLevelAt(row.numbers, AskPriceKeys, AskVolumeKeys, j, price);
      assert AskVolumeKeys[j] in AskVolumeKeys;
    }
  }

  /** Every book of a tick comes from some row, so non-negative ask volumes
      in every row give non-negative ask volumes in every book. */
  lemma TickAsksNonNegative(rows: seq<Row>, timestamp: int)
    requires forall i :: 0 <= i < |rows| ==> AskVolumesNonNegative(rows[i])
    ensures forall p, price :: p in TickDepths(rows, timestamp) && price in TickDepths(rows, timestamp)[p].sellOrders ==>
              TickDepths(rows, timestamp)[p].sellOrders[price] >= 0
  {
    var depths := TickDepths(rows, timestamp);
    forall p | p in depths
      ensures forall price :: price in depths[p].sellOrders ==> depths[p].sellOrders[price] >= 0
    {
      RowAsksNonNegative(rows[FirstRowFrom(rows, timestamp, p, 0).value]);
    }
  }

  /** Every fill in the log is a sale. */
  ghost predicate OnlySells(log: seq<LogEntry>) {
    forall i :: 0 <= i < |log| ==> log[i].Fill? && log[i].side == Sell
  }

  /** Filling only sell orders appends only SELL lines. */
  lemma FillOrdersOnlySells(ledger: Ledger, timestamp: int, product: string, orders: seq<Order>)
    requires product in ledger.position
    requires OnlySells(ledger.log)
    requires forall o :: o in orders ==> o.quantity < 0
    ensures OnlySells(FillOrders(ledger, timestamp, product, orders).log)
  {
    var next := FillOrders(ledger, timestamp, product, orders);
    forall i | 0 <= i < |next.log|
      ensures next.log[i].Fill? && next.log[i].side == Sell
    {
      if i < |ledger.log| {
        assert next.log[i] == next.log[..|ledger.log|][i];
      } else {
        assert orders[i - |ledger.log|] in orders;
      }
    }
  }

  /** One row of a replay whose rows offer no negative ask volume appends
      SELL lines only. */
  lemma StepOnlySells(codec: Codec, rows: seq<Row>, row: Row, l: Ledger)
    requires Resin in l.position && Kelp in l.position
    ensures ((forall i :: 0 <= i < |rows| ==> AskVolumesNonNegative(rows[i])) && OnlySells(l.log) &&
             Step(codec, rows, row, l).Ok?) ==>
            OnlySells(Step(codec, rows, row, l).value.log)
  {
    var state := TickState(rows, row, l);
    if (forall i :: 0 <= i < |rows| ==> AskVolumesNonNegative(rows[i])) && OnlySells(l.log) && Run(codec, state).Ok? {
      TickAsksNonNegative(rows, row.timestamp);
      NoBuyWithNonNegativeAskVolumes(codec, state);
      var out := Run(codec, state).value;
      FillResultOnlySells(l.(traderData := out.traderData), row.timestamp, out.orders);
    }
  }

  /** Filling a tick result made only of sell orders appends only SELL lines. */
  lemma FillResultOnlySells(l: Ledger, timestamp: int, orders: map<string, seq<Order>>)
    requires Resin in l.position && Kelp in l.position
    requires OnlySells(l.log)
    requires forall p, o :: p in orders && o in orders[p] ==> o.quantity < 0
    ensures OnlySells(FillResult(l, timestamp, orders).log)
  {
    FillOrdersOnlySells(l, timestamp, Resin, OrdersFor(orders, Resin));
    var l2 := FillOrders(l, timestamp, Resin, OrdersFor(orders, Resin));
    FillOrdersOnlySells(l2, timestamp, Kelp, OrdersFor(orders, Kelp));
  }

  /** The cash one log line moves: a BUY pays its price per unit, a SELL
      receives it, a LIQUIDATE line receives the final position at the
      final mid-price. */
  function EntryCash(e: LogEntry): real {
    match e
    case Fill(_, _, side, quantity, price) =>
      if side == Buy then -(price * quantity as real) else price * quantity as real
    case Liquidation(_, finalPosition, finalMid) => finalPosition as real * finalMid
  }

  /** The change one log line makes to the holding of `product`; a
      LIQUIDATE line sells the whole final position. */
  function EntryQuantity(e: LogEntry, product: string): int {
    if e.product != product then 0
    else
      match e
      case Fill(_, _, side, quantity, _) => if side == Buy then quantity else -(quantity as int)
      case Liquidation(_, finalPosition, _) => -finalPosition
  }

  /** The cash a log adds up to. */
  function LogCash(log: seq<LogEntry>): real {
    if log == [] then 0.0 else LogCash(log[..|log| - 1]) + EntryCash(log[|log| - 1])
  }

  /** The holding of `product` a log adds up to. */
  function LogPosition(log: seq<LogEntry>, product: string): int {
    if log == [] then 0 else LogPosition(log[..|log| - 1], product) + EntryQuantity(log[|log| - 1], product)
  }

  /** The ledger's cash and positions are what its log adds up to. */
  ghost predicate AgreesWithLog(l: Ledger) {
    && l.cash == LogCash(l.log)
    && forall p :: p in l.position ==> l.position[p] == LogPosition(l.log, p)
  }

  /** Appending a line adds its cash and its quantity. */
  lemma LogAppend(log: seq<LogEntry>, e: LogEntry)
    ensures LogCash(log + [e]) == LogCash(log) + EntryCash(e)
    ensures forall p :: LogPosition(log + [e], p) == LogPosition(log, p) + EntryQuantity(e, p)
  {
    assert (log + [e])[..|log|] == log;
  }

  /** The log line of a fill records exactly the cash and the quantity the
      fill moves. */
  lemma FillEntryAccounts(timestamp: int, product: string, order: Order)
    ensures EntryCash(FillEntry(timestamp, product, order)) == -(order.price * order.quantity as real)
    ensures EntryQuantity(FillEntry(timestamp, product, order), product) == order.quantity
    ensures forall p :: p != product ==> EntryQuantity(FillEntry(timestamp, product, order), p) == 0
  {
    if order.quantity <= 0 {
      assert order.price * (-order.quantity) as real == -(order.price * order.quantity as real);
    }
  }

  /** One fill keeps the ledger in line with its log. */
  lemma ApplyFillAgrees(ledger: Ledger, timestamp: int, product: string, order: Order)
    requires product in ledger.position
    requires AgreesWithLog(ledger)
    ensures AgreesWithLog(ApplyFill(ledger, timestamp, product, order))
  {
    LogAppend(ledger.log, FillEntry(timestamp, product, order));
    FillEntryAccounts(timestamp, product, order);
  }

  /** Filling a list of orders keeps the ledger in line with its log. */
  lemma {:induction false} FillOrdersAgrees(ledger: Ledger, timestamp: int, product: string, orders: seq<Order>)
    requires product in ledger.position
    requires AgreesWithLog(ledger)
    ensures AgreesWithLog(FillOrders(ledger, timestamp, product, orders))
    decreases |orders|
  {
    if orders != [] {
      var n := |orders| - 1;
      FillOrdersAgrees(ledger, timestamp, product, orders[..n]);
      ApplyFillAgrees(FillOrders(ledger, timestamp, product, orders[..n]), timestamp, product, orders[n]);
    }
  }

  /** One row keeps cash and positions in line with the trade log. */
  lemma StepAgreesWithLog(codec: Codec, rows: seq<Row>, row: Row, l: Ledger)
    requires Resin in l.position && Kelp in l.position
    ensures AgreesWithLog(l) && Step(codec, rows, row, l).Ok? ==> AgreesWithLog(Step(codec, rows, row, l).value)
  {
    var state := TickState(rows, row, l);
    if AgreesWithLog(l) && Run(codec, state).Ok? {
      var out := Run(codec, state).value;
      var l1 := l.(traderData := out.traderData);
      FillOrdersAgrees(l1, row.timestamp, Resin, OrdersFor(out.orders, Resin));
      var l2 := FillOrders(l1, row.timestamp, Resin, OrdersFor(out.orders, Resin));
      FillOrdersAgrees(l2, row.timestamp, Kelp, OrdersFor(out.orders, Kelp));
      assert Step(codec, rows, row, l).value == FillResult(l1, row.timestamp, out.orders);
    }
  }

  /** Liquidating a ledger that agrees with its log leaves a log whose cash
      flows add up to the final cash and whose holdings are flat. */
  lemma LiquidateBalances(l: Ledger, resinMid: real, kelpMid: real)
    requires Resin in l.position && Kelp in l.position
    requires AgreesWithLog(l)
    ensures Liquidate(l, resinMid, kelpMid).0 == LogCash(Liquidate(l, resinMid, kelpMid).1)
    ensures LogPosition(Liquidate(l, resinMid, kelpMid).1, Resin) == 0
    ensures LogPosition(Liquidate(l, resinMid, kelpMid).1, Kelp) == 0
  {
    var e1 := Liquidation(Resin, l.position[Resin], resinMid);
    var e2 := Liquidation(Kelp, l.position[Kelp], kelpMid);
    var log1 := l.log + [e1];
    var log2 := log1 + [e2];
    assert Liquidate(l, resinMid, kelpMid).1 == log2;
    LiquidateCash(l.log, log1, log2, e1, e2);
    LiquidatePosition(l.log, log1, log2, e1, e2, Resin);
    LiquidatePosition(l.log, log1, log2, e1, e2, Kelp);
  }

  /** The cash of a log grown by two lines. */
  lemma LiquidateCash(log: seq<LogEntry>, log1: seq<LogEntry>, log2: seq<LogEntry>, e1: LogEntry, e2: LogEntry)
    requires log1 == log + [e1] && log2 == log1 + [e2]
    ensures LogCash(log2) == LogCash(log) + EntryCash(e1) + EntryCash(e2)
  {
    LogAppend(log, e1);
    LogAppend(log1, e2);
  }

  /** The holding of a log grown by two lines. */
  lemma LiquidatePosition(log: seq<LogEntry>, log1: seq<LogEntry>, log2: seq<LogEntry>, e1: LogEntry, e2: LogEntry,
                          p: string)
    requires log1 == log + [e1] && log2 == log1 + [e2]
    ensures LogPosition(log2, p) == LogPosition(log, p) + EntryQuantity(e1, p) + EntryQuantity(e2, p)
  {
    LogAppend(log, e1);
    LogAppend(log1, e2);
  }

  /** The final cash the backtest reports is the sum of the cash flows of its
      log, and after the LIQUIDATE lines the log leaves both products flat. */
  lemma BacktestBalancesLog(codec: Codec, rows: seq<Row>)
    ensures RunBacktest(codec, rows).Ok? ==>
              && RunBacktest(codec, rows).value.0 == LogCash(RunBacktest(codec, rows).value.1)
              && LogPosition(RunBacktest(codec, rows).value.1, Resin) == 0
              && LogPosition(RunBacktest(codec, rows).value.1, Kelp) == 0
  {
    if !RunBacktest(codec, rows).Ok? {
      return;
    }
    var l := Replay(codec, rows, |rows|).value;
    LiquidateBalances(l, LastMid(rows, Resin, |rows|).value, LastMid(rows, Kelp, |rows|).value);
  }

  /** The number of resin and kelp orders the strategy returns at a row. */
  ghost function TickOrderCount(codec: Codec, rows: seq<Row>, row: Row, l: Ledger): nat {
    match Run(codec, TickState(rows, row, l))
    case Err(_) => 0
    case Ok(out) => |OrdersFor(out.orders, Resin)| + |OrdersFor(out.orders, Kelp)|
  }

  /** The number of orders the strategy returns over the first `k` rows. */
  ghost function ReplayOrderCount(codec: Codec, rows: seq<Row>, k: nat): nat
    requires k <= |rows|
  {
    if k == 0 then 0
    else
      match Replay(codec, rows, k - 1)
      case Err(_) => 0
      case Ok(l) => ReplayOrderCount(codec, rows, k - 1) + TickOrderCount(codec, rows, rows[k - 1], l)
  }

  /** The replayed log holds one line per order the strategy returned. */
  lemma ReplayLogLength(codec: Codec, rows: seq<Row>, k: nat)
    requires k <= |rows|
    ensures Replay(codec, rows, k).Ok? ==> |Replay(codec, rows, k).value.log| == ReplayOrderCount(codec, rows, k)
  {
    ReplayLogStart(codec, rows);
    var i := 0;
    while i < k
      invariant i <= k
      invariant Replay(codec, rows, i).Ok? ==> |Replay(codec, rows, i).value.log| == ReplayOrderCount(codec, rows, i)
    {
      ReplayLogStep(codec, rows, i + 1);
      i := i + 1;
    }
  }

  /** Before the first row the log is empty and no order was returned. */
  lemma ReplayLogStart(codec: Codec, rows: seq<Row>)
    ensures Replay(codec, rows, 0).Ok? && Replay(codec, rows, 0).value.log == []
    ensures ReplayOrderCount(codec, rows, 0) == 0
  {
  }

  /** If the log had one line per order before a row, it still does after it. */
  lemma ReplayLogStep(codec: Codec, rows: seq<Row>, k: nat)
    requires 0 < k <= |rows|
    ensures Replay(codec, rows, k).Ok? &&
            (Replay(codec, rows, k - 1).Ok? ==>
               |Replay(codec, rows, k - 1).value.log| == ReplayOrderCount(codec, rows, k - 1)) ==>
            |Replay(codec, rows, k).value.log| == ReplayOrderCount(codec, rows, k)
  {
    if Replay(codec, rows, k).Ok? {
      var l := Replay(codec, rows, k - 1).value;
      assert Replay(codec, rows, k) == Step(codec, rows, rows[k - 1], l);
      StepLogLength(codec, rows, rows[k - 1], l);
      assert ReplayOrderCount(codec, rows, k) ==
             ReplayOrderCount(codec, rows, k - 1) + TickOrderCount(codec, rows, rows[k - 1], l);
    }
  }

  /** One row appends one log line per order the strategy returned. */
  lemma StepLogLength(codec: Codec, rows: seq<Row>, row: Row, l: Ledger)
    requires Resin in l.position && Kelp in l.position
    ensures Step(codec, rows, row, l).Ok? ==>
              |Step(codec, rows, row, l).value.log| == |l.log| + TickOrderCount(codec, rows, row, l)
  {
  }

  /** The backtest's log holds one line per order the strategy returned, then
      the two LIQUIDATE lines. */
  lemma BacktestLogLength(codec: Codec, rows: seq<Row>)
    ensures RunBacktest(codec, rows).Ok? ==>
              |RunBacktest(codec, rows).value.1| == ReplayOrderCount(codec, rows, |rows|) + 2
  {
    ReplayLogLength(codec, rows, |rows|);
  }
}
