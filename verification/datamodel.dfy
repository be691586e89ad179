/** The record types exchanged between the replay loop and the strategy. */
module DataModel {
  import opened Basics

  const Resin: string := "RAINFOREST_RESIN"
  const Kelp: string := "KELP"

  /** An order: positive quantity buys, negative quantity sells. */
  datatype Order = Order(product: string, price: real, quantity: int)

  /** One product's book: price -> volume for resting buy and sell interest.
      No sign is assumed on the volumes. */
  datatype OrderDepth = OrderDepth(buyOrders: map<real, int>, sellOrders: map<real, int>)

  /** The per-tick view the strategy is called with. */
  datatype TradingState = TradingState(
    timestamp: int,
    orderDepths: map<string, OrderDepth>,
    position: map<string, int>,
    traderData: string)

  /** One persisted value: the resin mean (a JSON number) or the kelp
      averages (a JSON object whose two keys may each be missing). */
  datatype Memo =
    | Mean(mean: real)
    | Averages(shortMa: Option<real>, longMa: Option<real>)

  /** The decoded persisted state: a JSON object keyed by product. */
  type TraderData = map<string, Memo>

  /** The JSON text layer, which is outside the model: a decoder that may
      fail and an encoder. */
  datatype Codec = Codec(parse: string -> Option<TraderData>, dump: TraderData -> string)

  /** Storing `data` is faithful: the encoder does not produce the empty
      text for it and the decoder reads back exactly `data`. */
  predicate RoundTrips(codec: Codec, data: TraderData) {
    codec.dump(data) != "" && codec.parse(codec.dump(data)) == Some(data)
  }

  /** What the strategy returns for one tick. */
  datatype TickOutput = TickOutput(orders: map<string, seq<Order>>, conversions: int, traderData: string)

  /** The position the strategy reads for a product, `position.get(product, 0)`. */
  function PositionOf(position: map<string, int>, product: string): (r: int)
    ensures product in position ==> r == position[product]
    ensures product !in position ==> r == 0
  {
    if product in position then position[product] else 0
  }

  /** The persisted value stored under a product, if any. */
  function Stored(data: TraderData, product: string): (r: Option<Memo>)
    ensures r.Some? <==> product in data
    ensures r.Some? ==> r.value == data[product]
  {
    if product in data then Some(data[product]) else None
  }

  /** The sum of the quantities of a list of orders: the net position change
      once all of them are filled. */
  function NetQuantity(orders: seq<Order>): int
  {
    if orders == [] then 0 else NetQuantity(orders[..|orders| - 1]) + orders[|orders| - 1].quantity
  }
}
