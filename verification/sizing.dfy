/** Capacity-bounded order sizing shared by the resin and kelp rules. */
module Sizing {
  import opened Basics
  import opened DataModel
  import opened Book

  /** The absolute position limit of every product. */
  const PositionLimit: int := 50

  /** Units that can still be bought before the long limit. */
  function BuyCapacity(position: int): int {
    PositionLimit - position
  }

  /** Units that can still be sold before the short limit. */
  function SellCapacity(position: int): int {
    PositionLimit + position
  }

  /** A position within the limit on both sides. */
  predicate WithinLimit(position: int) {
    -PositionLimit <= position <= PositionLimit
  }

  /** The size of a buy against an ask level: the remaining buy capacity,
      capped by the NEGATED volume of the level. */
  function BuySize(position: int, askVolume: int): (r: int)
    ensures r <= BuyCapacity(position) && r <= -askVolume
    ensures r == BuyCapacity(position) || r == -askVolume
  {
    Min(BuyCapacity(position), -askVolume)
  }

  /** The size of a sell against a bid level: the remaining sell capacity,
      capped by the volume of the level. */
  function SellSize(position: int, bidVolume: int): (r: int)
    ensures r <= SellCapacity(position) && r <= bidVolume
    ensures r == SellCapacity(position) || r == bidVolume
  {
    Min(SellCapacity(position), bidVolume)
  }

  /** Buy at the best ask when it is below `threshold`, there is capacity left,
      and the sized order is positive; otherwise no order. */
  function TakeAsk(product: string, depth: OrderDepth, position: int, threshold: real): (r: seq<Order>)
    ensures |r| <= 1
    ensures r != [] <==>
              && BestAsk(depth).Some?
              && BestAsk(depth).value < threshold
              && BuySize(position, depth.sellOrders[BestAsk(depth).value]) > 0
    ensures r != [] ==>
              r[0] == Order(product, BestAsk(depth).value,
                            BuySize(position, depth.sellOrders[BestAsk(depth).value]))
    ensures forall o :: o in r ==> 0 < o.quantity <= BuyCapacity(position)
  {
    match BestAsk(depth)
    case None => []
    case Some(ask) =>
      if ask < threshold && BuyCapacity(position) > 0 then
        var size := BuySize(position, depth.sellOrders[ask]);
        if size > 0 then [Order(product, ask, size)] else []
      else []
  }

  /** Sell at the best bid when it is above `threshold`, there is capacity
      left, and the sized order is positive; otherwise no order. */
  function HitBid(product: string, depth: OrderDepth, position: int, threshold: real): (r: seq<Order>)
    ensures |r| <= 1
    ensures r != [] <==>
              && BestBid(depth).Some?
              && BestBid(depth).value > threshold
              && SellSize(position, depth.buyOrders[BestBid(depth).value]) > 0
    ensures r != [] ==>
              r[0] == Order(product, BestBid(depth).value,
                            -SellSize(position, depth.buyOrders[BestBid(depth).value]))
    ensures forall o :: o in r ==> -SellCapacity(position) <= o.quantity < 0
  {
    match BestBid(depth)
    case None => []
    case Some(bid) =>
      if bid > threshold && SellCapacity(position) > 0 then
        var size := SellSize(position, depth.buyOrders[bid]);
        if size > 0 then [Order(product, bid, -size)] else []
      else []
  }

  /** The net quantity of two order lists filled one after the other. */
  lemma {:induction false} NetQuantityAppend(a: seq<Order>, b: seq<Order>)
    ensures NetQuantity(a + b) == NetQuantity(a) + NetQuantity(b)
    decreases |b|
  {
    if b == [] {
      assert a + b == a;
    } else {
      var b' := b[..|b| - 1];
      assert (a + b)[..|a + b| - 1] == a + b';
      NetQuantityAppend(a, b');
    }
  }

  /** A list of at most one order nets to that order's quantity. */
  lemma NetQuantitySingle(r: seq<Order>)
    requires |r| <= 1
    ensures NetQuantity(r) == if r == [] then 0 else r[0].quantity
  {
    if r != [] {
      assert r[..0] == [];
    }
  }

  /** Filling at most one buy bounded by the buy capacity and at most one sell
      bounded by the sell capacity keeps a position inside the limit, also
      when both fire in the same tick. */
  lemma {:induction false} TakeAndHitWithinLimit(buys: seq<Order>, sells: seq<Order>, position: int)
    requires |buys| <= 1 && forall o :: o in buys ==> 0 < o.quantity <= BuyCapacity(position)
    requires |sells| <= 1 && forall o :: o in sells ==> -SellCapacity(position) <= o.quantity < 0
    ensures WithinLimit(position) ==> WithinLimit(position + NetQuantity(buys + sells))
  {
    NetQuantityAppend(buys, sells);
    NetQuantitySingle(buys);
    NetQuantitySingle(sells);
    if buys != [] {
      assert buys[0] in buys;
    }
    if sells != [] {
      assert sells[0] in sells;
    }
  }
}
