/** Reading an order book: best prices and the mid-price with its one-sided fallbacks. */
module Book {
  import opened Basics
  import opened DataModel

  /** `lo` is the least element of `s`. */
  ghost predicate IsLeast(lo: real, s: set<real>) {
    lo in s && forall k :: k in s ==> lo <= k
  }

  /** `hi` is the greatest element of `s`. */
  ghost predicate IsGreatest(hi: real, s: set<real>) {
    hi in s && forall k :: k in s ==> k <= hi
  }

  /** A set of positive size has an element. */
  lemma HasElement(s: set<real>)
    requires |s| > 0
    ensures exists x :: x in s
  {
    if forall x :: x !in s {
      assert false;
    }
  }

  /** Every non-empty finite set of prices has a least element. */
  lemma {:induction false} LeastExists(s: set<real>)
    requires |s| > 0
    ensures exists lo :: IsLeast(lo, s)
  {
    HasElement(s);
    var x :| x in s;
    var rest := s - {x};
    if |rest| == 0 {
      assert s == {x};
      assert IsLeast(x, s);
    } else {
      LeastExists(rest);
      var lo :| IsLeast(lo, rest);
      var m := if x < lo then x else lo;
      forall k | k in s
        ensures m <= k
      {
        if k != x {
          assert k in rest;
        }
      }
      assert IsLeast(m, s);
    }
  }

  /** Every non-empty finite set of prices has a greatest element. */
  lemma {:induction false} GreatestExists(s: set<real>)
    requires |s| > 0
    ensures exists hi :: IsGreatest(hi, s)
  {
    HasElement(s);
    var x :| x in s;
    var rest := s - {x};
    if |rest| == 0 {
      assert s == {x};
      assert IsGreatest(x, s);
    } else {
      GreatestExists(rest);
      var hi :| IsGreatest(hi, rest);
      var m := if hi < x then x else hi;
      forall k | k in s
        ensures k <= m
      {
        if k != x {
          assert k in rest;
        }
      }
      assert IsGreatest(m, s);
    }
  }

  /** The lowest price level of a book side, none when the side is empty. */
  function LowestPrice(book: map<real, int>): (r: Option<real>)
    ensures r.None? <==> |book| == 0
    ensures r.Some? ==> r.value in book && forall k :: k in book ==> r.value <= k
  {
    if |book| == 0 then None
    else
      LeastExists(book.Keys);
      var lo :| lo in book.Keys && forall k :: k in book.Keys ==> lo <= k;
      Some(lo)
  }

  /** The highest price level of a book side, none when the side is empty. */
  function HighestPrice(book: map<real, int>): (r: Option<real>)
    ensures r.None? <==> |book| == 0
    ensures r.Some? ==> r.value in book && forall k :: k in book ==> k <= r.value
  {
    if |book| == 0 then None
    else
      GreatestExists(book.Keys);
      var hi :| hi in book.Keys && forall k :: k in book.Keys ==> k <= hi;
      Some(hi)
  }

  /** The best (lowest) ask of a product's book. */
  function BestAsk(depth: OrderDepth): Option<real> {
    LowestPrice(depth.sellOrders)
  }

  /** The best (highest) bid of a product's book. */
  function BestBid(depth: OrderDepth): Option<real> {
    HighestPrice(depth.buyOrders)
  }

  /** A book with at least one price level on either side. */
  predicate Quoted(depth: OrderDepth) {
    |depth.buyOrders| > 0 || |depth.sellOrders| > 0
  }

  /** The mid-price: the average of the best bid and best ask, 0.99 times the
      ask when only asks rest, 1.01 times the bid when only bids rest, and
      nothing when the book is empty on both sides. */
  function MidPrice(bestBid: Option<real>, bestAsk: Option<real>): (r: Option<real>)
    ensures r.None? <==> bestBid.None? && bestAsk.None?
    ensures bestBid.Some? && bestAsk.Some? && bestBid.value <= bestAsk.value ==>
              bestBid.value <= r.value <= bestAsk.value
    ensures bestBid.Some? && bestAsk.Some? ==> r.value - bestBid.value == bestAsk.value - r.value
    ensures bestBid.None? && bestAsk.Some? ==> r.value == 0.99 * bestAsk.value
    ensures bestBid.Some? && bestAsk.None? ==> r.value == 1.01 * bestBid.value
    ensures bestBid.None? && bestAsk.Some? && bestAsk.value > 0.0 ==> r.value < bestAsk.value
    ensures bestBid.Some? && bestAsk.None? && bestBid.value > 0.0 ==> r.value > bestBid.value
  {
    match (bestBid, bestAsk)
    case (Some(bid), Some(ask)) => Some((bid + ask) / 2.0)
    case (None, Some(ask)) => Some(ask * 0.99)
    case (Some(bid), None) => Some(bid * 1.01)
    case (None, None) => None
  }

  /** The mid-price of a product's book. */
  function BookMid(depth: OrderDepth): (r: Option<real>)
    ensures r.Some? <==> Quoted(depth)
  {
    MidPrice(BestBid(depth), BestAsk(depth))
  }
}
