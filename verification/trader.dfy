/** The per-tick strategy: resin mean reversion and kelp moving-average crossover. */
module Trader {
  import opened Basics
  import opened DataModel
  import opened Book
  import opened Sizing

  /** Smoothing factor of the resin mean. */
  const ResinAlpha: real := 0.1
  /** Smoothing factor of the kelp short average. */
  const KelpShortAlpha: real := 0.3
  /** Smoothing factor of the kelp long average. */
  const KelpLongAlpha: real := 0.1

  /** Why a tick can fail: a persisted value of the wrong shape for its product
      (the source raises a type or attribute error). */
  datatype RunError = MalformedState

  /** What the strategy does with one product: skip it (no quotes), or
      return its orders and the value to persist under its key, if any. */
  datatype ProductOutcome = Skipped | Traded(orders: seq<Order>, memo: Option<Memo>)

  /** One exponential-smoothing step: move `prev` towards `x` by `alpha`. */
  function Ewma(alpha: real, x: real, prev: real): (r: real)
    requires 0.0 <= alpha <= 1.0
    ensures prev <= x ==> prev <= r <= x
    ensures x <= prev ==> x <= r <= prev
    ensures prev == x ==> r == x
    ensures 0.0 < alpha < 1.0 && prev != x ==> r != prev && r != x
  {
    var r := alpha * x + (1.0 - alpha) * prev;
    ProductSign(alpha, x - prev);
    ProductSign(1.0 - alpha, x - prev);
    assert r == prev + alpha * (x - prev);
    assert x == r + (1.0 - alpha) * (x - prev);
    r
  }

  /** The sign of a product with a non-negative factor. */
  lemma ProductSign(a: real, d: real)
    requires 0.0 <= a
    ensures 0.0 <= d ==> 0.0 <= a * d
    ensures d <= 0.0 ==> a * d <= 0.0
    ensures 0.0 < a && d != 0.0 ==> a * d != 0.0
  {
  }

  /** Decode the persisted state: the empty text and text that does not
      decode both give the empty state, never an error. */
  function LoadState(codec: Codec, blob: string): (data: TraderData)
    ensures blob == "" ==> data == map[]
    ensures codec.parse(blob).None? ==> data == map[]
    ensures blob != "" && codec.parse(blob).Some? ==> data == codec.parse(blob).value
  {
    if blob == "" then map[]
    else
      match codec.parse(blob)
      case None => map[]
      case Some(data) => data
  }

  /** The next tick loads exactly what this tick stored when storing it is
      faithful; for non-empty state that is also the only way to get it back. */
  lemma LoadDumpRoundTrip(codec: Codec, data: TraderData)
    ensures RoundTrips(codec, data) ==> LoadState(codec, codec.dump(data)) == data
    ensures data != map[] && LoadState(codec, codec.dump(data)) == data ==> RoundTrips(codec, data)
  {
  }

  /** The value stored under `product` has the wrong shape for it. */
  predicate Mismatched(data: TraderData, product: string) {
    product in data &&
    ((product == Resin && data[product].Averages?) || (product == Kelp && data[product].Mean?))
  }

  /** Every stored resin value is a mean and every stored kelp value a pair. */
  predicate WellTyped(data: TraderData) {
    !Mismatched(data, Resin) && !Mismatched(data, Kelp)
  }

  /** The resin mean to compare against: the stored one, or the mid-price
      when none is stored. */
  function ResinPrior(stored: Option<Memo>, mid: real): (r: Result<real, RunError>)
    ensures r.Err? <==> stored.Some? && stored.value.Averages?
    ensures stored.None? ==> r == Ok(mid)
    ensures stored.Some? && stored.value.Mean? ==> r == Ok(stored.value.mean)
  {
    match stored
    case None => Ok(mid)
    case Some(Mean(m)) => Ok(m)
    case Some(Averages(_, _)) => Err(MalformedState)
  }

  /** The kelp averages before this tick; each missing one defaults to the mid-price. */
  function KelpPrior(stored: Option<Memo>, mid: real): (r: Result<(real, real), RunError>)
    ensures r.Err? <==> stored.Some? && stored.value.Mean?
    ensures stored.None? ==> r == Ok((mid, mid))
    ensures stored.Some? && stored.value.Averages? ==>
              r == Ok((stored.value.shortMa.GetOr(mid), stored.value.longMa.GetOr(mid)))
  {
    match stored
    case None => Ok((mid, mid))
    case Some(Averages(s, l)) => Ok((s.GetOr(mid), l.GetOr(mid)))
    case Some(Mean(_)) => Err(MalformedState)
  }

  /** Resin mean reversion: buy the best ask below the prior mean and sell
      the best bid above it; both may fire in one tick. */
  function ResinOrders(depth: OrderDepth, position: int, prior: real): (r: seq<Order>)
    ensures |r| <= 2
    ensures |r| == 2 ==> r[0].quantity > 0 && r[1].quantity < 0
    ensures forall o :: o in r ==> o.product == Resin && o.quantity != 0
    ensures forall o :: o in r && o.quantity > 0 ==>
              BestAsk(depth) == Some(o.price) && o.price < prior &&
              o.quantity == BuySize(position, depth.sellOrders[o.price])
    ensures forall o :: o in r && o.quantity < 0 ==>
              BestBid(depth) == Some(o.price) && o.price > prior &&
              -o.quantity == SellSize(position, depth.buyOrders[o.price])
    ensures (exists o :: o in r && o.quantity > 0) <==>
              && BestAsk(depth).Some? && BestAsk(depth).value < prior
              && BuySize(position, depth.sellOrders[BestAsk(depth).value]) > 0
    ensures (exists o :: o in r && o.quantity < 0) <==>
              && BestBid(depth).Some? && BestBid(depth).value > prior
              && SellSize(position, depth.buyOrders[BestBid(depth).value]) > 0
    ensures WithinLimit(position) ==> WithinLimit(position + NetQuantity(r))
  {
    var buys := TakeAsk(Resin, depth, position, prior);
    var sells := HitBid(Resin, depth, position, prior);
    var r := buys + sells;
    TakeAndHitWithinLimit(buys, sells, position);
    BuyBeforeSell(buys, sells, r);
    ResinOrderSides(depth, position, prior, buys, sells, r);
    r
  }

  /** The buy comes from the best ask and the sell from the best bid, each
      present exactly when its side fires. */
  lemma ResinOrderSides(depth: OrderDepth, position: int, prior: real, buys: seq<Order>, sells: seq<Order>,
                        r: seq<Order>)
    requires buys == TakeAsk(Resin, depth, position, prior)
    requires sells == HitBid(Resin, depth, position, prior)
    requires r == buys + sells
    ensures forall o :: o in r ==> o.product == Resin && o.quantity != 0
    ensures forall o :: o in r && o.quantity > 0 ==>
              BestAsk(depth) == Some(o.price) && o.price < prior &&
              o.quantity == BuySize(position, depth.sellOrders[o.price])
    ensures forall o :: o in r && o.quantity < 0 ==>
              BestBid(depth) == Some(o.price) && o.price > prior &&
              -o.quantity == SellSize(position, depth.buyOrders[o.price])
    ensures (exists o :: o in r && o.quantity > 0) <==>
              && BestAsk(depth).Some? && BestAsk(depth).value < prior
              && BuySize(position, depth.sellOrders[BestAsk(depth).value]) > 0
    ensures (exists o :: o in r && o.quantity < 0) <==>
              && BestBid(depth).Some? && BestBid(depth).value > prior
              && SellSize(position, depth.buyOrders[BestBid(depth).value]) > 0
  {
    assert forall o :: o in buys + sells <==> o in buys || o in sells;
    assert buys != [] ==> buys[0] in buys + sells;
    assert sells != [] ==> sells[0] in buys + sells;
  }

  /** At most one buy followed by at most one sell: two orders are the buy
      and then the sell. */
  lemma BuyBeforeSell(buys: seq<Order>, sells: seq<Order>, r: seq<Order>)
    requires |buys| <= 1 && forall o :: o in buys ==> o.quantity > 0
    requires |sells| <= 1 && forall o :: o in sells ==> o.quantity < 0
    requires r == buys + sells
    ensures |r| <= 2
    ensures |r| == 2 ==> r[0].quantity > 0 && r[1].quantity < 0
  {
    if |r| == 2 {
      assert buys[0] in buys && sells[0] in sells;
    }
  }

  /** Kelp crossover: buy the best ask below the short average when the short
      average is above the long one, sell the best bid above the short average
      when it is below; equal averages never trade. */
  function KelpOrders(depth: OrderDepth, position: int, shortMa: real, longMa: real): (r: seq<Order>)
    ensures |r| <= 1
    ensures shortMa == longMa ==> r == []
    ensures forall o :: o in r ==> o.product == Kelp && o.quantity != 0
    ensures forall o :: o in r && o.quantity > 0 ==>
              shortMa > longMa && BestAsk(depth) == Some(o.price) && o.price < shortMa &&
              o.quantity == BuySize(position, depth.sellOrders[o.price])
    ensures forall o :: o in r && o.quantity < 0 ==>
              shortMa < longMa && BestBid(depth) == Some(o.price) && o.price > shortMa &&
              -o.quantity == SellSize(position, depth.buyOrders[o.price])
    ensures shortMa > longMa ==>
              (r != [] <==> BestAsk(depth).Some? && BestAsk(depth).value < shortMa &&
                            BuySize(position, depth.sellOrders[BestAsk(depth).value]) > 0)
    ensures shortMa < longMa ==>
              (r != [] <==> BestBid(depth).Some? && BestBid(depth).value > shortMa &&
                            SellSize(position, depth.buyOrders[BestBid(depth).value]) > 0)
    ensures WithinLimit(position) ==> WithinLimit(position + NetQuantity(r))
  {
    var r := if shortMa > longMa then TakeAsk(Kelp, depth, position, shortMa)
             else if shortMa < longMa then HitBid(Kelp, depth, position, shortMa)
             else [];
    NetQuantitySingle(r);
    assert r != [] ==> r[0] in r;
    r
  }

  /** The strategy's work on one product's book. */
  function ProductTick(product: string, depth: OrderDepth, position: int, stored: Option<Memo>)
    : (r: Result<ProductOutcome, RunError>)
    ensures !Quoted(depth) ==> r == Ok(Skipped)
    ensures r.Err? <==>
              Quoted(depth) && stored.Some? &&
              ((product == Resin && stored.value.Averages?) || (product == Kelp && stored.value.Mean?))
    ensures Quoted(depth) && r.Ok? ==> r.value.Traded?
  {
    match BookMid(depth)
    case None => Ok(Skipped)
    case Some(mid) =>
      if product == Resin then
        match ResinPrior(stored, mid)
        case Err(e) => Err(e)
        case Ok(prior) =>
          Ok(Traded(ResinOrders(depth, position, prior), Some(Mean(Ewma(ResinAlpha, mid, prior)))))
      else if product == Kelp then
        match KelpPrior(stored, mid)
        case Err(e) => Err(e)
        case Ok((s, l)) =>
          var shortMa := Ewma(KelpShortAlpha, mid, s);
          var longMa := Ewma(KelpLongAlpha, mid, l);
          Ok(Traded(KelpOrders(depth, position, shortMa, longMa), Some(Averages(Some(shortMa), Some(longMa)))))
      else
        Ok(Traded([], None))
  }

  /** What a traded product returns: no orders and nothing stored for
      products other than resin and kelp, orders for its own product only,
      the position limit kept, and a stored value of the product's shape. */
  lemma ProductTickOrders(product: string, depth: OrderDepth, position: int, stored: Option<Memo>)
    requires ProductTick(product, depth, position, stored).Ok?
    requires ProductTick(product, depth, position, stored).value.Traded?
    ensures var t := ProductTick(product, depth, position, stored).value;
            && (product != Resin && product != Kelp ==> t == Traded([], None))
            && (forall o :: o in t.orders ==> o.product == product)
            && (WithinLimit(position) ==> WithinLimit(position + NetQuantity(t.orders)))
            && (t.memo.Some? ==>
                  (product == Resin && t.memo.value.Mean?) || (product == Kelp && t.memo.value.Averages?))
  {
  }

  /** Per product: what each product's book gives. */
  function Outcomes(state: TradingState, data: TraderData): map<string, Result<ProductOutcome, RunError>> {
    map p | p in state.orderDepths ::
      ProductTick(p, state.orderDepths[p], PositionOf(state.position, p), Stored(data, p))
  }

  /** The values this tick persists, keyed by product. */
  function Updates(outs: map<string, Result<ProductOutcome, RunError>>): TraderData {
    map p | p in outs && outs[p].Ok? && outs[p].value.Traded? && outs[p].value.memo.Some? ::
      outs[p].value.memo.value
  }

  /** The state a tick stores: the loaded state with the entries of the
      quoted resin and kelp books added or replaced. */
  function Persisted(codec: Codec, state: TradingState): TraderData {
    var data := LoadState(codec, state.traderData);
    data + Updates(Outcomes(state, data))
  }

  /** One strategy call: load the persisted state, work through every
      product's book, and store the updated state. */
  function Run(codec: Codec, state: TradingState): (r: Result<TickOutput, RunError>)
    ensures r.Ok? ==> r.value.conversions == 1
  {
    var data := LoadState(codec, state.traderData);
    var outs := Outcomes(state, data);
    if exists p :: p in outs && outs[p].Err? then
      Err(MalformedState)
    else
      var orders := map p | p in outs && outs[p].Ok? && outs[p].value.Traded? :: outs[p].value.orders;
      Ok(TickOutput(orders, 1, codec.dump(data + Updates(outs))))
  }

  /** A tick fails exactly when a quoted resin or kelp book meets a persisted
      value of the wrong shape; absent or undecodable state never fails. */
  lemma RunFailsOnlyOnMalformedState(codec: Codec, state: TradingState)
    ensures Run(codec, state).Err? <==>
              exists p :: p in state.orderDepths && Quoted(state.orderDepths[p]) &&
                          Mismatched(LoadState(codec, state.traderData), p)
    ensures WellTyped(LoadState(codec, state.traderData)) ==> Run(codec, state).Ok?
  {
    var data := LoadState(codec, state.traderData);
    var outs := Outcomes(state, data);
    forall p | p in state.orderDepths
      ensures outs[p].Err? <==> Quoted(state.orderDepths[p]) && Mismatched(data, p)
    {
      assert outs[p] == ProductTick(p, state.orderDepths[p], PositionOf(state.position, p), Stored(data, p));
    }
  }

  /** The shape of a tick's orders: one entry per quoted product, empty
      lists for products other than resin and kelp, orders only for their own
      product, and no product driven outside the position limit. */
  ghost predicate OrdersFitBooks(state: TradingState, orders: map<string, seq<Order>>) {
    && (forall p :: p in orders <==> p in state.orderDepths && Quoted(state.orderDepths[p]))
    && (forall p :: p in orders && p != Resin && p != Kelp ==> orders[p] == [])
    && (forall p, o :: p in orders && o in orders[p] ==> o.product == p)
    && (forall p :: p in orders && WithinLimit(PositionOf(state.position, p)) ==>
          WithinLimit(PositionOf(state.position, p) + NetQuantity(orders[p])))
  }

  /** What the tick of one quoted product promises about its outcome: it is
      traded exactly when the book is quoted, with no orders for products
      other than resin and kelp, orders for its own product only, and the
      position limit kept. */
  ghost predicate OutcomeFits(state: TradingState, p: string, out: Result<ProductOutcome, RunError>) {
    && p in state.orderDepths
    && (out.Ok? ==> (out.value.Traded? <==> Quoted(state.orderDepths[p])))
    && (out.Ok? && out.value.Traded? && p != Resin && p != Kelp ==> out.value.orders == [])
    && (out.Ok? && out.value.Traded? ==> forall o :: o in out.value.orders ==> o.product == p)
    && (out.Ok? && out.value.Traded? && WithinLimit(PositionOf(state.position, p)) ==>
          WithinLimit(PositionOf(state.position, p) + NetQuantity(out.value.orders)))
  }

  /** Every product's tick keeps those promises. */
  lemma OutcomesFit(state: TradingState, data: TraderData)
    ensures forall p :: p in Outcomes(state, data) ==> OutcomeFits(state, p, Outcomes(state, data)[p])
  {
    forall p | p in Outcomes(state, data)
      ensures OutcomeFits(state, p, Outcomes(state, data)[p])
    {
      var t := ProductTick(p, state.orderDepths[p], PositionOf(state.position, p), Stored(data, p));
      assert Outcomes(state, data)[p] == t;
      if t.Ok? && t.value.Traded? {
        ProductTickOrders(p, state.orderDepths[p], PositionOf(state.position, p), Stored(data, p));
      }
    }
  }

  /** The orders a tick collects from per-product outcomes that all succeed. */
  lemma OutcomeOrdersFitBooks(state: TradingState, outs: map<string, Result<ProductOutcome, RunError>>, orders: map<string, seq<Order>>)
    requires forall p :: p in outs ==> outs[p].Ok?
    requires forall p :: p in outs <==> p in state.orderDepths
    requires forall p :: p in outs ==> OutcomeFits(state, p, outs[p])
    requires orders == map p | p in outs && outs[p].Ok? && outs[p].value.Traded? :: outs[p].value.orders
    ensures OrdersFitBooks(state, orders)
  {
    OutcomeOrderKeys(state, outs, orders);
    OutcomeOrderContents(state, outs, orders);
  }

  /** The products with an entry are exactly the quoted ones. */
  lemma OutcomeOrderKeys(state: TradingState, outs: map<string, Result<ProductOutcome, RunError>>, orders: map<string, seq<Order>>)
    requires forall p :: p in outs ==> outs[p].Ok?
    requires forall p :: p in outs <==> p in state.orderDepths
    requires forall p :: p in outs ==> OutcomeFits(state, p, outs[p])
    requires orders == map p | p in outs && outs[p].Ok? && outs[p].value.Traded? :: outs[p].value.orders
    ensures forall p :: p in orders <==> p in state.orderDepths && Quoted(state.orderDepths[p])
  {
    forall p | p in state.orderDepths
      ensures p in orders <==> Quoted(state.orderDepths[p])
    {
      assert OutcomeFits(state, p, outs[p]);
    }
  }

  /** Every entry holds its own product's orders and keeps the limit. */
  lemma OutcomeOrderContents(state: TradingState, outs: map<string, Result<ProductOutcome, RunError>>, orders: map<string, seq<Order>>)
    requires forall p :: p in outs <==> p in state.orderDepths
    requires forall p :: p in outs ==> OutcomeFits(state, p, outs[p])
    requires orders == map p | p in outs && outs[p].Ok? && outs[p].value.Traded? :: outs[p].value.orders
    ensures forall p :: p in orders && p != Resin && p != Kelp ==> orders[p] == []
    ensures forall p, o :: p in orders && o in orders[p] ==> o.product == p
    ensures forall p :: p in orders && WithinLimit(PositionOf(state.position, p)) ==>
              WithinLimit(PositionOf(state.position, p) + NetQuantity(orders[p]))
  {
    forall p | p in orders
      ensures p != Resin && p != Kelp ==> orders[p] == []
      ensures forall o :: o in orders[p] ==> o.product == p
      ensures WithinLimit(PositionOf(state.position, p)) ==>
                WithinLimit(PositionOf(state.position, p) + NetQuantity(orders[p]))
    {
      assert OutcomeFits(state, p, outs[p]);
    }
  }

  /** A successful tick returns `conversions` 1 and orders that fit the books. */
  lemma RunOrders(codec: Codec, state: TradingState)
    requires Run(codec, state).Ok?
    ensures Run(codec, state).value.conversions == 1
    ensures OrdersFitBooks(state, Run(codec, state).value.orders)
  {
    var data := LoadState(codec, state.traderData);
    OutcomesFit(state, data);
    OutcomeOrdersFitBooks(state, Outcomes(state, data), Run(codec, state).value.orders);
  }

  /** A successful tick returns the encoding of the state it persists, and
      the next tick loads that state back whenever storing it is faithful. */
  lemma RunStoresPersisted(codec: Codec, state: TradingState)
    ensures Run(codec, state).Ok? ==> Run(codec, state).value.traderData == codec.dump(Persisted(codec, state))
    ensures Run(codec, state).Ok? && RoundTrips(codec, Persisted(codec, state)) ==>
              LoadState(codec, Run(codec, state).value.traderData) == Persisted(codec, state)
  {
    LoadDumpRoundTrip(codec, Persisted(codec, state));
  }

  /** What a tick persists: quoted resin and kelp books add or replace their
      entries, every other entry is kept, the new entries have their product's
      shape, and well-shaped state stays well-shaped. */
  lemma PersistedEntries(codec: Codec, state: TradingState)
    ensures var data := LoadState(codec, state.traderData);
            var next := Persisted(codec, state);
            && (forall p :: p in next <==>
                  p in data || (p in state.orderDepths && Quoted(state.orderDepths[p]) && (p == Resin || p == Kelp)))
            && (forall p :: p in data && !(p in state.orderDepths && Quoted(state.orderDepths[p])) ==>
                  next[p] == data[p])
            && (forall p :: p in data && p != Resin && p != Kelp ==> next[p] == data[p])
            && (Run(codec, state).Ok? && Resin in state.orderDepths && Quoted(state.orderDepths[Resin]) ==>
                  next[Resin].Mean?)
            && (Run(codec, state).Ok? && Kelp in state.orderDepths && Quoted(state.orderDepths[Kelp]) ==>
                  next[Kelp].Averages? && next[Kelp].shortMa.Some? && next[Kelp].longMa.Some?)
            && (WellTyped(data) ==> WellTyped(next))
  {
    var data := LoadState(codec, state.traderData);
    var outs := Outcomes(state, data);
    var updates := Updates(outs);
    assert Persisted(codec, state) == data + updates;
    forall p | p in state.orderDepths
      ensures outs[p] == ProductTick(p, state.orderDepths[p], PositionOf(state.position, p), Stored(data, p))
    {
    }
    forall p | p in updates
      ensures p in state.orderDepths && Quoted(state.orderDepths[p]) && (p == Resin || p == Kelp)
      ensures p == Resin ==> updates[p].Mean?
      ensures p == Kelp ==> updates[p].Averages? && updates[p].shortMa.Some? && updates[p].longMa.Some?
    {
      var position := PositionOf(state.position, p);
      var mid := BookMid(state.orderDepths[p]).value;
      if p == Resin {
        var prior := ResinPrior(Stored(data, p), mid).value;
        assert outs[p].value == Traded(ResinOrders(state.orderDepths[p], position, prior),
                                       Some(Mean(Ewma(ResinAlpha, mid, prior))));
      } else if p == Kelp {
        var (sm, lm) := KelpPrior(Stored(data, p), mid).value;
        var shortMa := Ewma(KelpShortAlpha, mid, sm);
        var longMa := Ewma(KelpLongAlpha, mid, lm);
        assert outs[p].value == Traded(KelpOrders(state.orderDepths[p], position, shortMa, longMa),
                                       Some(Averages(Some(shortMa), Some(longMa))));
      }
    }
    forall p | p in state.orderDepths && Quoted(state.orderDepths[p]) && (p == Resin || p == Kelp) && !Mismatched(data, p)
      ensures p in updates
    {
      assert outs[p].Ok?;
    }
    if Run(codec, state).Ok? {
      RunFailsOnlyOnMalformedState(codec, state);
    }
  }

  /** Resin compares the book against the PRIOR mean (the mid-price when none
      is stored) and persists 0.1 * mid + 0.9 * prior. */
  lemma ResinTickUsesPriorMean(depth: OrderDepth, position: int, stored: Option<Memo>)
    requires Quoted(depth)
    requires stored.None? || stored.value.Mean?
    ensures var mid := BookMid(depth).value;
            var prior := if stored.Some? then stored.value.mean else mid;
            ProductTick(Resin, depth, position, stored) ==
              Ok(Traded(ResinOrders(depth, position, prior), Some(Mean(0.1 * mid + 0.9 * prior))))
  {
  }

  /** Kelp smooths the mid-price into a short (0.3) and a long (0.1) average,
      each starting from its stored value or the mid-price, trades on the
      UPDATED averages and persists both. */
  lemma KelpTickUsesUpdatedAverages(depth: OrderDepth, position: int, stored: Option<Memo>)
    requires Quoted(depth)
    requires stored.None? || stored.value.Averages?
    ensures var mid := BookMid(depth).value;
            var s := if stored.Some? then stored.value.shortMa.GetOr(mid) else mid;
            var l := if stored.Some? then stored.value.longMa.GetOr(mid) else mid;
            var shortMa := 0.3 * mid + 0.7 * s;
            var longMa := 0.1 * mid + 0.9 * l;
            ProductTick(Kelp, depth, position, stored) ==
              Ok(Traded(KelpOrders(depth, position, shortMa, longMa), Some(Averages(Some(shortMa), Some(longMa)))))
  {
  }

  /** With nothing stored and a book that is not crossed, resin does not
      trade: neither best price is on the far side of the mid-price. */
  lemma {:induction false} ResinFirstTickNoTrade(depth: OrderDepth, position: int)
    requires Quoted(depth)
    requires BestBid(depth).Some? && BestAsk(depth).Some? ==> BestBid(depth).value <= BestAsk(depth).value
    requires BestBid(depth).None? ==> BestAsk(depth).value > 0.0
    requires BestAsk(depth).None? ==> BestBid(depth).value > 0.0
    ensures ProductTick(Resin, depth, position, None).value.orders == []
  {
    var mid := BookMid(depth).value;
    var r := ResinOrders(depth, position, mid);
    assert ProductTick(Resin, depth, position, None) == Ok(Traded(r, Some(Mean(Ewma(ResinAlpha, mid, mid)))));
    if r != [] {
      assert false;
    }
  }

  /** With nothing stored, kelp's two averages both equal the mid-price, so
      the first quoted tick never trades. */
  lemma KelpFirstTickNoTrade(depth: OrderDepth, position: int)
    requires Quoted(depth)
    ensures ProductTick(Kelp, depth, position, None).value.orders == []
  {
    var mid := BookMid(depth).value;
    assert Ewma(KelpShortAlpha, mid, mid) == Ewma(KelpLongAlpha, mid, mid);
  }

  /** Buys are sized by the NEGATED ask volume: when every resting ask volume
      is non-negative, a tick can only sell. */
  lemma {:induction false} NoBuyWithNonNegativeAskVolumes(codec: Codec, state: TradingState)
    requires Run(codec, state).Ok?
    requires forall p, k :: p in state.orderDepths && k in state.orderDepths[p].sellOrders ==>
               state.orderDepths[p].sellOrders[k] >= 0
    ensures forall p, o :: p in Run(codec, state).value.orders && o in Run(codec, state).value.orders[p] ==>
              o.quantity < 0
  {
    var data := LoadState(codec, state.traderData);
    var outs := Outcomes(state, data);
    var orders := Run(codec, state).value.orders;
    assert orders == map p | p in outs && outs[p].Ok? && outs[p].value.Traded? :: outs[p].value.orders;
    forall p, o: Order | p in orders && o in orders[p]
      ensures o.quantity < 0
    {
      var depth := state.orderDepths[p];
      var position := PositionOf(state.position, p);
      var t := ProductTick(p, depth, position, Stored(data, p));
      assert outs[p] == t;
      var mid := BookMid(depth).value;
      if p == Resin {
        var prior := ResinPrior(Stored(data, p), mid).value;
        assert o in ResinOrders(depth, position, prior);
      } else if p == Kelp {
        var (sm, lm) := KelpPrior(Stored(data, p), mid).value;
        assert o in KelpOrders(depth, position, Ewma(KelpShortAlpha, mid, sm), Ewma(KelpLongAlpha, mid, lm));
      }
    }
  }

  /** A concrete resin book: bid 9998 and ask 10002 around a prior mean of
      10000 do not trade; an ask at 9995 resting with volume -5 buys 5; the
      same ask with volume +5 buys nothing. */
  lemma ResinBookExample()
    ensures ResinOrders(OrderDepth(map[9998.0 := 5], map[10002.0 := -5]), 0, 10000.0) == []
    ensures ResinOrders(OrderDepth(map[9998.0 := 5], map[9995.0 := -5]), 0, 10000.0) ==
              [Order(Resin, 9995.0, 5)]
    ensures ResinOrders(OrderDepth(map[9998.0 := 5], map[9995.0 := 5]), 0, 10000.0) == []
  {
    assert BestAsk(OrderDepth(map[9998.0 := 5], map[9995.0 := -5])) == Some(9995.0);
    assert BestBid(OrderDepth(map[9998.0 := 5], map[9995.0 := -5])) == Some(9998.0);
  }
}
