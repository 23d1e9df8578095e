/** What one event does to one order, said once in plain terms: prices, fees, queues and trades. */
module OrderLaws {
  import opened FixedPoint
  import opened Types
  import opened LedgerModel
  import opened LedgerTheorems
  import opened LedgerLaws
  import opened Risk
  import opened ExchangeModel
  import opened ExchangeInvariants
  import opened ExchangeTheorems
  import opened Matching
  import opened QueuePosition
  import opened QueueExactness
  import opened Cancellation

  // ----- prices and fees -----

  /** The least whole amount that covers a number of parts per million. */
  predicate CoversLeast(amount: int, parts: int) {
    amount >= 0 && parts <= 1_000_000 * amount && (amount == 0 || 1_000_000 * (amount - 1) < parts)
  }

  lemma CeilIsLeast(parts: int, amount: int)
    requires parts >= 0 && CoversLeast(amount, parts)
    ensures CeilPpm(parts) == amount
  {
  }

  /** A market order's price moves away from the trader by the slip, and has to be positive and fit. */
  lemma SlipIsExact(price: int, side: Side, ppm: nat, slip: int)
    requires price >= 0 && CoversLeast(slip, price * ppm)
    ensures var slipped := if side == Buy then price + slip else price - slip;
            SlippedPrice(price, side, ppm) == if 0 < slipped <= INT64_MAX then Some(slipped) else None
  {
    MulNonNegative(price, ppm);
    CeilIsLeast(price * ppm, slip);
  }

  /** A fill of an order goes through if and only if its notional and the least fee that covers the rate
      fit and the ledger has room for it; and it leaves the expected ledger. */
  lemma FillGoesThroughExactly(cfg: ExchangeConfig, ledger: LedgerState, request: OrderRequest, quantity: int, price: int,
                               maker: bool, fee: int)
    requires SignedCost(ledger) && quantity > 0 && price > 0
    requires CoversLeast(fee, ExactNotional(cfg.ledger, quantity, price) * (if maker then cfg.makerFeePpm else cfg.takerFeePpm))
    ensures var signed := if request.side == Buy then quantity else -quantity;
            var dry := DryFill(cfg, ledger, request, quantity, price, maker);
            && (dry.Some? <==> ValidLedgerConfig(cfg.ledger) && Fits(ExactNotional(cfg.ledger, quantity, price)) && Fits(fee)
                               && FillFits(cfg.ledger, ledger, signed, price, fee))
            && (dry.Some? ==> dry.value == ExpectedFill(cfg.ledger, ledger, signed, price, fee))
  {
    hide ExactNotional, WideNotional, ApplyFill, ExpectedFill, Representable;
    var signed := if request.side == Buy then quantity else -quantity;
    var rate := if maker then cfg.makerFeePpm else cfg.takerFeePpm;
    var n := ExactNotional(cfg.ledger, quantity, price);
    NotionalFloor(cfg.ledger, quantity, price);
    MulNonNegative(n, rate);
    CeilIsLeast(n * rate, fee);
    NotionalOfMagnitude(cfg.ledger, signed, price);
    if Fits(n) {
      RepresentableNotionalsAgree(cfg.ledger, quantity, price);
      FillIsExact(cfg.ledger, ledger, signed, price, fee);
    } else {
      var charged := FillFee(cfg, quantity, price, maker);
      if charged.Some? {
        FillIsExact(cfg.ledger, ledger, signed, price, charged.value);
      }
    }
  }

  // ----- activation -----

  predicate CrossesBook(request: OrderRequest, e: MarketEvent) {
    request.limitPrice.Some? &&
    if request.side == Buy then request.limitPrice.value >= e.bestAsk else request.limitPrice.value <= e.bestBid
  }

  /** The queue an order stands in after an event it does not cross: the size displayed at its limit when
      its limit is the touch of its own side, and otherwise the queue it had. */
  function StandsBehind(o: PaperOrder, e: MarketEvent): int {
    if o.request.side == Buy then
      if o.request.limitPrice == Some(e.bestBid) then e.bidQuantity else o.queueAhead
    else
      if o.request.limitPrice == Some(e.bestAsk) then e.askQuantity else o.queueAhead
  }

  /** An order that takes: it fills in full, or is rejected and books nothing. */
  ghost predicate TakesInFull(cfg: ExchangeConfig, b: Books, o: PaperOrder, price: int, b': Books, o': PaperOrder) {
    var dry := DryFill(cfg, b.ledger, o.request, o.remaining, price, false);
    if dry.Some? then b'.ledger == dry.value && o'.status == Filled && o'.filled == o.request.quantity && o'.remaining == 0
    else b' == b && o'.status == Rejected && o'.filled == o.filled
  }

  /** Activation of a due order, case by case. */
  lemma ActivationIsExact(cfg: ExchangeConfig, b: Books, o: PaperOrder, e: MarketEvent)
    requires GoodOrder(o) && (o.status == Pending || o.status == CancelPending) && e.receiveTime >= o.activeTime
    ensures var (b', o') := Activate(cfg, b, o, e);
            var touch := if o.request.side == Buy then e.bestAsk else e.bestBid;
            if o.request.orderType == Market then
              var price := SlippedPrice(touch, o.request.side, cfg.slippagePpm);
              if price.None? then b' == b && o' == o.(status := OrderStatus.Rejected, rejectReason := InvalidSlippedPrice)
              else TakesInFull(cfg, b, o, price.value, b', o')
            else if CrossesBook(o.request, e) then
              if o.request.orderType == PostOnly then
                b' == b && o' == o.(status := OrderStatus.Rejected, rejectReason := PostOnlyWouldCross)
              else TakesInFull(cfg, b, o, touch, b', o')
            else
              b' == b && o' == o.(status := if o.status == CancelPending then CancelPending else Open,
                                  queueAhead := StandsBehind(o, e))
  {
    hide FillOrder, DryFill, SlippedPrice;
    var touch := if o.request.side == Buy then e.bestAsk else e.bestBid;
    var price := if o.request.orderType == Market then SlippedPrice(touch, o.request.side, cfg.slippagePpm) else Some(touch);
    if price.Some? {
      FillOrderResult(cfg, b, o, o.remaining, price.value, false, e);
    }
  }

  // ----- trades -----

  /** The event's trade hits the order: the order is active and rests, the aggressor is on the other side,
      and the trade is at the limit or through it. */
  predicate IsHit(o: PaperOrder, e: MarketEvent) {
    && (o.status == Open || o.status == PartiallyFilled || o.status == CancelPending)
    && o.request.orderType != Market && o.request.limitPrice.Some? && e.receiveTime >= o.activeTime
    && e.tradePrice.Some?
    && (if o.request.side == Buy then e.aggressor == Some(Sell) && e.tradePrice.value <= o.request.limitPrice.value
        else e.aggressor == Some(Buy) && e.tradePrice.value >= o.request.limitPrice.value)
  }

  /** What a volume leaves of an order it hits: the queue ahead takes it first, the order what is left,
      if the ledger can book that fill. */
  ghost predicate TradedTo(cfg: ExchangeConfig, ledger: LedgerState, o: PaperOrder, volume: int, o': PaperOrder)
    requires o.request.limitPrice.Some?
  {
    if volume <= o.queueAhead then o' == o.(queueAhead := o.queueAhead - volume)
    else
      var wanted := Min(o.remaining, volume - o.queueAhead);
      && o'.queueAhead == 0
      && (if DryFill(cfg, ledger, o.request, wanted, o.request.limitPrice.value, true).Some? then
            && o'.filled == o.filled + wanted && o'.remaining == o.remaining - wanted
            && o'.status == (if wanted == o.remaining then OrderStatus.Filled else PartiallyFilled)
          else o'.status == Rejected && o'.filled == o.filled && o'.remaining == o.remaining)
  }

  /** What a trade leaves of the ledger and of its volume. */
  ghost predicate TradeBooks(cfg: ExchangeConfig, b: Books, o: PaperOrder, volume: int, b': Books, left: int)
    requires o.request.limitPrice.Some?
  {
    if volume <= o.queueAhead then b' == b && left == 0
    else
      var wanted := Min(o.remaining, volume - o.queueAhead);
      var dry := DryFill(cfg, b.ledger, o.request, wanted, o.request.limitPrice.value, true);
      left == volume - o.queueAhead - wanted && (if dry.Some? then b'.ledger == dry.value else b' == b)
  }

  lemma TradeIsExact(cfg: ExchangeConfig, b: Books, o: PaperOrder, e: MarketEvent, volume: int)
    requires GoodOrder(o) && volume >= 0
    ensures var (b', o', left) := MatchOne(cfg, b, o, e, volume);
            && (volume > 0 && IsHit(o, e) ==>
                  TradedTo(cfg, b.ledger, o, volume, o') && TradeBooks(cfg, b, o, volume, b', left))
            && (volume == 0 || !IsHit(o, e) ==> (b', o', left) == (b, o, volume))
  {
    hide FillOrder, DryFill;
    if volume > o.queueAhead && volume > 0 && IsHit(o, e) {
      var ahead := Min(o.queueAhead, volume);
      WaitingFill(cfg, b, o, o.queueAhead - ahead, Min(o.remaining, volume - ahead), e);
    }
  }

  lemma WaitingFill(cfg: ExchangeConfig, b: Books, o: PaperOrder, queue: int, wanted: int, e: MarketEvent)
    requires GoodOrder(o) && !IsTerminal(o.status) && o.request.limitPrice.Some? && 0 < wanted <= o.remaining
    ensures var (b', o') := FillOrder(cfg, b, o.(queueAhead := queue), wanted, o.request.limitPrice.value, true, e);
            var dry := DryFill(cfg, b.ledger, o.request, wanted, o.request.limitPrice.value, true);
            && o'.queueAhead == queue
            && (if dry.Some? then
                  && b'.ledger == dry.value && o'.filled == o.filled + wanted && o'.remaining == o.remaining - wanted
                  && o'.status == (if wanted == o.remaining then OrderStatus.Filled else PartiallyFilled)
                else b' == b && o'.status == Rejected && o'.filled == o.filled && o'.remaining == o.remaining)
  {
    hide ApplyFill, FillFee;
  }

  /** The volume an event brings: its trade quantity when it has a price, an aggressor and a quantity. */
  function Brought(e: MarketEvent): int {
    if e.tradePrice != None && e.aggressor != None then Max(e.tradeQuantity, 0) else 0
  }

  /** In every reachable state: what an accepted event does to a resting order when no other order is
      live.  A trade at or through its limit fills what is left of it past the queue, when that fill can
      be booked; a trade that misses the limit or comes from its own side does nothing. */
  lemma LoneTradeIsExact(cfg: ExchangeConfig, actions: seq<Action>, k: nat, e: MarketEvent)
    requires k < |Reached(cfg, actions).orders| && EventAccepted(cfg, Reached(cfg, actions), e)
    requires var s := Reached(cfg, actions);
             (s.orders[k].status == Open || s.orders[k].status == PartiallyFilled) && NoneOtherActive(s.orders, k)
    ensures var s, s' := Reached(cfg, actions), Reached(cfg, actions + [Event(e)]);
            var o := s.orders[k];
            && k < |s'.orders| && o.request.limitPrice.Some?
            && (if e.tradeQuantity > 0 && IsHit(o, e) then TradedTo(cfg, s.books.ledger, o, e.tradeQuantity, s'.orders[k])
                else s'.orders[k] == o)
  {
    hide Run, BooksInv, OnMarketEvent, EventAccepted, Activated, Matched, MatchOne, TradedTo, TradeBooks;
    var s := Reached(cfg, actions);
    ReachedInv(cfg, actions);
    RunAppend(cfg, InitialExchange(cfg), actions, Event(e));
    LoneOrderVisit(cfg, s, k, e);
    AfterMatching(cfg, s, k, e);
    TradeIsExact(cfg, s.books, s.orders[k], e, TradedVolume(e));
    if e.tradeQuantity > 0 && IsHit(s.orders[k], e) {
      TradedIsLive(cfg, s.books.ledger, s.orders[k], e.tradeQuantity, Matched(cfg, s, e).orders[k]);
    }
  }

  lemma AfterMatching(cfg: ExchangeConfig, s: Exchange, k: nat, e: MarketEvent)
    requires Inv(cfg, s) && WellFormed(s.orders) && k < |s.orders| && EventAccepted(cfg, s, e)
    ensures |OnMarketEvent(cfg, s, e).0.orders| == |s.orders|
    ensures OnMarketEvent(cfg, s, e).0.orders[k] == CancelIfDue(Matched(cfg, s, e).orders[k], e)
  {
    hide Inv, EventAccepted, Matched;
    ProcessedOrder(cfg, s, k, e);
  }

  lemma TradedIsLive(cfg: ExchangeConfig, ledger: LedgerState, o: PaperOrder, volume: int, o': PaperOrder)
    requires o.request.limitPrice.Some? && o.status != CancelPending && TradedTo(cfg, ledger, o, volume, o')
    ensures o'.status != CancelPending
  {
    hide DryFill;
  }

  // ----- orders whose cancellation was requested -----

  /** In every reachable state: an accepted event that an order awaiting cancellation does not cross leaves
      it in the displayed queue if its limit is the touch, and otherwise in the queue it had, less what
      the trade took; and the event fills it, or is refused, exactly when the volume that reaches it
      exceeds that queue. */
  lemma RequestedQueueIsExact(cfg: ExchangeConfig, actions: seq<Action>, k: nat, e: MarketEvent)
    requires k < |Reached(cfg, actions).orders| && EventAccepted(cfg, Reached(cfg, actions), e)
    requires var o := Reached(cfg, actions).orders[k];
             && o.status == CancelPending && o.request.orderType != Market
             && e.receiveTime >= o.activeTime && !CrossesBook(o.request, e)
    ensures WellFormed(Reached(cfg, actions).orders)
    ensures var s, s' := Reached(cfg, actions), Reached(cfg, actions + [Event(e)]);
            var o, volume := s.orders[k], VolumeLeftFor(cfg, s, k, e);
            var queue := StandsBehind(o, e);
            && k < |s'.orders| && volume >= 0
            && s'.orders[k].queueAhead == (if volume > 0 && IsHit(o, e) then Max(queue - volume, 0) else queue)
            && (s'.orders[k].filled > o.filled || s'.orders[k].status == Rejected
                <==> volume > 0 && IsHit(o, e) && volume > queue)
            && ((forall i :: 0 <= i < k ==> IsTerminal(s.orders[i].status)) ==> volume == Brought(e))
  {
    hide Run, BooksInv, OnMarketEvent, EventAccepted, Activated, Matched, MatchOne, Activate, VolumeLeftFor, TradedTo, TradeBooks;
    var s := Reached(cfg, actions);
    ReachedInv(cfg, actions);
    RunAppend(cfg, InitialExchange(cfg), actions, Event(e));
    OrdersAreGood(cfg, s.books, s.orders, k);
    ActivatedOrder(cfg, s, k, e);
    ActivationIsExact(cfg, Pass(cfg, Activating, Opening(s, e), k, e).books, s.orders[k], e);
    var a, floor := Activated(cfg, s, e).orders[k], Activated(cfg, s, e);
    assert a == s.orders[k].(queueAhead := StandsBehind(s.orders[k], e));
    MatchedByPass(cfg, s, k, e);
    var before := Pass(cfg, Matching, floor, k, e);
    TradeIsExact(cfg, before.books, a, e, before.volume);
    if before.volume > 0 && IsHit(a, e) {
      TradedQueue(cfg, before.books.ledger, a, before.volume, Matched(cfg, s, e).orders[k]);
    }
    assert IsHit(a, e) == IsHit(s.orders[k], e);
    AfterMatching(cfg, s, k, e);
    assert VolumeLeftFor(cfg, s, k, e) == before.volume by { VolumeIsPassed(cfg, s, k, e); }
    if forall i :: 0 <= i < k ==> IsTerminal(s.orders[i].status) {
      FirstInLineGetsTheTrade(cfg, s, k, e);
    }
  }

  lemma VolumeIsPassed(cfg: ExchangeConfig, s: Exchange, k: nat, e: MarketEvent)
    requires WellFormed(s.orders) && k < |s.orders|
    ensures VolumeLeftFor(cfg, s, k, e) == Pass(cfg, Matching, Activated(cfg, s, e), k, e).volume
  {
  }

  lemma MatchedByPass(cfg: ExchangeConfig, s: Exchange, k: nat, e: MarketEvent)
    requires Inv(cfg, s) && WellFormed(s.orders) && k < |s.orders|
    ensures var before := Pass(cfg, Matching, Activated(cfg, s, e), k, e);
            && before.volume >= 0 && GoodOrder(Activated(cfg, s, e).orders[k])
            && Matched(cfg, s, e).orders[k]
               == MatchOne(cfg, before.books, Activated(cfg, s, e).orders[k], e, before.volume).1
  {
    hide BooksInv, Pass, MatchOne;
    var floor := Activated(cfg, s, e);
    TradeIsShareable(cfg, s, e);
    PassShares(cfg, floor, k, e);
    OrderInPass(cfg, Matching, floor, |floor.orders|, k, e);
    OrdersAreGood(cfg, floor.books, floor.orders, k);
  }

  lemma TradedQueue(cfg: ExchangeConfig, ledger: LedgerState, o: PaperOrder, volume: int, o': PaperOrder)
    requires GoodOrder(o) && o.status == CancelPending && o.request.limitPrice.Some? && volume > 0
    requires TradedTo(cfg, ledger, o, volume, o')
    ensures o'.queueAhead == Max(o.queueAhead - volume, 0)
    ensures o'.filled > o.filled || o'.status == Rejected <==> volume > o.queueAhead
  {
    hide DryFill;
  }
}
