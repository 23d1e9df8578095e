/** What an accepted order tells about the market, the order and the account. */
module RiskTheorems {
  import opened FixedPoint
  import opened Types
  import opened LedgerModel
  import opened LedgerTheorems
  import opened Risk
  import opened ExchangeModel
  import opened ExchangeInvariants
  import opened ExchangeTheorems

  predicate Limited(limit: int, value: int) {
    limit > 0 ==> value <= limit
  }

  /** The market is two-sided, recent and not too wide: the spread is below one part per million more
      than the limit, measured against the midpoint. */
  predicate TradableMarket(limits: RiskLimits, market: MarketEvent, decisionTime: int) {
    && 0 < market.bestBid <= market.bestAsk
    && (limits.maxDataAge > 0 ==> 0 <= decisionTime - market.receiveTime <= limits.maxDataAge)
    && (limits.maxSpreadPpm > 0 ==>
          (market.bestAsk - market.bestBid) * 1_000_000
          < (limits.maxSpreadPpm + 1) * ((market.bestBid + market.bestAsk) / 2))
  }

  /** The order leaves the position within its limit, and a reduce-only order strictly nearer to zero
      on the same side. */
  predicate TolerablePosition(limits: RiskLimits, request: OrderRequest, position: int) {
    var after := position + SignedQuantity(request.side, request.quantity);
    && (limits.maxPosition > 0 ==> -limits.maxPosition <= after <= limits.maxPosition)
    && (request.reduceOnly ==> (0 <= after < position) || (position < after <= 0))
  }

  /** The account has not lost more than the drawdown limit since the start. */
  predicate TolerableLoss(limits: RiskLimits, cfg: LedgerConfig, equity: int) {
    limits.maxDrawdown > 0 ==> InitialLedger(cfg).cash - equity <= limits.maxDrawdown
  }

  lemma SpreadLimitIsExact(market: MarketEvent, maxSpreadPpm: nat)
    requires 0 < market.bestBid <= market.bestAsk
    ensures SpreadPpm(market) <= maxSpreadPpm <==>
            (market.bestAsk - market.bestBid) * 1_000_000
            < (maxSpreadPpm + 1) * ((market.bestBid + market.bestAsk) / 2)
  {
    var width, mid := (market.bestAsk - market.bestBid) * 1_000_000, (market.bestBid + market.bestAsk) / 2;
    var q := SpreadPpm(market);
    DivBounds(width, mid);
    if q <= maxSpreadPpm {
      MulMono(mid, q + 1, maxSpreadPpm + 1);
      assert mid * (q + 1) == mid * q + mid;
      assert mid * (maxSpreadPpm + 1) == (maxSpreadPpm + 1) * mid;
    } else {
      MulMono(mid, maxSpreadPpm + 1, q);
      assert mid * (maxSpreadPpm + 1) == (maxSpreadPpm + 1) * mid;
    }
  }

  /** With balanced books and a notional whose product does not wrap, however large, the gate accepts
      an order exactly when the market is tradable, size and exact notional respect their limits, and
      the position and the loss are tolerable. */
  lemma GateIsExact(limits: RiskLimits, cfg: LedgerConfig, request: OrderRequest, market: MarketEvent,
                    st: LedgerState, decisionTime: int)
    requires Balanced(cfg, st)
    requires NotionalInRange(cfg, request.quantity, ReferencePrice(request, market))
    ensures Evaluate(limits, cfg, request, market, st, decisionTime) == Accept <==>
            && TradableMarket(limits, market, decisionTime)
            && request.quantity > 0 && Limited(limits.maxOrderQuantity, request.quantity)
            && Limited(limits.maxOrderNotional, ExactNotional(cfg, request.quantity, ReferencePrice(request, market)))
            && TolerablePosition(limits, request, st.position)
            && TolerableLoss(limits, cfg, st.equity)
  {
    hide WideNotional, ExactNotional, SpreadPpm;
    NotionalsAgree(cfg, request.quantity, ReferencePrice(request, market));
    BalancedLoss(cfg, st);
    if 0 < market.bestBid <= market.bestAsk {
      SpreadLimitIsExact(market, limits.maxSpreadPpm);
    }
  }

  lemma BalancedLoss(cfg: LedgerConfig, st: LedgerState)
    requires Balanced(cfg, st)
    ensures st.realized + st.unrealized - st.fees == st.equity - InitialLedger(cfg).cash
  {
  }

  /** In every reachable state an order is only ever accepted while the reported equity has not fallen
      more than the drawdown limit below the initial cash, in a tradable market and within the limits
      on position, order size and, unless its product wraps, order notional. */
  lemma AcceptedOnlyWhenSafe(cfg: ExchangeConfig, actions: seq<Action>, request: OrderRequest, decisionTime: int)
    requires SubmitProblem(cfg, Reached(cfg, actions), request, decisionTime) == NoProblem
    ensures var s := Reached(cfg, actions);
            && s.market.Some? && TradableMarket(cfg.risk, s.market.value, decisionTime)
            && TolerablePosition(cfg.risk, request, s.books.ledger.position)
            && TolerableLoss(cfg.risk, cfg.ledger, s.books.ledger.equity)
            && Limited(cfg.risk.maxOrderQuantity, request.quantity)
            && var price := ReferencePrice(request, s.market.value);
               NotionalInRange(cfg.ledger, request.quantity, price) ==>
                 Limited(cfg.risk.maxOrderNotional, ExactNotional(cfg.ledger, request.quantity, price))
  {
    hide Run, BooksInv, CheckedWideNotional, FindOrder, ExactNotional, WideNotional, NotionalInRange;
    ReachedInv(cfg, actions);
    var s := Reached(cfg, actions);
    BooksBalanced(cfg, s.books, s.orders);
    BalancedLoss(cfg.ledger, s.books.ledger);
    var market := s.market.value;
    if NotionalInRange(cfg.ledger, request.quantity, ReferencePrice(request, market)) {
      NotionalsAgree(cfg.ledger, request.quantity, ReferencePrice(request, market));
    }
    if 0 < market.bestBid <= market.bestAsk {
      SpreadLimitIsExact(market, cfg.risk.maxSpreadPpm);
    }
    assert Evaluate(cfg.risk, cfg.ledger, request, market, s.books.ledger, decisionTime) == Accept;
    hide SpreadPpm, SubmitProblem;
  }
}
