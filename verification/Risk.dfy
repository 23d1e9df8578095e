/** The risk gate in front of order entry: a chain of checks on the order, the market and the ledger. */
module Risk {
  import opened FixedPoint
  import opened Types
  import opened LedgerModel

  /** A limit that is not positive is switched off. */
  datatype RiskLimits = RiskLimits(
    maxOrderQuantity: int,
    maxOrderNotional: int,
    maxPosition: int,
    maxDataAge: int,
    maxSpreadPpm: nat,
    maxDrawdown: int)

  datatype RiskDecision =
    | Accept
    | InvalidMarket
    | StaleMarket
    | InvalidQuantity
    | OrderLimit
    | PositionLimit
    | SpreadLimit
    | DrawdownLimit
    | ReduceOnlyViolation

  /** A notional whose 128-bit scale-up product goes unchecked. */
  function WideNotional(cfg: LedgerConfig, quantity: int, price: int): int {
    var value := Magnitude(quantity) * price;
    if SourceScale(cfg) < cfg.accountScale then WrapWide(value * ScaleUp(cfg))
    else TruncDiv(value, ScaleDown(cfg))
  }

  /** The unchecked product does not wrap: nothing is scaled up, or the scaled product fits in 128 bits. */
  predicate NotionalInRange(cfg: LedgerConfig, quantity: int, price: int) {
    SourceScale(cfg) >= cfg.accountScale || FitsWide(Magnitude(quantity) * price * ScaleUp(cfg))
  }

  /** The gates and the ledger agree on every notional whose scale-up stays within 128 bits. */
  lemma NotionalsAgree(cfg: LedgerConfig, quantity: int, price: int)
    requires NotionalInRange(cfg, quantity, price)
    ensures WideNotional(cfg, quantity, price) == ExactNotional(cfg, quantity, price)
  {
    var value := Magnitude(quantity) * price;
    if SourceScale(cfg) < cfg.accountScale {
      assert TruncDiv(value * ScaleUp(cfg), 1) == value * ScaleUp(cfg);
    } else {
      assert ScaleUp(cfg) == 1 && value * ScaleUp(cfg) == value;
    }
  }

  /** In particular they agree whenever the ledger can represent the notional. */
  lemma RepresentableNotionalsAgree(cfg: LedgerConfig, quantity: int, price: int)
    requires Fits(ExactNotional(cfg, quantity, price))
    ensures WideNotional(cfg, quantity, price) == ExactNotional(cfg, quantity, price)
  {
    var exact := Magnitude(quantity) * price * ScaleUp(cfg);
    if SourceScale(cfg) < cfg.accountScale {
      assert TruncDiv(exact, 1) == exact;
    } else {
      assert exact == Magnitude(quantity) * price;
    }
  }

  function ReferencePrice(request: OrderRequest, market: MarketEvent): int {
    match request.limitPrice
    case Some(limit) => limit
    case None => if request.side.Buy? then market.bestAsk else market.bestBid
  }

  function Projected(request: OrderRequest, ledger: LedgerState): int {
    ledger.position + SignedQuantity(request.side, request.quantity)
  }

  predicate BreaksPositionLimit(limits: RiskLimits, request: OrderRequest, ledger: LedgerState) {
    limits.maxPosition > 0 && Magnitude(Projected(request, ledger)) > limits.maxPosition
  }

  predicate BreaksReduceOnly(request: OrderRequest, ledger: LedgerState) {
    var projected := Projected(request, ledger);
    request.reduceOnly &&
    (ledger.position == 0 || Magnitude(projected) >= Magnitude(ledger.position) ||
     (projected != 0 && ((projected > 0) != (ledger.position > 0))))
  }

  function SpreadPpm(market: MarketEvent): int
    requires 0 < market.bestBid <= market.bestAsk
  {
    (market.bestAsk - market.bestBid) * 1_000_000 / ((market.bestBid + market.bestAsk) / 2)
  }

  predicate IsStale(limits: RiskLimits, market: MarketEvent, decisionTime: int) {
    limits.maxDataAge > 0 &&
    (decisionTime < market.receiveTime || decisionTime - market.receiveTime > limits.maxDataAge)
  }

  predicate BreaksOrderLimit(limits: RiskLimits, cfg: LedgerConfig, request: OrderRequest, market: MarketEvent) {
    || (limits.maxOrderQuantity > 0 && request.quantity > limits.maxOrderQuantity)
    || (limits.maxOrderNotional > 0 &&
        WideNotional(cfg, request.quantity, ReferencePrice(request, market)) > limits.maxOrderNotional)
  }

  function Evaluate(limits: RiskLimits, cfg: LedgerConfig, request: OrderRequest, market: MarketEvent,
                    ledger: LedgerState, decisionTime: int): RiskDecision
  {
    if market.bestBid <= 0 || market.bestAsk < market.bestBid then InvalidMarket
    else if IsStale(limits, market, decisionTime) then StaleMarket
    else if request.quantity <= 0 then InvalidQuantity
    else if BreaksOrderLimit(limits, cfg, request, market) then OrderLimit
    else if BreaksPositionLimit(limits, request, ledger) then PositionLimit
    else if BreaksReduceOnly(request, ledger) then ReduceOnlyViolation
    else if limits.maxSpreadPpm > 0 && SpreadPpm(market) > limits.maxSpreadPpm then SpreadLimit
    else if limits.maxDrawdown > 0 && ledger.realized + ledger.unrealized - ledger.fees < -limits.maxDrawdown then
      DrawdownLimit
    else Accept
  }
}
