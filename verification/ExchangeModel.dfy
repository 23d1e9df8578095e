/** The simulated exchange as a state machine on values. */
module ExchangeModel {
  import opened FixedPoint
  import opened Types
  import opened LedgerModel
  import opened Risk

  const PARTS_PER_MILLION: int := 1_000_000

  datatype ExchangeConfig = ExchangeConfig(
    ledger: LedgerConfig,
    risk: RiskLimits,
    quantityStep: int,
    minimumNotional: int,
    makerFeePpm: nat,
    takerFeePpm: nat,
    slippagePpm: nat,
    acknowledgementLatency: int,
    cancellationLatency: int)

  predicate ValidConfig(cfg: ExchangeConfig) {
    ValidLedgerConfig(cfg.ledger) &&
    cfg.quantityStep > 0 && cfg.minimumNotional >= 0 &&
    cfg.makerFeePpm <= PARTS_PER_MILLION && cfg.takerFeePpm <= PARTS_PER_MILLION &&
    cfg.slippagePpm <= PARTS_PER_MILLION &&
    cfg.acknowledgementLatency >= 0 && cfg.cancellationLatency >= 0
  }

  /** The ledger, the tape of fills and the next fill number. */
  datatype Books = Books(ledger: LedgerState, fills: seq<PaperFill>, nextFillId: nat)

  datatype Exchange = Exchange(
    market: Option<MarketEvent>,
    orders: seq<PaperOrder>,
    index: map<string, nat>,
    books: Books,
    nextOrderId: nat,
    ignored: nat)

  function InitialExchange(cfg: ExchangeConfig): Exchange {
    Exchange(None, [], map[], Books(InitialLedger(cfg.ledger), [], 1), 1, 0)
  }

  // ----- prices and fees -----

  /** product / 1,000,000, rounded up. */
  function CeilPpm(product: int): int {
    if product == 0 then 0 else TruncDiv(product - 1, PARTS_PER_MILLION) + 1
  }

  function CheckedWideNotional(cfg: LedgerConfig, price: int, quantity: int): Option<int> {
    var value := WideNotional(cfg, quantity, price);
    if Fits(value) then Some(value) else None
  }

  function FeeFor(notional: int, ppm: nat): Option<int> {
    var fee := CeilPpm(notional * ppm);
    if Fits(fee) then Some(fee) else None
  }

  function SlippedPrice(price: int, side: Side, ppm: nat): Option<int> {
    var slip := CeilPpm(price * ppm);
    var slipped := if side.Buy? then price + slip else price - slip;
    if slipped <= 0 || !Fits(slipped) then None else Some(slipped)
  }

  // ----- one order -----

  function Touch(side: Side, event: MarketEvent): int {
    if side.Buy? then event.bestAsk else event.bestBid
  }

  predicate Crosses(side: Side, limit: int, event: MarketEvent) {
    if side.Buy? then limit >= event.bestAsk else limit <= event.bestBid
  }

  function Rejecting(order: PaperOrder, reason: OrderReason): PaperOrder {
    order.(status := OrderStatus.Rejected, rejectReason := reason)
  }

  function FillRecord(id: nat, order: PaperOrder, event: MarketEvent, quantity: int, price: int, fee: int,
                      realized: int, maker: bool): PaperFill
  {
    PaperFill(id, order.orderId, order.request.clientOrderId, event.sequence, event.exchangeTime,
              order.request.side, quantity, price, fee, realized, maker)
  }

  function FillFee(cfg: ExchangeConfig, quantity: int, price: int, maker: bool): Option<int> {
    var notional := CheckedWideNotional(cfg.ledger, price, quantity);
    if notional.None? then None
    else FeeFor(notional.value, if maker then cfg.makerFeePpm else cfg.takerFeePpm)
  }

  function FillOrder(cfg: ExchangeConfig, books: Books, order: PaperOrder, wanted: int, price: int, maker: bool,
                     event: MarketEvent): (Books, PaperOrder)
  {
    var quantity := Min(wanted, order.remaining);
    if quantity <= 0 then (books, order)
    else
      var fee := FillFee(cfg, quantity, price, maker);
      if fee.None? then (books, Rejecting(order, FillArithmeticOverflow))
      else
        var (ledger, mutation) :=
          ApplyFill(cfg.ledger, books.ledger, SignedQuantity(order.request.side, quantity), price, fee.value);
        if mutation.error != Ok then (books, Rejecting(order, LedgerRefused(mutation.error)))
        else
          var record := FillRecord(books.nextFillId, order, event, quantity, price, fee.value, mutation.realized, maker);
          (Books(ledger, books.fills + [record], books.nextFillId + 1),
           order.(remaining := order.remaining - quantity,
                  filled := order.filled + quantity,
                  status := if order.remaining == quantity then OrderStatus.Filled else PartiallyFilled))
  }

  /** An order that does not trade joins the queue displayed at its limit. */
  function JoinedQueue(order: PaperOrder, limit: int, event: MarketEvent): int {
    if order.request.side.Buy? && limit == event.bestBid then event.bidQuantity
    else if order.request.side.Sell? && limit == event.bestAsk then event.askQuantity
    else order.queueAhead
  }

  function Activate(cfg: ExchangeConfig, books: Books, order: PaperOrder, event: MarketEvent): (Books, PaperOrder)
    requires order.request.orderType != Market ==> order.request.limitPrice.Some?
  {
    var side := order.request.side;
    if IsTerminal(order.status) || event.receiveTime < order.activeTime then (books, order)
    else if order.request.orderType == Market then
      var price := SlippedPrice(Touch(side, event), side, cfg.slippagePpm);
      if price.None? then (books, Rejecting(order, InvalidSlippedPrice))
      else FillOrder(cfg, books, order, order.remaining, price.value, false, event)
    else
      var limit := order.request.limitPrice.value;
      if Crosses(side, limit, event) then
        if order.request.orderType == PostOnly then (books, Rejecting(order, PostOnlyWouldCross))
        else FillOrder(cfg, books, order, order.remaining, Touch(side, event), false, event)
      else
        (books, order.(queueAhead := JoinedQueue(order, limit, event),
                       status := if order.status == CancelPending then CancelPending else Open))
  }

  predicate CanActivate(order: PaperOrder, event: MarketEvent) {
    (order.status == Pending || order.status == CancelPending) && event.receiveTime >= order.activeTime
  }

  // ----- one market event -----

  /** The volume an event offers to resting orders. */
  function TradedVolume(event: MarketEvent): int {
    if event.tradePrice.None? || event.aggressor.None? || event.tradeQuantity <= 0 then 0
    else event.tradeQuantity
  }

  /** The event's trade reaches the order: the order rests, the aggressor is on the other side,
      and the price is at or through the limit. */
  predicate Reaches(order: PaperOrder, event: MarketEvent) {
    && (order.status == Open || order.status == PartiallyFilled || order.status == CancelPending)
    && event.receiveTime >= order.activeTime
    && TradeOpposes(order.request, event)
  }

  predicate TradeOpposes(request: OrderRequest, event: MarketEvent) {
    && request.orderType != Market
    && event.aggressor.Some? && event.tradePrice.Some? && request.limitPrice.Some?
    && event.aggressor.value != request.side
    && (if request.side.Buy? then event.tradePrice.value <= request.limitPrice.value
        else event.tradePrice.value >= request.limitPrice.value)
  }

  /** The queue ahead takes volume first, the order takes what is left. */
  function MatchOne(cfg: ExchangeConfig, books: Books, order: PaperOrder, event: MarketEvent, volume: int)
    : (Books, PaperOrder, int)
  {
    if volume <= 0 || !Reaches(order, event) then (books, order, volume)
    else
      var ahead := Min(order.queueAhead, volume);
      var waiting := order.(queueAhead := order.queueAhead - ahead);
      var left := volume - ahead;
      if left <= 0 then (books, waiting, left)
      else
        var quantity := Min(order.remaining, left);
        var (books', order') := FillOrder(cfg, books, waiting, quantity, order.request.limitPrice.value, true, event);
        (books', order', left - quantity)
  }

  function CancelIfDue(order: PaperOrder, event: MarketEvent): PaperOrder {
    if order.status != CancelPending || order.cancelDue.None? || event.receiveTime < order.cancelDue.value then order
    else order.(status := OrderStatus.Cancelled, remaining := 0)
  }

  datatype Phase = Activating | Matching | Cancelling

  /** What one market event works on; `volume` is the traded volume not yet used. */
  datatype Floor = Floor(books: Books, orders: seq<PaperOrder>, volume: int)

  predicate WellFormedOrder(order: PaperOrder) {
    order.request.orderType != Market ==> order.request.limitPrice.Some?
  }

  predicate WellFormed(orders: seq<PaperOrder>) {
    forall k :: 0 <= k < |orders| ==> WellFormedOrder(orders[k])
  }

  function Visit(cfg: ExchangeConfig, phase: Phase, books: Books, order: PaperOrder, volume: int, event: MarketEvent)
    : (r: (Books, PaperOrder, int))
    requires WellFormedOrder(order)
    ensures r.1.request == order.request
  {
    match phase
    case Activating =>
      if CanActivate(order, event) then
        var (books', order') := Activate(cfg, books, order, event);
        (books', order', volume)
      else (books, order, volume)
    case Matching => MatchOne(cfg, books, order, event, volume)
    case Cancelling => (books, CancelIfDue(order, event), volume)
  }

  function VisitAt(cfg: ExchangeConfig, phase: Phase, floor: Floor, k: nat, event: MarketEvent): (r: Floor)
    requires k < |floor.orders| && WellFormed(floor.orders)
    ensures |r.orders| == |floor.orders| && WellFormed(r.orders)
  {
    var (books, order, volume) := Visit(cfg, phase, floor.books, floor.orders[k], floor.volume, event);
    Floor(books, floor.orders[k := order], volume)
  }

  /** One phase over the first n orders, in submission order. */
  function Pass(cfg: ExchangeConfig, phase: Phase, floor: Floor, n: nat, event: MarketEvent): (r: Floor)
    requires n <= |floor.orders| && WellFormed(floor.orders)
    ensures |r.orders| == |floor.orders| && WellFormed(r.orders)
  {
    if n == 0 then floor else VisitAt(cfg, phase, Pass(cfg, phase, floor, n - 1, event), n - 1, event)
  }

  function FullPass(cfg: ExchangeConfig, phase: Phase, floor: Floor, event: MarketEvent): (r: Floor)
    requires WellFormed(floor.orders)
    ensures |r.orders| == |floor.orders| && WellFormed(r.orders)
  {
    Pass(cfg, phase, floor, |floor.orders|, event)
  }

  function Opening(s: Exchange, event: MarketEvent): Floor {
    Floor(s.books, s.orders, TradedVolume(event))
  }

  function Activated(cfg: ExchangeConfig, s: Exchange, event: MarketEvent): (r: Floor)
    requires WellFormed(s.orders)
    ensures |r.orders| == |s.orders| && WellFormed(r.orders)
  {
    FullPass(cfg, Activating, Opening(s, event), event)
  }

  function Matched(cfg: ExchangeConfig, s: Exchange, event: MarketEvent): (r: Floor)
    requires WellFormed(s.orders)
    ensures |r.orders| == |s.orders| && WellFormed(r.orders)
  {
    FullPass(cfg, Matching, Activated(cfg, s, event), event)
  }

  function Processed(cfg: ExchangeConfig, s: Exchange, event: MarketEvent): (r: Floor)
    requires WellFormed(s.orders)
    ensures |r.orders| == |s.orders| && WellFormed(r.orders)
  {
    FullPass(cfg, Cancelling, Matched(cfg, s, event), event)
  }

  predicate EventAccepted(cfg: ExchangeConfig, s: Exchange, event: MarketEvent) {
    && ValidConfig(cfg) && event.sequence != 0
    && (s.market.Some? ==> event.sequence > s.market.value.sequence)
    && event.exchangeTime > 0 && event.receiveTime >= event.exchangeTime
    && 0 < event.bestBid <= event.bestAsk
  }

  function OnMarketEvent(cfg: ExchangeConfig, s: Exchange, event: MarketEvent): (r: (Exchange, bool))
    requires WellFormed(s.orders)
    ensures WellFormed(r.0.orders) && |r.0.orders| == |s.orders|
  {
    if !EventAccepted(cfg, s, event) then (s.(ignored := s.ignored + 1), false)
    else
      var floor := Processed(cfg, s, event);
      var ledger := MarkToMarket(cfg.ledger, floor.books.ledger, Midpoint(event)).0;
      (s.(market := Some(event), orders := floor.orders, books := floor.books.(ledger := ledger)), true)
  }

  // ----- order entry -----

  datatype SubmitReason =
    | NoProblem
    | DuplicateClientOrderId
    | BadConfiguration
    | MarketUnavailable
    | EmptyClientOrderId
    | InvalidLimitPrice
    | RiskRefused(decision: RiskDecision)
    | QuantityBelowStep
    | NotionalOverflow
    | MinimumNotional
    | OrderProblem(reason: OrderReason)

  datatype SubmitResult = SubmitResult(orderId: nat, status: OrderStatus, duplicate: bool, reason: SubmitReason)

  function SubmitRefused(reason: SubmitReason): SubmitResult {
    SubmitResult(0, OrderStatus.Rejected, false, reason)
  }

  function FindOrder(s: Exchange, clientOrderId: string): (k: Option<nat>)
    ensures k.Some? ==> k.value < |s.orders|
  {
    if clientOrderId in s.index && s.index[clientOrderId] < |s.orders| then Some(s.index[clientOrderId]) else None
  }

  function NormalizedQuantity(cfg: ExchangeConfig, quantity: int): int
    requires cfg.quantityStep > 0
  {
    TruncDiv(quantity, cfg.quantityStep) * cfg.quantityStep
  }

  /** Why a submission creates no order, or NoProblem. */
  function SubmitProblem(cfg: ExchangeConfig, s: Exchange, request: OrderRequest, decisionTime: int): SubmitReason {
    if FindOrder(s, request.clientOrderId).Some? then DuplicateClientOrderId
    else if !ValidConfig(cfg) then BadConfiguration
    else if s.market.None? then MarketUnavailable
    else if request.clientOrderId == "" then EmptyClientOrderId
    else if request.orderType != Market && (request.limitPrice.None? || request.limitPrice.value <= 0) then
      InvalidLimitPrice
    else
      var risk := Evaluate(cfg.risk, cfg.ledger, request, s.market.value, s.books.ledger, decisionTime);
      if risk != Accept then RiskRefused(risk)
      else
        var quantity := NormalizedQuantity(cfg, request.quantity);
        if quantity <= 0 then QuantityBelowStep
        else
          var notional := CheckedWideNotional(cfg.ledger, ReferencePrice(request, s.market.value), quantity);
          if notional.None? then NotionalOverflow
          else if notional.value < cfg.minimumNotional then MinimumNotional
          else NoProblem
  }

  function NewOrder(cfg: ExchangeConfig, s: Exchange, request: OrderRequest, decisionTime: int): PaperOrder
    requires cfg.quantityStep > 0
  {
    var quantity := NormalizedQuantity(cfg, request.quantity);
    PaperOrder(s.nextOrderId, request.(quantity := quantity), Pending, quantity, 0, 0,
               decisionTime + cfg.acknowledgementLatency, None, NoReason)
  }

  /** The exchange with a new order appended and indexed. */
  function WithOrder(s: Exchange, order: PaperOrder): Exchange {
    s.(orders := s.orders + [order],
       index := s.index[order.request.clientOrderId := |s.orders|],
       nextOrderId := s.nextOrderId + 1)
  }

  /** The new order and the books after entry; without acknowledgement latency it is activated at once. */
  function Entered(cfg: ExchangeConfig, s: Exchange, request: OrderRequest, decisionTime: int): (r: (Books, PaperOrder))
    requires SubmitProblem(cfg, s, request, decisionTime) == NoProblem
    ensures WellFormedOrder(r.1)
    ensures r.1.request == request.(quantity := NormalizedQuantity(cfg, request.quantity))
  {
    var order := NewOrder(cfg, s, request, decisionTime);
    if cfg.acknowledgementLatency == 0 then Activate(cfg, s.books, order, s.market.value) else (s.books, order)
  }

  function Submit(cfg: ExchangeConfig, s: Exchange, request: OrderRequest, decisionTime: int)
    : (r: (Exchange, SubmitResult))
    requires WellFormed(s.orders)
    ensures WellFormed(r.0.orders)
  {
    var problem := SubmitProblem(cfg, s, request, decisionTime);
    if problem == DuplicateClientOrderId then
      var existing := s.orders[FindOrder(s, request.clientOrderId).value];
      (s, SubmitResult(existing.orderId, existing.status, true, DuplicateClientOrderId))
    else if problem != NoProblem then (s, SubmitRefused(problem))
    else
      var (books, order) := Entered(cfg, s, request, decisionTime);
      (WithOrder(s.(books := books), order),
       SubmitResult(order.orderId, order.status, false,
                    if order.rejectReason == NoReason then NoProblem else OrderProblem(order.rejectReason)))
  }

  predicate Cancellable(s: Exchange, clientOrderId: string) {
    var k := FindOrder(s, clientOrderId);
    k.Some? && !IsTerminal(s.orders[k.value].status) && s.orders[k.value].status != CancelPending
  }

  function Cancel(cfg: ExchangeConfig, s: Exchange, clientOrderId: string, requestTime: int): (r: (Exchange, bool))
    requires WellFormed(s.orders)
    ensures WellFormed(r.0.orders) && |r.0.orders| == |s.orders|
  {
    if !Cancellable(s, clientOrderId) then (s, false)
    else
      var k := FindOrder(s, clientOrderId).value;
      var due := requestTime + cfg.cancellationLatency;
      (s.(orders := s.orders[k := s.orders[k].(status := CancelPending, cancelDue := Some(due))]), true)
  }

  // ----- runs -----

  datatype Action =
    | Event(event: MarketEvent)
    | SubmitOrder(request: OrderRequest, decisionTime: int)
    | CancelOrder(clientOrderId: string, requestTime: int)

  function Step(cfg: ExchangeConfig, s: Exchange, action: Action): (s': Exchange)
    requires WellFormed(s.orders)
    ensures WellFormed(s'.orders)
  {
    match action
    case Event(event) => OnMarketEvent(cfg, s, event).0
    case SubmitOrder(request, decisionTime) => Submit(cfg, s, request, decisionTime).0
    case CancelOrder(clientOrderId, requestTime) => Cancel(cfg, s, clientOrderId, requestTime).0
  }

  function Run(cfg: ExchangeConfig, s: Exchange, actions: seq<Action>): (s': Exchange)
    requires WellFormed(s.orders)
    ensures WellFormed(s'.orders)
    decreases |actions|
  {
    if actions == [] then s else Run(cfg, Step(cfg, s, actions[0]), actions[1..])
  }

  // ----- passes with nothing to do -----

  lemma {:induction false} NothingToMatch(cfg: ExchangeConfig, floor: Floor, n: nat, event: MarketEvent)
    requires n <= |floor.orders| && WellFormed(floor.orders) && floor.volume <= 0
    ensures Pass(cfg, Matching, floor, n, event) == floor
  {
    if n > 0 {
      NothingToMatch(cfg, floor, n - 1, event);
      assert floor.orders[n - 1 := floor.orders[n - 1]] == floor.orders;
    }
  }

  lemma {:induction false} CancellingKeepsBooks(cfg: ExchangeConfig, floor: Floor, n: nat, e: MarketEvent)
    requires n <= |floor.orders| && WellFormed(floor.orders)
    ensures Pass(cfg, Cancelling, floor, n, e).books == floor.books
  {
    if n > 0 {
      CancellingKeepsBooks(cfg, floor, n - 1, e);
    }
  }

  lemma {:induction false} NothingToActivate(cfg: ExchangeConfig, floor: Floor, n: nat, e: MarketEvent)
    requires n <= |floor.orders| && WellFormed(floor.orders)
    requires forall k :: 0 <= k < |floor.orders| ==> !CanActivate(floor.orders[k], e)
    ensures Pass(cfg, Activating, floor, n, e) == floor
  {
    if n > 0 {
      NothingToActivate(cfg, floor, n - 1, e);
      assert floor.orders[n - 1 := floor.orders[n - 1]] == floor.orders;
    }
  }
}
