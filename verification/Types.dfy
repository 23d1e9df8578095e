/** Orders, fills, market events and model records shared by every component. */
module Types {
  import opened FixedPoint

  datatype Option<+T> = None | Some(value: T)

  datatype Side = Buy | Sell

  datatype OrderType = Market | Limit | PostOnly

  datatype OrderStatus =
    | Pending
    | Open
    | PartiallyFilled
    | Filled
    | CancelPending
    | Cancelled
    | Rejected

  function SignedQuantity(side: Side, quantity: int): int {
    if side.Buy? then quantity else -quantity
  }

  predicate IsTerminal(status: OrderStatus) {
    status.Filled? || status.Cancelled? || status.Rejected?
  }

  datatype MarketEvent = MarketEvent(
    sequence: nat,
    exchangeTime: int,
    receiveTime: int,
    bestBid: int,
    bestAsk: int,
    bidQuantity: int,
    askQuantity: int,
    tradePrice: Option<int>,
    tradeQuantity: int,
    aggressor: Option<Side>)

  function Midpoint(event: MarketEvent): (mid: int)
    ensures event.bestBid <= event.bestAsk ==> event.bestBid <= mid <= event.bestAsk
  {
    event.bestBid + TruncDiv(event.bestAsk - event.bestBid, 2)
  }

  datatype OrderRequest = OrderRequest(
    clientOrderId: string,
    side: Side,
    orderType: OrderType,
    quantity: int,
    limitPrice: Option<int>,
    createdTime: int,
    reduceOnly: bool)

  datatype LedgerError = Ok | InvalidConfiguration | InvalidFill | ArithmeticOverflow

  /** The reject strings of an order. */
  datatype OrderReason =
    | NoReason
    | InvalidSlippedPrice
    | PostOnlyWouldCross
    | FillArithmeticOverflow
    | LedgerRefused(error: LedgerError)

  datatype PaperOrder = PaperOrder(
    orderId: nat,
    request: OrderRequest,
    status: OrderStatus,
    remaining: int,
    filled: int,
    queueAhead: int,
    activeTime: int,
    cancelDue: Option<int>,
    rejectReason: OrderReason)

  datatype PaperFill = PaperFill(
    fillId: nat,
    orderId: nat,
    clientOrderId: string,
    marketSequence: nat,
    exchangeTime: int,
    side: Side,
    quantity: int,
    price: int,
    fee: int,
    realized: int,
    maker: bool)

  datatype ModelAction = LongPosition | ShortPosition | Hold

  datatype ModelState = ModelState(
    sequence: nat,
    exchangeTime: int,
    stateAge: int,
    bestBid: int,
    bestAsk: int,
    bidQuantity: int,
    askQuantity: int,
    returnPpm: int,
    imbalancePpm: int,
    position: int)

  datatype ModelDecision = ModelDecision(
    action: ModelAction,
    longPpm: nat,
    shortPpm: nat,
    holdPpm: nat,
    stateSequence: nat,
    error: string)
  {
    predicate Succeeded() {
      error == ""
    }

    /** The probability the decision gates compare with their threshold. */
    function ChosenPpm(): nat {
      match action
      case LongPosition => longPpm
      case ShortPosition => shortPpm
      case Hold => holdPpm
    }
  }
}
