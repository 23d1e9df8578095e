/** The replay loop: rows become events, decisions made on one event are traded before the next. */
module ReplayModel {
  import opened FixedPoint
  import opened Types
  import opened LedgerModel
  import opened Risk
  import opened ExchangeModel
  import opened Features

  const TARGET: int := 100
  const LOOKBACK: nat := 100

  datatype ReplayOptions = ReplayOptions(
    startTime: int,
    endTime: int,
    feedLatency: nat,
    decisionEvery: nat,
    thresholdPpm: nat,
    takerFeePpm: nat,
    slippagePpm: nat)

  /** Where decisions come from: a model asked every so many sequence numbers, or at the sequence
      numbers of a tape. */
  datatype Policy = Policy(taped: set<nat>, decide: ModelState -> ModelDecision)

  /** Every decision names the sequence number of the state it was made on. */
  ghost predicate Echoes(policy: Policy) {
    forall state :: policy.decide(state).stateSequence == state.sequence
  }

  function ReplayConfig(o: ReplayOptions): ExchangeConfig {
    ExchangeConfig(
      LedgerConfig(10_000_000, 2, 2, 3),
      RiskLimits(200, 10_000_000, 100, 120_000_000_000, 50_000, 5_000_000),
      1, 100, 0, o.takerFeePpm, o.slippagePpm, 1, 0)
  }

  datatype ReplayRow = ReplayRow(
    sequence: nat,
    exchangeTime: int,
    bestBid: int,
    bestAsk: int,
    bidQuantity: int,
    askQuantity: int,
    tradePrice: int,
    tradeQuantity: int,
    aggressor: Option<Side>)

  predicate ValidRow(row: ReplayRow) {
    row.sequence != 0 && row.exchangeTime > 0 && 0 < row.bestBid <= row.bestAsk &&
    row.bidQuantity >= 0 && row.askQuantity >= 0 && row.tradePrice >= 0 && row.tradeQuantity >= 0
  }

  function RowEvent(row: ReplayRow, feedLatency: nat): MarketEvent {
    MarketEvent(row.sequence, row.exchangeTime, row.exchangeTime + feedLatency, row.bestBid, row.bestAsk,
                row.bidQuantity, row.askQuantity, if row.tradePrice > 0 then Some(row.tradePrice) else None,
                row.tradeQuantity, row.aggressor)
  }

  predicate InWindow(o: ReplayOptions, e: MarketEvent) {
    o.startTime <= e.exchangeTime <= o.endTime
  }

  datatype PendingDecision = PendingDecision(decision: ModelDecision, decisionTime: int)

  datatype Metrics = Metrics(
    events: nat,
    decisions: nat,
    signals: nat,
    acceptedOrders: nat,
    rejectedOrders: nat,
    ignoredEvents: nat,
    peakEquity: int,
    maxDrawdown: int)

  /** The loop's state.  `history` stands for the feature builder, `equities` lists the initial
      equity and the equity after each accepted event. */
  datatype Driver = Driver(
    exchange: Exchange,
    history: seq<int>,
    pending: Option<PendingDecision>,
    metrics: Metrics,
    equities: seq<int>)

  function InitialDriver(o: ReplayOptions): Driver {
    var exchange := InitialExchange(ReplayConfig(o));
    var equity := exchange.books.ledger.equity;
    Driver(exchange, [], None, Metrics(0, 0, 0, 0, 0, 0, equity, 0), [equity])
  }

  // ----- order entry -----

  function Digit(n: nat): char
    requires n < 10
  {
    (n + 48) as char
  }

  /** The decimal numeral of a number. */
  function Decimal(n: nat): (s: string)
    ensures s != ""
  {
    if n < 10 then [Digit(n)] else Decimal(n / 10) + [Digit(n % 10)]
  }

  const PREFIX: string := "replay-"

  function OrderName(sequence: nat): string {
    PREFIX + Decimal(sequence)
  }

  function TargetPosition(action: ModelAction, position: int): int {
    match action
    case LongPosition => TARGET
    case ShortPosition => -TARGET
    case Hold => position
  }

  /** The order a pending decision asks for, if it asks for a change of position. */
  function Wanted(p: Option<PendingDecision>, position: int): Option<OrderRequest> {
    if p.None? || !p.value.decision.Succeeded() then None
    else
      var delta := TargetPosition(p.value.decision.action, position) - position;
      if delta == 0 then None
      else Some(OrderRequest(OrderName(p.value.decision.stateSequence), if delta > 0 then Buy else Sell, Market,
                             Magnitude(delta), None, p.value.decisionTime, false))
  }

  function Placed(cfg: ExchangeConfig, d: Driver): (r: Driver)
    requires WellFormed(d.exchange.orders)
    ensures WellFormed(r.exchange.orders)
  {
    var wanted := Wanted(d.pending, d.exchange.books.ledger.position);
    if wanted.None? then d.(pending := None)
    else
      var (exchange, result) := Submit(cfg, d.exchange, wanted.value, d.pending.value.decisionTime);
      var m := d.metrics.(signals := d.metrics.signals + 1);
      d.(exchange := exchange, pending := None,
         metrics := if result.status == Rejected then m.(rejectedOrders := m.rejectedOrders + 1)
                    else m.(acceptedOrders := m.acceptedOrders + 1))
  }

  // ----- one row -----

  predicate DecisionDue(o: ReplayOptions, policy: Policy, e: MarketEvent)
    requires o.decisionEvery > 0
  {
    e.sequence % o.decisionEvery == 0 || e.sequence in policy.taped
  }

  /** A decision whose probability is below the threshold becomes a hold. */
  function Gated(o: ReplayOptions, decision: ModelDecision): ModelDecision {
    if decision.ChosenPpm() < o.thresholdPpm then decision.(action := Hold) else decision
  }

  function Decided(o: ReplayOptions, policy: Policy, state: ModelState, e: MarketEvent): Option<PendingDecision>
    requires o.decisionEvery > 0
  {
    if DecisionDue(o, policy, e) then Some(PendingDecision(Gated(o, policy.decide(state)), e.receiveTime)) else None
  }

  function Measured(m: Metrics, equity: int): Metrics {
    var peak := Max(m.peakEquity, equity);
    m.(peakEquity := peak, maxDrawdown := Max(m.maxDrawdown, peak - equity))
  }

  function OnEvent(o: ReplayOptions, policy: Policy, d: Driver, e: MarketEvent): (r: Driver)
    requires WellFormed(d.exchange.orders) && o.decisionEvery > 0
    ensures WellFormed(r.exchange.orders)
  {
    var (exchange, accepted) := OnMarketEvent(ReplayConfig(o), d.exchange, e);
    if !accepted then
      d.(exchange := exchange, metrics := d.metrics.(ignoredEvents := d.metrics.ignoredEvents + 1))
    else
      var ledger := exchange.books.ledger;
      var state := FeatureState(d.history, LOOKBACK, e, ledger.position);
      var decided := Decided(o, policy, state, e);
      var m := d.metrics.(events := d.metrics.events + 1,
                          decisions := d.metrics.decisions + (if decided.Some? then 1 else 0));
      Driver(exchange, d.history + [Midpoint(e)], decided, Measured(m, ledger.equity), d.equities + [ledger.equity])
  }

  function OnRow(o: ReplayOptions, policy: Policy, d: Driver, row: ReplayRow): (r: Driver)
    requires WellFormed(d.exchange.orders) && o.decisionEvery > 0
    ensures WellFormed(r.exchange.orders)
  {
    var e := RowEvent(row, o.feedLatency);
    if !InWindow(o, e) then d
    else OnEvent(o, policy, Placed(ReplayConfig(o), d), e)
  }

  /** The replay of some rows; None when a row is invalid, where the program stops with an error. */
  function Replay(o: ReplayOptions, policy: Policy, d: Driver, rows: seq<ReplayRow>): (r: Option<Driver>)
    requires WellFormed(d.exchange.orders) && o.decisionEvery > 0
    ensures r.Some? ==> WellFormed(r.value.exchange.orders)
    decreases |rows|
  {
    if rows == [] then Some(d)
    else if !ValidRow(rows[0]) then None
    else Replay(o, policy, OnRow(o, policy, d, rows[0]), rows[1..])
  }

  // ----- the closing report -----

  function GrossProfit(fills: seq<PaperFill>): int {
    if fills == [] then 0
    else GrossProfit(fills[..|fills| - 1]) + Max(fills[|fills| - 1].realized, 0)
  }

  function GrossLoss(fills: seq<PaperFill>): int {
    if fills == [] then 0
    else GrossLoss(fills[..|fills| - 1]) + Max(-fills[|fills| - 1].realized, 0)
  }

  datatype Report = Report(
    metrics: Metrics,
    fills: nat,
    finalEquity: int,
    realized: int,
    unrealized: int,
    fees: int,
    grossProfit: int,
    grossLoss: int)

  function ReportOf(d: Driver): Report {
    var ledger, fills := d.exchange.books.ledger, d.exchange.books.fills;
    Report(d.metrics, |fills|, ledger.equity, ledger.realized, ledger.unrealized, ledger.fees,
           GrossProfit(fills), GrossLoss(fills))
  }
}
