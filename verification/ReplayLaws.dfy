/** What one row does to a replay, said once in plain terms: which rows stop it, what each row shows,
    when a decision is made, and when its order reaches the target. */
module ReplayLaws {
  import opened FixedPoint
  import opened Types
  import opened LedgerModel
  import opened LedgerTheorems
  import opened LedgerLaws
  import opened Risk
  import opened ExchangeModel
  import opened ExchangeInvariants
  import opened Matching
  import opened PositionLimits
  import opened PositionSafety
  import opened OrderLaws
  import opened Features
  import opened ReplayModel
  import opened ReplayTheorems

  // ----- rows -----

  /** A row the program goes on with. */
  predicate Readable(row: ReplayRow) {
    && row.sequence > 0 && row.exchangeTime > 0 && row.bestBid > 0 && row.bestAsk >= row.bestBid
    && row.bidQuantity >= 0 && row.askQuantity >= 0 && row.tradePrice >= 0 && row.tradeQuantity >= 0
  }

  /** A replay runs to its end if and only if every row is readable. */
  lemma {:induction false} ReplayRunsOnReadableRows(o: ReplayOptions, policy: Policy, d: Driver, rows: seq<ReplayRow>)
    requires WellFormed(d.exchange.orders) && o.decisionEvery > 0
    ensures Replay(o, policy, d, rows).Some? <==> forall i :: 0 <= i < |rows| ==> Readable(rows[i])
    decreases |rows|
  {
    hide OnRow;
    if rows != [] && ValidRow(rows[0]) {
      ReplayRunsOnReadableRows(o, policy, OnRow(o, policy, d, rows[0]), rows[1..]);
      assert rows == [rows[0]] + rows[1..];
    }
  }

  /** The event a row shows: received one feed latency after its exchange time, with a trade when it has
      a trade price. */
  function Shown(o: ReplayOptions, row: ReplayRow): MarketEvent {
    MarketEvent(row.sequence, row.exchangeTime, row.exchangeTime + o.feedLatency, row.bestBid, row.bestAsk,
                row.bidQuantity, row.askQuantity, if row.tradePrice > 0 then Some(row.tradePrice) else None,
                row.tradeQuantity, row.aggressor)
  }

  /** A decision below the threshold keeps everything but its action. */
  ghost predicate Thresholded(o: ReplayOptions, made: ModelDecision, used: ModelDecision) {
    var chosen := if made.action == LongPosition then made.longPpm
                  else if made.action == ShortPosition then made.shortPpm else made.holdPpm;
    used == if chosen < o.thresholdPpm then made.(action := Hold) else made
  }

  ghost predicate IsMultiple(n: int, of: int) {
    exists times: int :: n == times * of
  }

  lemma MultiplesLeaveNothing(n: nat, of: nat)
    requires of > 0
    ensures n % of == 0 <==> IsMultiple(n, of)
  {
    if n % of == 0 {
      assert n == (n / of) * of;
    }
    if times: int :| n == times * of {
      assert of * times == n;
      ModUnique(n, of, 0, times);
    }
  }

  /** One row.  Outside the window it does nothing; inside, the pending decision is traded and its event
      shown.  A heard event adds one midpoint and one equity, and a decision on the features at that
      moment exactly at multiples of the interval and at taped sequence numbers. */
  lemma RowIsExact(o: ReplayOptions, policy: Policy, d: Driver, row: ReplayRow)
    requires WellFormed(d.exchange.orders) && o.decisionEvery > 0
    ensures var d' := OnRow(o, policy, d, row);
            if row.exchangeTime < o.startTime || row.exchangeTime > o.endTime then d' == d
            else
              var placed, e := Placed(ReplayConfig(o), d), Shown(o, row);
              var (s, heard) := OnMarketEvent(ReplayConfig(o), placed.exchange, e);
              && d'.exchange == s
              && d'.metrics.acceptedOrders == placed.metrics.acceptedOrders
              && d'.metrics.rejectedOrders == placed.metrics.rejectedOrders
              && (!heard ==> d'.pending == None && d'.history == d.history && d'.equities == d.equities
                             && d'.metrics.ignoredEvents == d.metrics.ignoredEvents + 1)
              && (heard ==>
                    && d'.history == d.history + [Midpoint(e)]
                    && d'.equities == d.equities + [s.books.ledger.equity]
                    && d'.metrics.events == d.metrics.events + 1
                    && (d'.pending.Some? <==> IsMultiple(row.sequence, o.decisionEvery) || row.sequence in policy.taped)
                    && d'.metrics.decisions == d.metrics.decisions + (if d'.pending.Some? then 1 else 0)
                    && (d'.pending.Some? ==>
                          && d'.pending.value.decisionTime == row.exchangeTime + o.feedLatency
                          && Thresholded(o, policy.decide(FeatureState(d.history, 100, e, s.books.ledger.position)),
                                         d'.pending.value.decision)))
  {
    hide OnMarketEvent, Wanted, Submit, FeatureState;
    MultiplesLeaveNothing(row.sequence, o.decisionEvery);
    assert RowEvent(row, o.feedLatency) == Shown(o, row);
    PlacingCountsOnly(ReplayConfig(o), d);
  }

  lemma PlacingCountsOnly(cfg: ExchangeConfig, d: Driver)
    requires WellFormed(d.exchange.orders)
    ensures var p := Placed(cfg, d);
            && p.history == d.history && p.equities == d.equities && p.pending == None
            && p.metrics == d.metrics.(signals := p.metrics.signals, acceptedOrders := p.metrics.acceptedOrders,
                                       rejectedOrders := p.metrics.rejectedOrders)
  {
    hide Submit, Wanted;
  }

  // ----- counting orders -----

  /** All orders were decided before the pending decision, which was made on the market event. */
  ghost predicate NamesInOrder(d: Driver) {
    var s := d.exchange;
    && (s.orders != [] ==> s.market.Some?)
    && (d.pending.Some? ==> s.market.Some? && d.pending.value.decision.stateSequence == s.market.value.sequence)
    && forall k :: 0 <= k < |s.orders| ==> NamedBelow(s.orders[k].request.clientOrderId,
                                                      s.market.value.sequence + (if d.pending.Some? then 0 else 1))
  }

  ghost predicate NamedBelow(id: string, bound: nat) {
    exists q: nat :: q < bound && id == OrderName(q)
  }

  lemma StillNamedBelow(id: string, low: nat, high: nat)
    requires NamedBelow(id, low) && low <= high
    ensures NamedBelow(id, high)
  {
    var q: nat :| q < low && id == OrderName(q);
    assert q < high && id == OrderName(q);
  }

  lemma NewNameIsNew(id: string, bound: nat)
    requires NamedBelow(id, bound)
    ensures id != OrderName(bound)
  {
    var q: nat :| q < bound && id == OrderName(q);
    if id == OrderName(bound) {
      OrderNamesAreUnique(q, bound);
    }
  }

  ghost predicate CountsOrders(o: ReplayOptions, d: Driver) {
    && Inv(ReplayConfig(o), d.exchange) && WellFormed(d.exchange.orders)
    && NamesInOrder(d) && d.metrics.acceptedOrders == |d.exchange.orders|
  }

  /** A submission in a replay is counted as accepted exactly when its order is stored. */
  lemma PlacedCounts(o: ReplayOptions, d: Driver)
    requires CountsOrders(o, d)
    ensures CountsOrders(o, Placed(ReplayConfig(o), d))
  {
    hide SubmitProblem, BooksInv, OrderName, NamedBelow, NormalizedQuantity;
    var cfg, s := ReplayConfig(o), d.exchange;
    var wanted := Wanted(d.pending, s.books.ledger.position);
    if d.pending.Some? {
      var bound := s.market.value.sequence;
      forall k | 0 <= k < |s.orders|
        ensures NamedBelow(s.orders[k].request.clientOrderId, bound + 1)
        ensures s.orders[k].request.clientOrderId != OrderName(bound)
      {
        StillNamedBelow(s.orders[k].request.clientOrderId, bound, bound + 1);
        NewNameIsNew(s.orders[k].request.clientOrderId, bound);
      }
      if wanted.Some? {
        SubmitKeepsInv(cfg, s, wanted.value, d.pending.value.decisionTime);
        NewIsNotDuplicate(cfg, s, wanted.value, d.pending.value.decisionTime);
        NamedBelow1(bound);
      }
    }
  }

  lemma NamedBelow1(q: nat)
    ensures NamedBelow(OrderName(q), q + 1)
  {
  }

  lemma NewIsNotDuplicate(cfg: ExchangeConfig, s: Exchange, request: OrderRequest, decisionTime: int)
    requires Inv(cfg, s)
    requires forall k :: 0 <= k < |s.orders| ==> s.orders[k].request.clientOrderId != request.clientOrderId
    ensures SubmitProblem(cfg, s, request, decisionTime) != DuplicateClientOrderId
  {
    hide BooksInv, Evaluate, CheckedWideNotional, NormalizedQuantity;
  }

  lemma RowCounts(o: ReplayOptions, policy: Policy, d: Driver, row: ReplayRow)
    requires CountsOrders(o, d) && o.decisionEvery > 0 && Echoes(policy)
    ensures CountsOrders(o, OnRow(o, policy, d, row))
  {
    hide BooksInv, Placed, OrderName, NamedBelow, Processed, MarkToMarket, ValidConfig;
    var e := RowEvent(row, o.feedLatency);
    if InWindow(o, e) {
      PlacedCounts(o, d);
      var p := Placed(ReplayConfig(o), d);
      PlacingCountsOnly(ReplayConfig(o), d);
      EventKeepsInv(ReplayConfig(o), p.exchange, e);
      if EventAccepted(ReplayConfig(o), p.exchange, e) {
        forall k | 0 <= k < |p.exchange.orders|
          ensures NamedBelow(p.exchange.orders[k].request.clientOrderId, e.sequence)
          ensures NamedBelow(p.exchange.orders[k].request.clientOrderId, e.sequence + 1)
        {
          StillNamedBelow(p.exchange.orders[k].request.clientOrderId, p.exchange.market.value.sequence + 1, e.sequence);
          StillNamedBelow(p.exchange.orders[k].request.clientOrderId, p.exchange.market.value.sequence + 1, e.sequence + 1);
        }
      }
    }
  }

  lemma {:induction false} ReplayCounts(o: ReplayOptions, policy: Policy, d: Driver, rows: seq<ReplayRow>)
    requires CountsOrders(o, d) && o.decisionEvery > 0 && Echoes(policy) && Replay(o, policy, d, rows).Some?
    ensures CountsOrders(o, Replay(o, policy, d, rows).value)
    decreases |rows|
  {
    hide CountsOrders, OnRow;
    assert WellFormed(d.exchange.orders) by { CountedIsWellFormed(o, d); }
    if rows != [] {
      RowCounts(o, policy, d, rows[0]);
      ReplayCounts(o, policy, OnRow(o, policy, d, rows[0]), rows[1..]);
    }
  }

  lemma CountedIsWellFormed(o: ReplayOptions, d: Driver)
    requires CountsOrders(o, d)
    ensures WellFormed(d.exchange.orders)
  {
  }

  /** In every replay with a model that answers for the state it is shown, the accepted orders of the
      report are the orders the exchange has stored. */
  lemma AcceptedOrdersAreStored(o: ReplayOptions, policy: Policy, rows: seq<ReplayRow>)
    requires o.decisionEvery > 0 && Echoes(policy) && Replay(o, policy, InitialDriver(o), rows).Some?
    ensures var d := Replay(o, policy, InitialDriver(o), rows).value;
            d.metrics.acceptedOrders == |d.exchange.orders|
  {
    hide Replay, Inv;
    InitialInv(ReplayConfig(o));
    ReplayCounts(o, policy, InitialDriver(o), rows);
  }

  // ----- reaching the target -----

  /** Balances far inside 64 bits. */
  predicate Modest(l: LedgerState) {
    && Magnitude(l.cash) <= 100_000_000_000_000_000 && Magnitude(l.realized) <= 100_000_000_000_000_000
    && Magnitude(l.fees) <= 100_000_000_000_000_000 && Magnitude(l.cost) <= 100_000_000_000_000
  }

  /** A book at ordinary prices. */
  predicate Ordinary(e: MarketEvent) {
    4 <= e.bestBid <= e.bestAsk <= 1_000_000_000_000
  }

  lemma OrdinarySlip(o: ReplayOptions, e: MarketEvent, side: Side)
    requires Ordinary(e) && o.slippagePpm <= 500_000
    ensures var price := SlippedPrice(if side == Buy then e.bestAsk else e.bestBid, side, o.slippagePpm);
            price.Some? && 0 < price.value <= 2_000_000_000_000
  {
    var touch := if side == Buy then e.bestAsk else e.bestBid;
    var slip := CeilPpm(touch * o.slippagePpm);
    MulNonNegative(touch, o.slippagePpm);
    MulMono(touch, o.slippagePpm, 500_000);
    SlipIsExact(touch, side, o.slippagePpm, slip);
  }

  lemma ReplayNotional(o: ReplayOptions, quantity: int, price: int)
    requires Magnitude(quantity) <= 200 && 0 < price <= 2_000_000_000_000
    ensures 0 <= ExactNotional(ReplayConfig(o).ledger, quantity, price) <= 400_000_000_000
    ensures ScaleDown(ReplayConfig(o).ledger) == 1000
  {
    assert Pow10(3) == 1000;
    NotionalFloor(ReplayConfig(o).ledger, quantity, price);
    MulMono(price, Magnitude(quantity), 200);
  }

  /** At ordinary prices and with modest balances no fill of a replay is refused. */
  lemma OrdinaryFill(o: ReplayOptions, ledger: LedgerState, request: OrderRequest, price: int)
    requires SignedCost(ledger) && Modest(ledger) && -100 <= ledger.position <= 100 && o.takerFeePpm <= 1_000_000
    requires 0 < request.quantity <= 200 && 0 < price <= 2_000_000_000_000
    requires -100 <= ledger.position + SignedQuantity(request.side, request.quantity) <= 100
    ensures DryFill(ReplayConfig(o), ledger, request, request.quantity, price, false).Some?
  {
    hide ExactNotional, ScaleDown, DryFill, FillFits;
    var cfg, signed := ReplayConfig(o).ledger, SignedQuantity(request.side, request.quantity);
    var n := ExactNotional(cfg, request.quantity, price);
    ReplayNotional(o, request.quantity, price);
    ReplayNotional(o, signed, price);
    ReplayNotional(o, ledger.position + signed, price);
    var fee := CeilPpm(n * o.takerFeePpm);
    MulNonNegative(n, o.takerFeePpm);
    MulMono(n, o.takerFeePpm, 1_000_000);
    BoundedFillSucceeds(cfg, ledger, signed, price, fee, 1_000_000_000_000_000_000);
    FillIsExact(cfg, ledger, signed, price, fee);
    FillGoesThroughExactly(ReplayConfig(o), ledger, request, request.quantity, price, false, fee);
  }

  lemma WaitingOrderFills(o: ReplayOptions, s: Exchange, e: MarketEvent)
    requires Inv(ReplayConfig(o), s) && WellFormed(s.orders) && DoneButLast(s.orders) && |s.orders| > 0
    requires EventAccepted(ReplayConfig(o), s, e) && Ordinary(e) && o.slippagePpm <= 500_000 && Modest(s.books.ledger)
    requires var order, position := s.orders[|s.orders| - 1], s.books.ledger.position;
             && order.status == Pending && order.request.orderType == Market && order.activeTime <= e.receiveTime
             && FlatOrOnTarget(position) && OnTarget(position + SignedQuantity(order.request.side, order.request.quantity))
    ensures var request := s.orders[|s.orders| - 1].request;
            OnMarketEvent(ReplayConfig(o), s, e).0.books.ledger.position
            == s.books.ledger.position + SignedQuantity(request.side, request.quantity)
  {
    hide BooksInv, Activate, Processed, MarkToMarket, Move, DryFill, SlippedPrice, Balanced, Modest, Ordinary;
    var cfg, order := ReplayConfig(o), s.orders[|s.orders| - 1];
    OrdersAreGood(cfg, s.books, s.orders, |s.orders| - 1);
    BooksBalanced(cfg, s.books, s.orders);
    BalancedIsSigned(cfg.ledger, s.books.ledger);
    LoneOrderEvent(cfg, s, e);
    ActivationIsExact(cfg, s.books, order, e);
    OrdinarySlip(o, e, order.request.side);
    var price := SlippedPrice(if order.request.side == Buy then e.bestAsk else e.bestBid, order.request.side, o.slippagePpm);
    OrdinaryFill(o, s.books.ledger, order.request, price.value);
    DryFillMovesPosition(cfg, s.books.ledger, order.request, order.remaining, price.value, false);
    MarkMovesNothing(cfg.ledger, Processed(cfg, s, e).books.ledger, Midpoint(e));
  }

  lemma BalancedIsSigned(cfg: LedgerConfig, st: LedgerState)
    requires Balanced(cfg, st)
    ensures SignedCost(st)
  {
  }

  /** In a replay of increasing rows, at ordinary prices and with modest balances, an order that waits
      when an event is heard is filled by it: the position reaches the target, flips included. */
  lemma OrdersReachTheirTarget(o: ReplayOptions, policy: Policy, rows: seq<ReplayRow>, row: ReplayRow)
    requires o.decisionEvery > 0 && Echoes(policy) && Increasing(rows + [row], 0) && o.slippagePpm <= 500_000
    requires Replay(o, policy, InitialDriver(o), rows).Some?
    requires var s := Placed(ReplayConfig(o), Replay(o, policy, InitialDriver(o), rows).value).exchange;
             && o.startTime <= row.exchangeTime <= o.endTime && EventAccepted(ReplayConfig(o), s, Shown(o, row))
             && !NoneLive(s.orders) && Modest(s.books.ledger) && Ordinary(Shown(o, row))
    ensures var d := Replay(o, policy, InitialDriver(o), rows).value;
            var s := Placed(ReplayConfig(o), d).exchange;
            && s.orders != []
            && var request, after := s.orders[|s.orders| - 1].request, OnRow(o, policy, d, row).exchange.books.ledger.position;
            && after == s.books.ledger.position + SignedQuantity(request.side, request.quantity)
            && after in {-100, 100}
  {
    hide Replay, Placed, EventAccepted, OnMarketEvent, BooksInv, Causal, PendingReady, FeatureState, Decided, Modest,
         Ordinary, Increasing;
    var d := Replay(o, policy, InitialDriver(o), rows).value;
    PlacedReplayIsReady(o, policy, rows, row);
    assert RowEvent(row, o.feedLatency) == Shown(o, row);
    WaitingOrderFills(o, Placed(ReplayConfig(o), d).exchange, Shown(o, row));
  }
}
