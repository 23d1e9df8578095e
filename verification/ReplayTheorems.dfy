/** What a replay guarantees: positions on target, one live order at a time, no look-ahead, and a
    report that reconciles with the ledger. */
module ReplayTheorems {
  import opened FixedPoint
  import opened Types
  import opened LedgerModel
  import opened LedgerTheorems
  import opened Risk
  import opened ExchangeModel
  import opened ExchangeInvariants
  import opened ExchangeTheorems
  import opened Matching
  import opened QueuePosition
  import opened Cancellation
  import opened Provenance
  import opened PositionLimits
  import opened Features
  import opened ReplayModel

  // ----- one event, at most one live order -----

  /** All orders but the last are done. */
  ghost predicate DoneButLast(orders: seq<PaperOrder>) {
    forall k :: 0 <= k < |orders| - 1 ==> IsTerminal(orders[k].status)
  }

  lemma QuietEvent(cfg: ExchangeConfig, s: Exchange, e: MarketEvent)
    requires WellFormed(s.orders) && NoneLive(s.orders)
    ensures Processed(cfg, s, e) == Opening(s, e)
  {
    hide Pass;
    IdlePass(cfg, Activating, Opening(s, e), |s.orders|, e);
    IdlePass(cfg, Matching, Opening(s, e), |s.orders|, e);
    IdlePass(cfg, Cancelling, Opening(s, e), |s.orders|, e);
  }

  /** A lone pending market order that is due is activated, and that settles it. */
  lemma LoneOrderEvent(cfg: ExchangeConfig, s: Exchange, e: MarketEvent)
    requires WellFormed(s.orders) && BooksInv(cfg, s.books, s.orders) && DoneButLast(s.orders) && |s.orders| > 0
    requires var o := s.orders[|s.orders| - 1];
             o.status == Pending && o.request.orderType == Market && o.activeTime <= e.receiveTime
    ensures var k := |s.orders| - 1;
            var (b', o') := Activate(cfg, s.books, s.orders[k], e);
            && Processed(cfg, s, e).books == b' && Processed(cfg, s, e).orders == s.orders[k := o']
            && Move(cfg, e, s.books, s.orders[k], b', o') && IsTerminal(o'.status)
            && NoneLive(Processed(cfg, s, e).orders)
  {
    hide BooksInv, Activate, Pass, Move;
    var k := |s.orders| - 1;
    var o := s.orders[k];
    OrdersAreGood(cfg, s.books, s.orders, k);
    ActivateMoves(cfg, s.books, o, e);
    var r := Activate(cfg, s.books, o, e);
    MarketOrderSettles(cfg, s.books, o, e);
    var start := Opening(s, e);
    IdlePass(cfg, Activating, start, k, e);
    LastVisit(cfg, Activating, start, e);
    var a := Floor(r.0, s.orders[k := r.1], start.volume);
    assert Activated(cfg, s, e) == a;
    IdlePass(cfg, Matching, a, k + 1, e);
    IdlePass(cfg, Cancelling, a, k + 1, e);
  }

  lemma LastVisit(cfg: ExchangeConfig, phase: Phase, floor: Floor, e: MarketEvent)
    requires WellFormed(floor.orders) && |floor.orders| > 0
    ensures FullPass(cfg, phase, floor, e)
         == VisitAt(cfg, phase, Pass(cfg, phase, floor, |floor.orders| - 1, e), |floor.orders| - 1, e)
  {
    hide VisitAt;
  }

  lemma MarketOrderSettles(cfg: ExchangeConfig, b: Books, o: PaperOrder, e: MarketEvent)
    requires GoodOrder(o) && o.status == Pending && o.request.orderType == Market && o.activeTime <= e.receiveTime
    ensures IsTerminal(Activate(cfg, b, o, e).1.status)
  {
    hide ApplyFill, FillFee, SlippedPrice;
  }

  // ----- positions and profits -----

  predicate OnTarget(position: int) {
    position == -TARGET || position == TARGET
  }

  predicate FlatOrOnTarget(position: int) {
    position == 0 || OnTarget(position)
  }

  /** The profits and losses of a tape without their signs. */
  function ProfitAndLoss(fills: seq<PaperFill>): int {
    if fills == [] then 0 else ProfitAndLoss(fills[..|fills| - 1]) + Magnitude(fills[|fills| - 1].realized)
  }

  lemma {:induction false} ProfitLessLoss(fills: seq<PaperFill>)
    ensures GrossProfit(fills) - GrossLoss(fills) == RealizedOnTape(fills)
    ensures GrossProfit(fills) + GrossLoss(fills) == ProfitAndLoss(fills)
    ensures GrossProfit(fills) >= 0 && GrossLoss(fills) >= 0
  {
    if fills != [] {
      ProfitLessLoss(fills[..|fills| - 1]);
    }
  }

  // ----- the invariant of the loop -----

  /** The order was decided on an event the exchange has already seen. */
  ghost predicate DecidedBy(clientOrderId: string, sequence: nat) {
    exists q: nat :: q <= sequence && clientOrderId == OrderName(q)
  }

  ghost predicate NoLookAhead(fills: seq<PaperFill>) {
    forall i :: 0 <= i < |fills| ==> FilledLater(fills[i])
  }

  /** The market event of a fill comes after the event its order was decided on. */
  ghost predicate FilledLater(f: PaperFill) {
    exists q: nat :: q < f.marketSequence && f.clientOrderId == OrderName(q)
  }

  /** The only order that may be live: a market order that leads to a target position and is due at
      any event later than `last`. */
  ghost predicate Awaiting(o: ReplayOptions, order: PaperOrder, position: int, last: int) {
    && order.status == Pending && order.request.orderType == Market
    && order.activeTime <= last + o.feedLatency + 1
    && OnTarget(position + SignedQuantity(order.request.side, order.request.quantity))
  }

  ghost predicate ExchangeReady(o: ReplayOptions, s: Exchange, last: int) {
    && Inv(ReplayConfig(o), s)
    && FlatOrOnTarget(s.books.ledger.position)
    && DoneButLast(s.orders)
    && (!NoneLive(s.orders) ==> Awaiting(o, s.orders[|s.orders| - 1], s.books.ledger.position, last))
    && (s.market.Some? ==> s.market.value.exchangeTime <= last
                           && s.market.value.receiveTime == s.market.value.exchangeTime + o.feedLatency)
    && (s.market.None? ==> s.orders == [])
  }

  ghost predicate Causal(s: Exchange) {
    && NoLookAhead(s.books.fills)
    && forall k :: 0 <= k < |s.orders| ==>
         s.market.Some? && DecidedBy(s.orders[k].request.clientOrderId, s.market.value.sequence)
  }

  ghost predicate PendingReady(s: Exchange, p: Option<PendingDecision>) {
    p.Some? ==>
      && NoneLive(s.orders) && s.market.Some?
      && p.value.decisionTime == s.market.value.receiveTime
      && p.value.decision.stateSequence == s.market.value.sequence
  }

  ghost predicate DriverInv(o: ReplayOptions, d: Driver, last: int) {
    && ExchangeReady(o, d.exchange, last) && Causal(d.exchange)
    && PendingReady(d.exchange, d.pending)
  }

  // ----- trading the pending decision -----

  /** A submission in a replay never fills: the order waits for a later event. */
  lemma ReplaySubmit(o: ReplayOptions, s: Exchange, request: OrderRequest, decisionTime: int)
    requires WellFormed(s.orders)
    ensures var cfg := ReplayConfig(o);
            var s' := Submit(cfg, s, request, decisionTime).0;
            if SubmitProblem(cfg, s, request, decisionTime) == NoProblem
            then s' == WithOrder(s, NewOrder(cfg, s, request, decisionTime)) && s.market.Some?
                 && NewOrder(cfg, s, request, decisionTime).request == request
            else s' == s
  {
    hide Evaluate, CheckedWideNotional, ValidConfig;
    if SubmitProblem(ReplayConfig(o), s, request, decisionTime) == NoProblem {
      assert NormalizedQuantity(ReplayConfig(o), request.quantity) == request.quantity;
    }
  }

  lemma PlacedIsReady(o: ReplayOptions, d: Driver, last: int)
    requires DriverInv(o, d, last) && WellFormed(d.exchange.orders)
    ensures var d' := Placed(ReplayConfig(o), d);
            DriverInv(o, d', last) && d'.pending == None
  {
    hide Submit, SubmitProblem, BooksInv, OrderName, DecidedBy, NoLookAhead;
    var cfg, s := ReplayConfig(o), d.exchange;
    var wanted := Wanted(d.pending, s.books.ledger.position);
    if wanted.Some? {
      var request, time := wanted.value, d.pending.value.decisionTime;
      ReplaySubmit(o, s, request, time);
      SubmitKeepsInv(cfg, s, request, time);
      DecidedNow(d.pending.value.decision.stateSequence);
    }
  }

  lemma DecidedNow(q: nat)
    ensures DecidedBy(OrderName(q), q)
  {
  }

  // ----- showing the next event -----

  lemma DecidedEarlier(clientOrderId: string, p: nat, q: nat)
    requires DecidedBy(clientOrderId, p) && p <= q
    ensures DecidedBy(clientOrderId, q)
  {
    var r: nat :| r <= p && clientOrderId == OrderName(r);
    assert r <= q && clientOrderId == OrderName(r);
  }

  lemma FilledOnLaterEvent(f: PaperFill, p: nat)
    requires DecidedBy(f.clientOrderId, p) && p < f.marketSequence
    ensures FilledLater(f)
  {
    var r: nat :| r <= p && f.clientOrderId == OrderName(r);
    assert r < f.marketSequence && f.clientOrderId == OrderName(r);
  }

  /** One accepted event: whatever was waiting is settled, on target, and what filled was decided on
      an earlier event. */
  lemma AcceptedEventIsReady(o: ReplayOptions, s: Exchange, e: MarketEvent, last: int)
    requires ExchangeReady(o, s, last) && Causal(s) && WellFormed(s.orders)
    requires EventAccepted(ReplayConfig(o), s, e)
    requires e.exchangeTime > last && e.receiveTime == e.exchangeTime + o.feedLatency
    ensures var s' := OnMarketEvent(ReplayConfig(o), s, e).0;
            && ExchangeReady(o, s', e.exchangeTime) && Causal(s')
            && NoneLive(s'.orders) && s'.market == Some(e)
  {
    hide BooksInv, Processed, Activate, DecidedBy, FilledLater, Move, MarkToMarket;
    var cfg := ReplayConfig(o);
    EventKeepsInv(cfg, s, e);
    MarkKeepsBooks(cfg.ledger, Processed(cfg, s, e).books.ledger, Midpoint(e));
    if NoneLive(s.orders) {
      QuietEvent(cfg, s, e);
    } else {
      LoneOrderEvent(cfg, s, e);
      var k := |s.orders| - 1;
      SettledOrder(o, s, e, last, Processed(cfg, s, e).books, Processed(cfg, s, e).orders[k]);
    }
    forall k | 0 <= k < |s.orders|
      ensures DecidedBy(s.orders[k].request.clientOrderId, e.sequence)
    {
      DecidedEarlier(s.orders[k].request.clientOrderId, s.market.value.sequence, e.sequence);
    }
  }

  /** What the settled order leaves on the ledger and on the tape. */
  lemma SettledOrder(o: ReplayOptions, s: Exchange, e: MarketEvent, last: int, b': Books, order': PaperOrder)
    requires ExchangeReady(o, s, last) && Causal(s) && !NoneLive(s.orders)
    requires s.market.Some? && s.market.value.sequence < e.sequence
    requires Move(ReplayConfig(o), e, s.books, s.orders[|s.orders| - 1], b', order')
    ensures FlatOrOnTarget(b'.ledger.position) && NoLookAhead(b'.fills)
    ensures order'.request == s.orders[|s.orders| - 1].request
  {
    hide BooksInv, DecidedBy, FilledLater, ApplyFill, Balanced;
    var cfg, k := ReplayConfig(o), |s.orders| - 1;
    if b' != s.books {
      var f := b'.fills[|s.books.fills|];
      OrdersAreGood(cfg, s.books, s.orders, k);
      BooksBalanced(cfg, s.books, s.orders);
      assert f.quantity == s.orders[k].request.quantity;
      var signed := SignedQuantity(f.side, f.quantity);
      FillKeepsBalance(cfg.ledger, s.books.ledger, signed, f.price, f.fee);
      FilledOnLaterEvent(f, s.market.value.sequence);
      assert b'.fills[..|b'.fills| - 1] == s.books.fills;
    }
  }

  lemma OnEventIsReady(o: ReplayOptions, policy: Policy, d: Driver, e: MarketEvent, last: int)
    requires DriverInv(o, d, last) && WellFormed(d.exchange.orders) && d.pending == None
    requires o.decisionEvery > 0 && Echoes(policy)
    requires e.exchangeTime > last && e.receiveTime == e.exchangeTime + o.feedLatency
    ensures DriverInv(o, OnEvent(o, policy, d, e), e.exchangeTime)
    ensures EventAccepted(ReplayConfig(o), d.exchange, e) ==> NoneLive(OnEvent(o, policy, d, e).exchange.orders)
  {
    hide OnMarketEvent, EventAccepted, Inv, Awaiting, Causal;
    var cfg := ReplayConfig(o);
    if EventAccepted(cfg, d.exchange, e) {
      AcceptedEventIsReady(o, d.exchange, e, last);
      AcceptedMeansTrue(cfg, d.exchange, e);
    } else {
      IgnoredIsReady(o, d.exchange, e, last);
    }
  }

  lemma AcceptedMeansTrue(cfg: ExchangeConfig, s: Exchange, e: MarketEvent)
    requires WellFormed(s.orders)
    ensures OnMarketEvent(cfg, s, e).1 == EventAccepted(cfg, s, e)
  {
    hide EventAccepted, Processed;
  }

  lemma IgnoredIsReady(o: ReplayOptions, s: Exchange, e: MarketEvent, last: int)
    requires ExchangeReady(o, s, last) && Causal(s) && WellFormed(s.orders)
    requires !EventAccepted(ReplayConfig(o), s, e) && e.exchangeTime > last
    ensures var (s', accepted) := OnMarketEvent(ReplayConfig(o), s, e);
            && !accepted && s'.orders == s.orders
            && ExchangeReady(o, s', e.exchangeTime) && Causal(s')
  {
    hide BooksInv, EventAccepted, DecidedBy, NoLookAhead;
  }

  // ----- whole replays -----

  /** Rows come in strictly increasing exchange time, after `last`. */
  ghost predicate Increasing(rows: seq<ReplayRow>, last: int) {
    && (forall i :: 0 <= i < |rows| ==> rows[i].exchangeTime > last)
    && (forall i, j :: 0 <= i < j < |rows| ==> rows[i].exchangeTime < rows[j].exchangeTime)
  }

  lemma RowIsReady(o: ReplayOptions, policy: Policy, d: Driver, row: ReplayRow, last: int)
    requires DriverInv(o, d, last) && WellFormed(d.exchange.orders) && o.decisionEvery > 0 && Echoes(policy)
    requires row.exchangeTime > last
    ensures DriverInv(o, OnRow(o, policy, d, row), row.exchangeTime)
  {
    hide OnEvent, Placed, Inv, Causal;
    var e := RowEvent(row, o.feedLatency);
    if InWindow(o, e) {
      PlacedIsReady(o, d, last);
      OnEventIsReady(o, policy, Placed(ReplayConfig(o), d), e, last);
    }
  }

  lemma {:induction false} ReplayIsReady(o: ReplayOptions, policy: Policy, d: Driver, rows: seq<ReplayRow>, last: int)
    requires DriverInv(o, d, last) && WellFormed(d.exchange.orders) && o.decisionEvery > 0 && Echoes(policy)
    requires Increasing(rows, last) && Replay(o, policy, d, rows).Some?
    ensures DriverInv(o, Replay(o, policy, d, rows).value, if rows == [] then last else rows[|rows| - 1].exchangeTime)
    decreases |rows|
  {
    hide DriverInv, OnRow;
    if rows != [] {
      RowIsReady(o, policy, d, rows[0], last);
      ReplayIsReady(o, policy, OnRow(o, policy, d, rows[0]), rows[1..], rows[0].exchangeTime);
    }
  }

  lemma InitialIsReady(o: ReplayOptions)
    ensures DriverInv(o, InitialDriver(o), 0)
  {
    hide Inv, Awaiting;
    InitialInv(ReplayConfig(o));
  }

  /** For rows in strictly increasing exchange time: the position is always short, flat or long by
      exactly the target; at most one order is live, it is the last one, and it is a pending market
      order; every fill happens on an event with a sequence number above that of the event its order
      was decided on; and the profit the fills report adds up to the realized profit of the ledger. */
  lemma ReplayStaysOnTarget(o: ReplayOptions, policy: Policy, rows: seq<ReplayRow>)
    requires o.decisionEvery > 0 && Echoes(policy) && Increasing(rows, 0)
    requires Replay(o, policy, InitialDriver(o), rows).Some?
    ensures var s := Replay(o, policy, InitialDriver(o), rows).value.exchange;
            && s.books.ledger.position in {-100, 0, 100}
            && (forall k :: 0 <= k < |s.orders| && !IsTerminal(s.orders[k].status) ==>
                  k == |s.orders| - 1 && s.orders[k].status == Pending && s.orders[k].request.orderType == Market)
            && NoLookAhead(s.books.fills)
            && RealizedOnTape(s.books.fills) == s.books.ledger.realized
  {
    hide Replay, Inv;
    InitialIsReady(o);
    ReplayIsReady(o, policy, InitialDriver(o), rows, 0);
    ReplayProfitsAreExact(o, policy, rows);
  }

  /** After every accepted event of a replay no order is live: an order is resolved by the first
      accepted event after its submission. */
  lemma AcceptedEventResolves(o: ReplayOptions, policy: Policy, rows: seq<ReplayRow>, row: ReplayRow)
    requires o.decisionEvery > 0 && Echoes(policy) && Increasing(rows + [row], 0)
    requires Replay(o, policy, InitialDriver(o), rows).Some?
    requires var d := Replay(o, policy, InitialDriver(o), rows).value;
             var e := RowEvent(row, o.feedLatency);
             InWindow(o, e) && EventAccepted(ReplayConfig(o), Placed(ReplayConfig(o), d).exchange, e)
    ensures NoneLive(OnRow(o, policy, Replay(o, policy, InitialDriver(o), rows).value, row).exchange.orders)
  {
    hide Replay, DriverInv, Placed, OnEvent, EventAccepted, Increasing;
    var d := Replay(o, policy, InitialDriver(o), rows).value;
    var last := if rows == [] then 0 else rows[|rows| - 1].exchangeTime;
    PlacedReplayIsReady(o, policy, rows, row);
    OnEventIsReady(o, policy, Placed(ReplayConfig(o), d), RowEvent(row, o.feedLatency), last);
  }

  /** When the next row of an increasing replay is shown, its decision has been traded and the loop's
      invariant holds. */
  lemma PlacedReplayIsReady(o: ReplayOptions, policy: Policy, rows: seq<ReplayRow>, row: ReplayRow)
    requires o.decisionEvery > 0 && Echoes(policy) && Increasing(rows + [row], 0)
    requires Replay(o, policy, InitialDriver(o), rows).Some?
    ensures var last := if rows == [] then 0 else rows[|rows| - 1].exchangeTime;
            var p := Placed(ReplayConfig(o), Replay(o, policy, InitialDriver(o), rows).value);
            DriverInv(o, p, last) && p.pending == None && row.exchangeTime > last
  {
    hide Replay, DriverInv, Placed;
    assert forall i :: 0 <= i < |rows| ==> rows[i] == (rows + [row])[i];
    assert (rows + [row])[|rows|] == row;
    InitialIsReady(o);
    ReplayIsReady(o, policy, InitialDriver(o), rows, 0);
    PlacedIsReady(o, Replay(o, policy, InitialDriver(o), rows).value, if rows == [] then 0 else rows[|rows| - 1].exchangeTime);
  }

  // ----- a replay is a run of the exchange -----

  /** What a row does to the exchange, as actions of a run. */
  function RowActions(o: ReplayOptions, d: Driver, row: ReplayRow): seq<Action> {
    var e := RowEvent(row, o.feedLatency);
    var wanted := Wanted(d.pending, d.exchange.books.ledger.position);
    if !InWindow(o, e) then []
    else if wanted.Some? then [SubmitOrder(wanted.value, d.pending.value.decisionTime), Event(e)]
    else [Event(e)]
  }

  function ReplayActions(o: ReplayOptions, policy: Policy, d: Driver, rows: seq<ReplayRow>): seq<Action>
    requires WellFormed(d.exchange.orders) && o.decisionEvery > 0
    decreases |rows|
  {
    if rows == [] then [] else RowActions(o, d, rows[0]) + ReplayActions(o, policy, OnRow(o, policy, d, rows[0]), rows[1..])
  }

  lemma RowIsARun(o: ReplayOptions, policy: Policy, d: Driver, row: ReplayRow)
    requires WellFormed(d.exchange.orders) && o.decisionEvery > 0
    ensures Run(ReplayConfig(o), d.exchange, RowActions(o, d, row)) == OnRow(o, policy, d, row).exchange
  {
    hide Submit, OnMarketEvent;
    var cfg, e := ReplayConfig(o), RowEvent(row, o.feedLatency);
    var wanted := Wanted(d.pending, d.exchange.books.ledger.position);
    if InWindow(o, e) {
      var s := Placed(cfg, d).exchange;
      assert Run(cfg, s, [Event(e)]) == Run(cfg, Step(cfg, s, Event(e)), []);
      if wanted.Some? {
        var submit := SubmitOrder(wanted.value, d.pending.value.decisionTime);
        assert [submit, Event(e)][1..] == [Event(e)];
        assert Run(cfg, d.exchange, [submit, Event(e)]) == Run(cfg, Step(cfg, d.exchange, submit), [Event(e)]);
      }
    }
  }

  /** The exchange of a replay is the exchange of an ordinary run, so that every whole-run guarantee
      (tape, legality, lifecycle, exact wealth) holds of it. */
  lemma {:induction false} ReplayIsARun(o: ReplayOptions, policy: Policy, d: Driver, rows: seq<ReplayRow>)
    requires WellFormed(d.exchange.orders) && o.decisionEvery > 0 && Replay(o, policy, d, rows).Some?
    ensures Run(ReplayConfig(o), d.exchange, ReplayActions(o, policy, d, rows)) == Replay(o, policy, d, rows).value.exchange
    decreases |rows|
  {
    hide OnRow, RowActions;
    if rows != [] {
      var next := OnRow(o, policy, d, rows[0]);
      RowIsARun(o, policy, d, rows[0]);
      ReplayIsARun(o, policy, next, rows[1..]);
      RunConcat(ReplayConfig(o), d.exchange, RowActions(o, d, rows[0]), ReplayActions(o, policy, next, rows[1..]));
    }
  }

  // ----- what holds of every replay, whatever the times of its rows -----

  ghost predicate OnlyMarketOrders(actions: seq<Action>) {
    forall i :: 0 <= i < |actions| ==>
      !actions[i].CancelOrder? && (actions[i].SubmitOrder? ==> actions[i].request.orderType == Market)
  }

  lemma {:induction false} ReplaySendsMarketOrders(o: ReplayOptions, policy: Policy, d: Driver, rows: seq<ReplayRow>)
    requires WellFormed(d.exchange.orders) && o.decisionEvery > 0
    ensures OnlyMarketOrders(ReplayActions(o, policy, d, rows))
    decreases |rows|
  {
    hide OnRow, OrderName, InWindow;
    if rows != [] {
      ReplaySendsMarketOrders(o, policy, OnRow(o, policy, d, rows[0]), rows[1..]);
    }
  }

  /** Every order of such a run is a market order, and is pending or done. */
  lemma MarketOrdersWaitOrAreDone(cfg: ExchangeConfig, actions: seq<Action>, k: nat)
    requires OnlyMarketOrders(actions) && k < |Reached(cfg, actions).orders|
    ensures var o := Reached(cfg, actions).orders[k];
            o.request.orderType == Market && (o.status == Pending || IsTerminal(o.status))
  {
    hide Run, BooksInv, NormalizedQuantity, SubmitProblem;
    ReachedInv(cfg, actions);
    ReachedOrder(cfg, Reached(cfg, actions), k);
    NothingHappensUnasked(cfg, actions, k);
  }

  lemma MarketPricesAreNarrow(cfg: ExchangeConfig, actions: seq<Action>)
    requires OnlyMarketOrders(actions)
    ensures NarrowPrices(Reached(cfg, actions).books.fills)
  {
    hide Reached, Heard, OnlyMarketOrders, SlippedPrice;
    var s, h := Reached(cfg, actions), Heard(cfg, InitialExchange(cfg), map[], actions);
    EveryFillIsLegal(cfg, actions);
    forall i | 0 <= i < |s.books.fills|
      ensures s.books.fills[i].price <= INT64_MAX
    {
      var f := s.books.fills[i];
      assert LegallyFilled(cfg, s.orders, f, h);
      MarketOrdersWaitOrAreDone(cfg, actions, f.orderId - 1);
      SlippedPriceFits(Touch(f.side, h[f.marketSequence]), f.side, cfg.slippagePpm);
    }
  }

  lemma SlippedPriceFits(price: int, side: Side, ppm: nat)
    ensures SlippedPrice(price, side, ppm).Some? ==> SlippedPrice(price, side, ppm).value <= INT64_MAX
  {
  }

  /** The actions of a whole replay, and where they lead. */
  lemma WholeReplayIsARun(o: ReplayOptions, policy: Policy, rows: seq<ReplayRow>)
    requires o.decisionEvery > 0 && Replay(o, policy, InitialDriver(o), rows).Some?
    ensures var actions := ReplayActions(o, policy, InitialDriver(o), rows);
            && Reached(ReplayConfig(o), actions) == Replay(o, policy, InitialDriver(o), rows).value.exchange
            && OnlyMarketOrders(actions)
  {
    hide Replay, ReplayActions, Run;
    ReplayIsARun(o, policy, InitialDriver(o), rows);
    ReplaySendsMarketOrders(o, policy, InitialDriver(o), rows);
  }

  /** In every replay the profits the fills report add up to the realized profit of the ledger. */
  lemma ReplayProfitsAreExact(o: ReplayOptions, policy: Policy, rows: seq<ReplayRow>)
    requires o.decisionEvery > 0 && Replay(o, policy, InitialDriver(o), rows).Some?
    ensures var b := Replay(o, policy, InitialDriver(o), rows).value.exchange.books;
            RealizedOnTape(b.fills) == b.ledger.realized
  {
    hide Replay, ReplayActions, Reached;
    var actions := ReplayActions(o, policy, InitialDriver(o), rows);
    WholeReplayIsARun(o, policy, rows);
    MarketPricesAreNarrow(ReplayConfig(o), actions);
    assert ScaleDown(ReplayConfig(o).ledger) == 1000 by { assert Pow10(3) == 1000; }
    ReportedProfitsAreExact(ReplayConfig(o), actions);
  }

  /** In every run of market orders an accepted event settles exactly the live orders that are due. */
  lemma EventSettlesTheDue(cfg: ExchangeConfig, actions: seq<Action>, e: MarketEvent, k: nat)
    requires OnlyMarketOrders(actions) && k < |Reached(cfg, actions).orders|
    requires EventAccepted(cfg, Reached(cfg, actions), e)
    ensures WellFormed(Reached(cfg, actions).orders)
    ensures var o, o' := Reached(cfg, actions).orders[k], OnMarketEvent(cfg, Reached(cfg, actions), e).0.orders[k];
            if IsTerminal(o.status) || e.receiveTime < o.activeTime then o' == o else IsTerminal(o'.status)
  {
    hide Run, BooksInv, Activate, Pass, MarkToMarket, EventAccepted, MatchOne;
    var s := Reached(cfg, actions);
    ReachedInv(cfg, actions);
    MarketOrdersWaitOrAreDone(cfg, actions, k);
    OrdersAreGood(cfg, s.books, s.orders, k);
    OrderThroughEvent(cfg, s, k, e);
    ActivatedOrder(cfg, s, k, e);
    if CanActivate(s.orders[k], e) {
      MarketOrderSettles(cfg, Pass(cfg, Activating, Opening(s, e), k, e).books, s.orders[k], e);
    } else {
      OrderInPass(cfg, Matching, Activated(cfg, s, e), |s.orders|, k, e);
      var before := Pass(cfg, Matching, Activated(cfg, s, e), k, e);
      UnreachedStays(cfg, before.books, s.orders[k], e, before.volume);
    }
  }

  lemma UnreachedStays(cfg: ExchangeConfig, b: Books, o: PaperOrder, e: MarketEvent, volume: int)
    requires o.status == Pending || IsTerminal(o.status)
    ensures MatchOne(cfg, b, o, e, volume).1 == o
  {
  }

  /** In every replay, whatever the times of its rows: an accepted event leaves a live order alone exactly
      if the order is not due at it, and otherwise resolves it. */
  lemma DueOrdersResolve(o: ReplayOptions, policy: Policy, rows: seq<ReplayRow>, row: ReplayRow, k: nat)
    requires o.decisionEvery > 0 && Replay(o, policy, InitialDriver(o), rows).Some?
    requires var d := Replay(o, policy, InitialDriver(o), rows).value;
             var e := RowEvent(row, o.feedLatency);
             && InWindow(o, e) && EventAccepted(ReplayConfig(o), Placed(ReplayConfig(o), d).exchange, e)
             && k < |Placed(ReplayConfig(o), d).exchange.orders|
    ensures var d := Replay(o, policy, InitialDriver(o), rows).value;
            var before := Placed(ReplayConfig(o), d).exchange.orders[k];
            var after := OnRow(o, policy, d, row).exchange.orders;
            && k < |after|
            && (if IsTerminal(before.status) || RowEvent(row, o.feedLatency).receiveTime < before.activeTime
                then after[k] == before else IsTerminal(after[k].status))
  {
    hide Replay, ReplayActions, Run, Submit, EventAccepted, OnMarketEvent, OrderName, FeatureState, Decided;
    var cfg, d := ReplayConfig(o), Replay(o, policy, InitialDriver(o), rows).value;
    var actions := ReplayActions(o, policy, InitialDriver(o), rows);
    WholeReplayIsARun(o, policy, rows);
    var wanted := Wanted(d.pending, d.exchange.books.ledger.position);
    var longer := actions;
    if wanted.Some? {
      var submit := SubmitOrder(wanted.value, d.pending.value.decisionTime);
      longer := actions + [submit];
      RunAppend(cfg, InitialExchange(cfg), actions, submit);
    }
    assert Placed(cfg, d).exchange == Reached(cfg, longer) && OnlyMarketOrders(longer);
    EventSettlesTheDue(cfg, longer, RowEvent(row, o.feedLatency), k);
  }

  // ----- the report -----

  /** The report of every replay reconciles: gross profit less gross loss is the realized profit, and
      final equity is the initial equity plus that, plus the unrealized profit, less the fees. */
  lemma ReportReconciles(o: ReplayOptions, policy: Policy, rows: seq<ReplayRow>)
    requires o.decisionEvery > 0 && Replay(o, policy, InitialDriver(o), rows).Some?
    ensures var d := Replay(o, policy, InitialDriver(o), rows).value;
            var r := ReportOf(d);
            && r.grossProfit - r.grossLoss == r.realized == RealizedOnTape(d.exchange.books.fills)
            && r.grossProfit + r.grossLoss == ProfitAndLoss(d.exchange.books.fills)
            && r.fills == |d.exchange.books.fills| && r.fees == d.exchange.books.ledger.fees && r.metrics == d.metrics
            && r.grossProfit >= 0 && r.grossLoss >= 0
            && r.finalEquity == 10_000_000 + r.grossProfit - r.grossLoss + r.unrealized - r.fees
  {
    hide Replay, ReplayActions, Run, BooksInv, Balanced;
    var cfg, s := ReplayConfig(o), Replay(o, policy, InitialDriver(o), rows).value.exchange;
    WholeReplayIsARun(o, policy, rows);
    ReachedInv(cfg, ReplayActions(o, policy, InitialDriver(o), rows));
    BooksBalanced(cfg, s.books, s.orders);
    BalancedEquityParts(cfg.ledger, s.books.ledger);
    ReplayProfitsAreExact(o, policy, rows);
    ProfitLessLoss(s.books.fills);
  }

  lemma BalancedEquityParts(cfg: LedgerConfig, st: LedgerState)
    requires Balanced(cfg, st)
    ensures st.equity == InitialLedger(cfg).cash + st.realized - st.fees + st.unrealized
  {
  }

  /** The largest fall of a curve from a point to a later one. */
  ghost predicate IsDrawdown(curve: seq<int>, drawdown: int) {
    && (forall i, j :: 0 <= i <= j < |curve| ==> curve[i] - curve[j] <= drawdown)
    && (exists i, j :: 0 <= i <= j < |curve| && curve[i] - curve[j] == drawdown)
  }

  ghost predicate IsPeak(curve: seq<int>, peak: int) {
    (forall i :: 0 <= i < |curve| ==> curve[i] <= peak) && (exists i :: 0 <= i < |curve| && curve[i] == peak)
  }

  ghost predicate Measures(d: Driver) {
    IsPeak(d.equities, d.metrics.peakEquity) && IsDrawdown(d.equities, d.metrics.maxDrawdown)
  }

  lemma OnePassDrawdown(curve: seq<int>, m: Metrics, equity: int)
    requires IsPeak(curve, m.peakEquity) && IsDrawdown(curve, m.maxDrawdown)
    ensures IsPeak(curve + [equity], Measured(m, equity).peakEquity)
    ensures IsDrawdown(curve + [equity], Measured(m, equity).maxDrawdown)
  {
    var longer, n := curve + [equity], |curve|;
    var p :| 0 <= p < n && curve[p] == m.peakEquity;
    var i, j :| 0 <= i <= j < n && curve[i] - curve[j] == m.maxDrawdown;
    assert longer[n] == equity && longer[p] == m.peakEquity && longer[i] - longer[j] == m.maxDrawdown;
    assert longer[n] - longer[n] == 0 && longer[p] - longer[p] == 0;
    var after := Measured(m, equity);
    assert longer[if equity > m.peakEquity then n else p] == after.peakEquity;
    if after.maxDrawdown == m.maxDrawdown {
      assert longer[i] - longer[j] == after.maxDrawdown;
    } else {
      assert longer[p] - longer[n] == after.maxDrawdown;
    }
  }

  lemma RowMeasures(o: ReplayOptions, policy: Policy, d: Driver, row: ReplayRow)
    requires WellFormed(d.exchange.orders) && o.decisionEvery > 0 && Measures(d)
    ensures Measures(OnRow(o, policy, d, row))
  {
    hide Submit, OnMarketEvent, Wanted, IsPeak, IsDrawdown, FeatureState, Decided;
    var e := RowEvent(row, o.feedLatency);
    if InWindow(o, e) {
      var placed := Placed(ReplayConfig(o), d);
      var equity := OnMarketEvent(ReplayConfig(o), placed.exchange, e).0.books.ledger.equity;
      OnePassDrawdown(d.equities, placed.metrics, equity);
      MeasuredReadsTwoFields(placed.metrics, equity);
    }
  }

  lemma MeasuredReadsTwoFields(m: Metrics, equity: int)
    ensures forall events, decisions ::
              var after := Measured(m.(events := events, decisions := decisions), equity);
              after.peakEquity == Measured(m, equity).peakEquity && after.maxDrawdown == Measured(m, equity).maxDrawdown
  {
  }

  lemma {:induction false} ReplayMeasures(o: ReplayOptions, policy: Policy, d: Driver, rows: seq<ReplayRow>)
    requires WellFormed(d.exchange.orders) && o.decisionEvery > 0 && Measures(d)
    requires Replay(o, policy, d, rows).Some?
    ensures Measures(Replay(o, policy, d, rows).value)
    decreases |rows|
  {
    hide OnRow, Measures;
    if rows != [] {
      RowMeasures(o, policy, d, rows[0]);
      ReplayMeasures(o, policy, OnRow(o, policy, d, rows[0]), rows[1..]);
    }
  }

  /** The one-pass drawdown of any replay is the largest fall of the equity curve from a point to a
      later one, the initial equity included. */
  lemma DrawdownIsTheLargestFall(o: ReplayOptions, policy: Policy, rows: seq<ReplayRow>)
    requires o.decisionEvery > 0 && Replay(o, policy, InitialDriver(o), rows).Some?
    ensures var d := Replay(o, policy, InitialDriver(o), rows).value;
            IsDrawdown(d.equities, d.metrics.maxDrawdown) && IsPeak(d.equities, d.metrics.peakEquity)
  {
    hide Replay;
    var d := InitialDriver(o);
    assert d.equities[0] == d.metrics.peakEquity && d.equities[0] - d.equities[0] == 0;
    ReplayMeasures(o, policy, d, rows);
  }

  // ----- decisions and counters -----

  /** A decision trades exactly when it succeeded, its probability reaches the threshold, it is not a
      hold and the position is not yet at its target; and then the order leads to that target. */
  lemma OrdersFollowDecisions(o: ReplayOptions, policy: Policy, state: ModelState, e: MarketEvent, position: int)
    requires o.decisionEvery > 0 && Decided(o, policy, state, e).Some?
    ensures var decision := policy.decide(state);
            var wanted := Wanted(Decided(o, policy, state, e), position);
            var goal := if decision.action == LongPosition then 100 else -100;
            && (wanted.Some? <==> decision.Succeeded() && decision.ChosenPpm() >= o.thresholdPpm
                                  && decision.action != Hold && position != goal)
            && (wanted.Some? ==>
                  && position + (if wanted.value.side == Buy then wanted.value.quantity else -wanted.value.quantity) == goal
                  && wanted.value.quantity > 0 && wanted.value.orderType == Market && !wanted.value.reduceOnly
                  && wanted.value.limitPrice == None && wanted.value.createdTime == e.receiveTime
                  && wanted.value.clientOrderId == OrderName(decision.stateSequence))
  {
    hide OrderName;
  }

  function InWindowRows(o: ReplayOptions, rows: seq<ReplayRow>): nat {
    if rows == [] then 0
    else InWindowRows(o, rows[1..]) + (if InWindow(o, RowEvent(rows[0], o.feedLatency)) then 1 else 0)
  }

  ghost predicate Counted(d: Driver) {
    && d.metrics.signals == d.metrics.acceptedOrders + d.metrics.rejectedOrders
    && |d.equities| == d.metrics.events + 1 && |d.history| == d.metrics.events
  }

  /** Every row in the window is counted once, as an event or as ignored; every signal once, as an
      accepted or a rejected order; and features and equities advance once per event. */
  lemma {:induction false} CountersReconcile(o: ReplayOptions, policy: Policy, d: Driver, rows: seq<ReplayRow>)
    requires WellFormed(d.exchange.orders) && o.decisionEvery > 0 && Counted(d)
    requires Replay(o, policy, d, rows).Some?
    ensures var d' := Replay(o, policy, d, rows).value;
            && Counted(d')
            && d'.metrics.events + d'.metrics.ignoredEvents
               == d.metrics.events + d.metrics.ignoredEvents + InWindowRows(o, rows)
    decreases |rows|
  {
    hide OnRow, InWindow;
    if rows != [] {
      RowIsCounted(o, policy, d, rows[0]);
      CountersReconcile(o, policy, OnRow(o, policy, d, rows[0]), rows[1..]);
    }
  }

  lemma RowIsCounted(o: ReplayOptions, policy: Policy, d: Driver, row: ReplayRow)
    requires WellFormed(d.exchange.orders) && o.decisionEvery > 0 && Counted(d)
    ensures var d' := OnRow(o, policy, d, row);
            && Counted(d')
            && d'.metrics.events + d'.metrics.ignoredEvents == d.metrics.events + d.metrics.ignoredEvents
               + (if InWindow(o, RowEvent(row, o.feedLatency)) then 1 else 0)
  {
    hide Submit, OnMarketEvent, Wanted, FeatureState, Decided;
  }

  // ----- order names -----

  /** Different sequence numbers name different orders. */
  lemma {:induction false} DecimalIsInjective(m: nat, n: nat)
    requires Decimal(m) == Decimal(n)
    ensures m == n
    decreases m + n
  {
    var s := Decimal(m);
    LastDigit(m);
    LastDigit(n);
    if m < 10 || n < 10 {
      NumeralLength(m);
      NumeralLength(n);
    } else {
      assert Decimal(m)[..|s| - 1] == Decimal(m / 10) && Decimal(n)[..|s| - 1] == Decimal(n / 10);
      DecimalIsInjective(m / 10, n / 10);
    }
  }

  lemma OrderNamesAreUnique(m: nat, n: nat)
    requires OrderName(m) == OrderName(n)
    ensures m == n
  {
    assert OrderName(m)[|PREFIX|..] == Decimal(m) && OrderName(n)[|PREFIX|..] == Decimal(n);
    DecimalIsInjective(m, n);
  }

  lemma LastDigit(n: nat)
    ensures Decimal(n)[|Decimal(n)| - 1] as int == n % 10 + 48
  {
  }

  lemma NumeralLength(n: nat)
    ensures |Decimal(n)| == 1 <==> n < 10
  {
  }
}
