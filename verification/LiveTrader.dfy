/** The live callback: each accepted event may be followed at once by one market order toward a
    position of one unit. */
module LiveTrader {
  import opened FixedPoint
  import opened Types
  import opened LedgerModel
  import opened Risk
  import opened ExchangeModel
  import opened ExchangeInvariants
  import opened PositionLimits
  import opened PositionSafety
  import opened ReplayModel
  import opened ReplayTheorems

  const LIVE_CONFIG: ExchangeConfig := ExchangeConfig(
    LedgerConfig(1_000_000, 2, 2, 3),
    RiskLimits(10, 25_000, 10, 2_000_000_000, 10_000, 100_000),
    1, 100, 200, 500, 100, 0, 5_000_000)

  /** An event and the side the decision gates let through on it, if any. */
  datatype Tick = Tick(event: MarketEvent, signal: Option<Side>)

  function LiveOrder(e: MarketEvent, signal: Side, position: int): OrderRequest {
    var delta := SignedQuantity(signal, 1) - position;
    OrderRequest("paper-live-" + Decimal(e.sequence), if delta > 0 then Buy else Sell, Market, Magnitude(delta), None,
                 e.receiveTime, false)
  }

  function OnTick(s: Exchange, tick: Tick): (r: Exchange)
    requires WellFormed(s.orders)
    ensures WellFormed(r.orders)
  {
    var (heard, accepted) := OnMarketEvent(LIVE_CONFIG, s, tick.event);
    var position := heard.books.ledger.position;
    if !accepted || tick.signal.None? || position == SignedQuantity(tick.signal.value, 1) then heard
    else Submit(LIVE_CONFIG, heard, LiveOrder(tick.event, tick.signal.value, position), tick.event.receiveTime).0
  }

  function RunLive(s: Exchange, ticks: seq<Tick>): (r: Exchange)
    requires WellFormed(s.orders)
    ensures WellFormed(r.orders)
    decreases |ticks|
  {
    if ticks == [] then s else RunLive(OnTick(s, ticks[0]), ticks[1..])
  }

  /** Between callbacks no order is live and the position is one unit at most. */
  ghost predicate LiveInv(s: Exchange) {
    Inv(LIVE_CONFIG, s) && NoneLive(s.orders) && -1 <= s.books.ledger.position <= 1
  }

  lemma HearingKeepsLive(s: Exchange, e: MarketEvent)
    requires LiveInv(s) && WellFormed(s.orders)
    ensures LiveInv(OnMarketEvent(LIVE_CONFIG, s, e).0)
    ensures OnMarketEvent(LIVE_CONFIG, s, e).1 ==> OnMarketEvent(LIVE_CONFIG, s, e).0.market == Some(e)
  {
    hide BooksInv, Processed, MarkToMarket;
    EventKeepsInv(LIVE_CONFIG, s, e);
    QuietEvent(LIVE_CONFIG, s, e);
    MarkKeepsLivePosition(s.books.ledger, Midpoint(e));
  }

  lemma MarkKeepsLivePosition(st: LedgerState, price: int)
    ensures MarkToMarket(LIVE_CONFIG.ledger, st, price).0.position == st.position
  {
  }

  /** An order entered without latency at the time of the current event is settled on entry. */
  lemma EntrySettles(s: Exchange, request: OrderRequest, decisionTime: int)
    requires LiveInv(s) && WellFormed(s.orders) && s.market.Some? && decisionTime == s.market.value.receiveTime
    requires request.orderType == Market
    requires -1 <= s.books.ledger.position + SignedQuantity(request.side, request.quantity) <= 1
    ensures LiveInv(Submit(LIVE_CONFIG, s, request, decisionTime).0)
  {
    hide BooksInv, SubmitProblem, Activate, Move, Indexed;
    var cfg := LIVE_CONFIG;
    SubmitKeepsInv(cfg, s, request, decisionTime);
    if SubmitProblem(cfg, s, request, decisionTime) == NoProblem {
      NewOrderIsGood(cfg, s, request, decisionTime);
      var o := NewOrder(cfg, s, request, decisionTime);
      assert o.request.quantity == request.quantity by { UnitStep(request.quantity); }
      EnteredOrder(cfg, s, request, decisionTime);
      MarketOrderSettles(cfg, s.books, o, s.market.value);
      var r := Entered(cfg, s, request, decisionTime);
      EntryKeepsBooks(cfg, s.books, s.orders, o);
      SettledPosition(cfg, s.market.value, s.books, s.orders + [o], |s.orders|, r.0, r.1);
    }
  }

  lemma UnitStep(quantity: int)
    ensures NormalizedQuantity(LIVE_CONFIG, quantity) == quantity
  {
  }

  /** A market order moves the position by all of its quantity or not at all. */
  lemma SettledPosition(cfg: ExchangeConfig, e: MarketEvent, b: Books, orders: seq<PaperOrder>, k: nat,
                        b': Books, o': PaperOrder)
    requires k < |orders| && BooksInv(cfg, b, orders) && Move(cfg, e, b, orders[k], b', o')
    requires orders[k].request.orderType == Market
    ensures var q := SignedQuantity(orders[k].request.side, orders[k].request.quantity);
            b'.ledger.position == b.ledger.position || b'.ledger.position == b.ledger.position + q
  {
    hide BooksInv;
    if b' != b {
      BookingMovesPosition(cfg, e, b, orders, k, b', o');
    }
  }

  /** Whatever the feed delivers and whatever the gates let through, the live position is always
      short one, flat or long one, and no order outlives its callback. */
  lemma {:induction false} LiveStaysWithinOne(s: Exchange, ticks: seq<Tick>)
    requires LiveInv(s) && WellFormed(s.orders)
    ensures LiveInv(RunLive(s, ticks))
    decreases |ticks|
  {
    hide LiveInv, OnTick;
    if ticks != [] {
      TickKeepsLive(s, ticks[0]);
      LiveStaysWithinOne(OnTick(s, ticks[0]), ticks[1..]);
    }
  }

  lemma TickKeepsLive(s: Exchange, tick: Tick)
    requires LiveInv(s) && WellFormed(s.orders)
    ensures LiveInv(OnTick(s, tick))
  {
    hide OnMarketEvent, Submit, Inv, Decimal;
    HearingKeepsLive(s, tick.event);
    var (heard, accepted) := OnMarketEvent(LIVE_CONFIG, s, tick.event);
    if accepted && tick.signal.Some? && heard.books.ledger.position != SignedQuantity(tick.signal.value, 1) {
      EntrySettles(heard, LiveOrder(tick.event, tick.signal.value, heard.books.ledger.position), tick.event.receiveTime);
    }
  }

  lemma LiveFromTheStart(ticks: seq<Tick>)
    ensures var s := RunLive(InitialExchange(LIVE_CONFIG), ticks);
            -1 <= s.books.ledger.position <= 1 && NoneLive(s.orders)
  {
    hide RunLive, Inv;
    InitialInv(LIVE_CONFIG);
    LiveStaysWithinOne(InitialExchange(LIVE_CONFIG), ticks);
  }

  /** The order of a callback: from the position to the target, at once and at market. */
  function Toward(e: MarketEvent, position: int, target: int): OrderRequest {
    OrderRequest("paper-live-" + Decimal(e.sequence), if target > position then Buy else Sell, Market,
                 Magnitude(target - position), None, e.receiveTime, false)
  }

  /** One callback, after any others.  Without a heard event or a signal it trades nothing.  A buy signal
      aims at long one and a sell signal at short one; the position reaches its aim exactly when the
      order toward it is accepted and not rejected on entry, and otherwise stays where it was. */
  lemma TickIsExact(ticks: seq<Tick>, tick: Tick)
    ensures var s := RunLive(InitialExchange(LIVE_CONFIG), ticks);
            var (heard, accepted) := OnMarketEvent(LIVE_CONFIG, s, tick.event);
            var after, before := OnTick(s, tick), heard.books.ledger.position;
            if !accepted || tick.signal == None then after == heard
            else
              var target := if tick.signal == Some(Buy) then 1 else -1;
              var request := Toward(tick.event, before, target);
              if before == target then after == heard
              else
                && heard.market.Some? && request.quantity == Magnitude(target - before)
                && (after.books.ledger.position == target <==>
                      SubmitProblem(LIVE_CONFIG, heard, request, tick.event.receiveTime) == NoProblem
                      && !RejectedOnEntry(LIVE_CONFIG, heard, request, tick.event.receiveTime))
                && (after.books.ledger.position == target || after.books.ledger.position == before)
  {
    hide RunLive, OnMarketEvent, Inv, Submit, SubmitProblem, RejectedOnEntry, Decimal;
    var s := RunLive(InitialExchange(LIVE_CONFIG), ticks);
    InitialInv(LIVE_CONFIG);
    LiveStaysWithinOne(InitialExchange(LIVE_CONFIG), ticks);
    HearingKeepsLive(s, tick.event);
    var (heard, accepted) := OnMarketEvent(LIVE_CONFIG, s, tick.event);
    var before := heard.books.ledger.position;
    if accepted && tick.signal.Some? && before != SignedQuantity(tick.signal.value, 1) {
      var target := if tick.signal == Some(Buy) then 1 else -1;
      assert LiveOrder(tick.event, tick.signal.value, before) == Toward(tick.event, before, target);
      CallbackOrder(heard, Toward(tick.event, before, target), tick.event.receiveTime);
    }
  }

  lemma CallbackOrder(s: Exchange, request: OrderRequest, decisionTime: int)
    requires LiveInv(s) && WellFormed(s.orders) && s.market.Some? && decisionTime == s.market.value.receiveTime
    requires request.orderType == Market && request.quantity > 0
    requires -1 <= s.books.ledger.position + SignedQuantity(request.side, request.quantity) <= 1
    ensures var before, after := s.books.ledger.position, Submit(LIVE_CONFIG, s, request, decisionTime).0.books.ledger.position;
            if SubmitProblem(LIVE_CONFIG, s, request, decisionTime) == NoProblem
               && !RejectedOnEntry(LIVE_CONFIG, s, request, decisionTime)
            then after == before + SignedQuantity(request.side, request.quantity) else after == before
  {
    hide BooksInv, SubmitProblem, Entered, RejectedOnEntry;
    if SubmitProblem(LIVE_CONFIG, s, request, decisionTime) == NoProblem {
      EntrySettles(s, request, decisionTime);
      EntryOutcome(LIVE_CONFIG, s, request, decisionTime);
      RejectionOnEntry(LIVE_CONFIG, s, request, decisionTime);
      UnitStep(request.quantity);
      var s' := Submit(LIVE_CONFIG, s, request, decisionTime).0;
      assert s'.orders[|s.orders|] == Entered(LIVE_CONFIG, s, request, decisionTime).1;
    }
  }
}
