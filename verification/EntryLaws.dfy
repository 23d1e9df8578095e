/** What submissions, cancel requests and events do to the exchange, said once in plain terms. */
module EntryLaws {
  import opened FixedPoint
  import opened Types
  import opened LedgerModel
  import opened LedgerTheorems
  import opened LedgerLaws
  import opened Risk
  import opened RiskTheorems
  import opened ExchangeModel
  import opened ExchangeInvariants
  import opened ExchangeTheorems

  // ----- submissions -----

  /** The price an order is judged at: its limit, or else the side of the book it would take. */
  function JudgedPrice(request: OrderRequest, market: MarketEvent): int {
    if request.limitPrice.Some? then request.limitPrice.value
    else if request.side == Buy then market.bestAsk else market.bestBid
  }

  /** The whole lots of the step in a quantity. */
  predicate WholeLots(cfg: ExchangeConfig, quantity: int, lots: int) {
    cfg.quantityStep > 0 ==> lots * cfg.quantityStep <= quantity < (lots + 1) * cfg.quantityStep
  }

  lemma LotsAreNormalized(cfg: ExchangeConfig, quantity: int, lots: int)
    requires cfg.quantityStep > 0 && quantity > 0 && WholeLots(cfg, quantity, lots)
    ensures NormalizedQuantity(cfg, quantity) == lots * cfg.quantityStep
    ensures 0 <= NormalizedQuantity(cfg, quantity) <= quantity
  {
    var step := cfg.quantityStep;
    assert step * lots == lots * step && step * (lots + 1) == step * lots + step;
    DivUnique(quantity, step, lots);
    DivMono(0, quantity, step);
    DivUnique(0, step, 0);
    MulMono(step, 0, lots);
  }

  lemma SmallerInRange(cfg: LedgerConfig, quantity: nat, part: nat, price: int)
    requires part <= quantity && NotionalInRange(cfg, quantity, price)
    ensures NotionalInRange(cfg, part, price)
  {
    if SourceScale(cfg) < cfg.accountScale {
      MulMono(Magnitude(price), part, quantity);
      MulMono(Magnitude(price), 0, part);
      MulMono(ScaleUp(cfg), part * Magnitude(price), quantity * Magnitude(price));
      MulMono(ScaleUp(cfg), 0, part * Magnitude(price));
      SignedScale(quantity, price, ScaleUp(cfg));
      SignedScale(part, price, ScaleUp(cfg));
    }
  }

  lemma SignedScale(quantity: nat, price: int, u: nat)
    ensures quantity * price * u == Sign(price) * (quantity * Magnitude(price) * u)
  {
    if price < 0 {
      assert quantity * price == -(quantity * -price);
      assert -(quantity * -price) * u == -((quantity * -price) * u);
    }
  }

  ghost predicate IdIsNew(s: Exchange, id: string) {
    forall k :: 0 <= k < |s.orders| ==> s.orders[k].request.clientOrderId != id
  }

  /** The market, the size and exact notional of the request, the position it leads to and the loss so
      far are all within their limits. */
  ghost predicate WithinRisk(cfg: ExchangeConfig, s: Exchange, request: OrderRequest, decisionTime: int, market: MarketEvent) {
    && TradableMarket(cfg.risk, market, decisionTime)
    && request.quantity > 0 && Limited(cfg.risk.maxOrderQuantity, request.quantity)
    && Limited(cfg.risk.maxOrderNotional, ExactNotional(cfg.ledger, request.quantity, JudgedPrice(request, market)))
    && TolerablePosition(cfg.risk, request, s.books.ledger.position)
    && TolerableLoss(cfg.risk, cfg.ledger, s.books.ledger.equity)
  }

  /** Every reason there is to accept a submission. */
  ghost predicate Acceptable(cfg: ExchangeConfig, s: Exchange, request: OrderRequest, decisionTime: int, lots: int) {
    && IdIsNew(s, request.clientOrderId) && request.clientOrderId != ""
    && ValidConfig(cfg) && s.market.Some?
    && (request.orderType != Market ==> request.limitPrice.Some? && request.limitPrice.value > 0)
    && WithinRisk(cfg, s, request, decisionTime, s.market.value)
    && lots > 0
    && var notional := ExactNotional(cfg.ledger, lots * cfg.quantityStep, JudgedPrice(request, s.market.value));
       Fits(notional) && notional >= cfg.minimumNotional
  }

  /** In every reachable state: a submission is accepted, so that its order is stored, if and only if its
      id is new and not empty, the configuration is valid, there is a market, a limit is there where it
      has to be, the risk limits hold, and the whole lots in its quantity are at least one and worth at
      least the minimum.  The stored order asks for exactly those lots; nothing else is stored. */
  lemma SubmissionIsExact(cfg: ExchangeConfig, actions: seq<Action>, request: OrderRequest, decisionTime: int, lots: int)
    requires WholeLots(cfg, request.quantity, lots)
    requires var s := Reached(cfg, actions);
             s.market.Some? ==> NotionalInRange(cfg.ledger, request.quantity, JudgedPrice(request, s.market.value))
    ensures WellFormed(Reached(cfg, actions).orders)
    ensures var s := Reached(cfg, actions);
            var (s', result) := Submit(cfg, s, request, decisionTime);
            if Acceptable(cfg, s, request, decisionTime, lots) then
              && |s'.orders| == |s.orders| + 1 && s'.orders[..|s.orders|] == s.orders && !result.duplicate
              && var o := s'.orders[|s.orders|];
              && o.request == request.(quantity := lots * cfg.quantityStep)
              && o.activeTime == decisionTime + cfg.acknowledgementLatency
              && result.orderId == |s.orders| + 1 == o.orderId && result.status == o.status
            else s' == s && (IdIsNew(s, request.clientOrderId) ==> result.status == Rejected && result.orderId == 0)
  {
    hide Run, BooksInv, Entered, SubmitProblem, Acceptable;
    var s := Reached(cfg, actions);
    ReachedInv(cfg, actions);
    AcceptanceIsExact(cfg, s, request, decisionTime, lots);
    if SubmitProblem(cfg, s, request, decisionTime) == NoProblem {
      NewOrderIsGood(cfg, s, request, decisionTime);
      EnteredOrder(cfg, s, request, decisionTime);
      PositiveRequest(cfg, s, request, decisionTime);
      LotsAreNormalized(cfg, request.quantity, lots);
      assert Submit(cfg, s, request, decisionTime).0.orders[..|s.orders|] == s.orders;
    }
    IndexedIdIsKnown(cfg, s, request.clientOrderId);
    KnownIdIsDuplicate(cfg, s, request, decisionTime);
  }

  lemma KnownIdIsDuplicate(cfg: ExchangeConfig, s: Exchange, request: OrderRequest, decisionTime: int)
    ensures SubmitProblem(cfg, s, request, decisionTime) == DuplicateClientOrderId
       <==> FindOrder(s, request.clientOrderId).Some?
  {
    hide Evaluate, CheckedWideNotional, NormalizedQuantity, FindOrder;
  }

  lemma PositiveRequest(cfg: ExchangeConfig, s: Exchange, request: OrderRequest, decisionTime: int)
    requires SubmitProblem(cfg, s, request, decisionTime) == NoProblem
    ensures request.quantity > 0 && cfg.quantityStep > 0
  {
    hide IsStale, BreaksOrderLimit, CheckedWideNotional, SpreadPpm, FindOrder, NormalizedQuantity;
  }

  lemma IndexedIdIsKnown(cfg: ExchangeConfig, s: Exchange, id: string)
    requires Inv(cfg, s)
    ensures FindOrder(s, id).None? <==> IdIsNew(s, id)
  {
    hide BooksInv;
    if FindOrder(s, id).None? {
      forall k | 0 <= k < |s.orders|
        ensures s.orders[k].request.clientOrderId != id
      {
        assert s.orders[k].request.clientOrderId in s.index;
      }
    }
  }

  lemma AcceptanceIsExact(cfg: ExchangeConfig, s: Exchange, request: OrderRequest, decisionTime: int, lots: int)
    requires Inv(cfg, s) && WholeLots(cfg, request.quantity, lots)
    requires s.market.Some? ==> NotionalInRange(cfg.ledger, request.quantity, JudgedPrice(request, s.market.value))
    ensures SubmitProblem(cfg, s, request, decisionTime) == NoProblem <==> Acceptable(cfg, s, request, decisionTime, lots)
  {
    hide BooksInv, WideNotional, ExactNotional, NotionalInRange, Evaluate, NormalizedQuantity, WholeLots,
         TradableMarket, TolerablePosition, TolerableLoss, IdIsNew;
    IndexedIdIsKnown(cfg, s, request.clientOrderId);
    if s.market.Some? && ValidConfig(cfg) {
      var market := s.market.value;
      BooksBalanced(cfg, s.books, s.orders);
      GateIsExact(cfg.risk, cfg.ledger, request, market, s.books.ledger, decisionTime);
      if request.quantity > 0 {
        LotsAreNormalized(cfg, request.quantity, lots);
        var quantity := NormalizedQuantity(cfg, request.quantity);
        LotsArePositive(cfg, lots);
        SmallerInRange(cfg.ledger, request.quantity, quantity, JudgedPrice(request, market));
        NotionalsAgree(cfg.ledger, quantity, JudgedPrice(request, market));
      }
    }
  }

  lemma LotsArePositive(cfg: ExchangeConfig, lots: int)
    requires cfg.quantityStep > 0
    ensures lots * cfg.quantityStep > 0 <==> lots > 0
  {
    if lots > 0 {
      MulMono(cfg.quantityStep, 1, lots);
    } else {
      MulMono(cfg.quantityStep, lots, 0);
    }
  }

  // ----- which refusal -----

  /** The gate names the first limit that is broken, in its order: market, age, size, order limits,
      position, reduce-only, spread, loss. */
  lemma GateNamesTheFirstLimit(limits: RiskLimits, cfg: LedgerConfig, request: OrderRequest, market: MarketEvent,
                               st: LedgerState, decisionTime: int)
    requires Balanced(cfg, st) && NotionalInRange(cfg, request.quantity, JudgedPrice(request, market))
    ensures var decision := Evaluate(limits, cfg, request, market, st, decisionTime);
            var age, after := decisionTime - market.receiveTime, st.position + SignedQuantity(request.side, request.quantity);
            var quoted := 0 < market.bestBid <= market.bestAsk;
            var recent := quoted && (limits.maxDataAge > 0 ==> 0 <= age <= limits.maxDataAge);
            var sized := recent && request.quantity > 0;
            var small := sized && Limited(limits.maxOrderQuantity, request.quantity)
                         && Limited(limits.maxOrderNotional, ExactNotional(cfg, request.quantity, JudgedPrice(request, market)));
            var near := small && (limits.maxPosition > 0 ==> -limits.maxPosition <= after <= limits.maxPosition);
            var reduces := near && (request.reduceOnly ==> (0 <= after < st.position) || (st.position < after <= 0));
            var narrow := reduces && TradableMarket(limits, market, decisionTime);
            && (decision == InvalidMarket <==> !quoted)
            && (decision == StaleMarket <==> quoted && !recent)
            && (decision == InvalidQuantity <==> recent && !sized)
            && (decision == OrderLimit <==> sized && !small)
            && (decision == PositionLimit <==> small && !near)
            && (decision == ReduceOnlyViolation <==> near && !reduces)
            && (decision == SpreadLimit <==> reduces && !narrow)
            && (decision == DrawdownLimit <==> narrow && !TolerableLoss(limits, cfg, st.equity))
            && (decision == Accept <==> narrow && TolerableLoss(limits, cfg, st.equity))
  {
    hide WideNotional, ExactNotional, SpreadPpm, NotionalInRange;
    NotionalsAgree(cfg, request.quantity, JudgedPrice(request, market));
    BalancedLoss(cfg, st);
    if 0 < market.bestBid <= market.bestAsk {
      SpreadLimitIsExact(market, limits.maxSpreadPpm);
    }
  }

  /** A submission is answered with the first thing wrong with it. */
  lemma SubmissionNamesTheFirstProblem(cfg: ExchangeConfig, actions: seq<Action>, request: OrderRequest, decisionTime: int,
                                       lots: int)
    requires WholeLots(cfg, request.quantity, lots)
    requires var s := Reached(cfg, actions);
             s.market.Some? ==> NotionalInRange(cfg.ledger, request.quantity, JudgedPrice(request, s.market.value))
    ensures WellFormed(Reached(cfg, actions).orders)
    ensures var s := Reached(cfg, actions);
            var reason := Submit(cfg, s, request, decisionTime).1.reason;
            var limited := request.orderType != Market ==> request.limitPrice.Some? && request.limitPrice.value > 0;
            if !IdIsNew(s, request.clientOrderId) then reason == DuplicateClientOrderId
            else if !ValidConfig(cfg) then reason == BadConfiguration
            else if s.market == None then reason == MarketUnavailable
            else if request.clientOrderId == "" then reason == EmptyClientOrderId
            else if !limited then reason == InvalidLimitPrice
            else
              var decision := Evaluate(cfg.risk, cfg.ledger, request, s.market.value, s.books.ledger, decisionTime);
              var notional := ExactNotional(cfg.ledger, lots * cfg.quantityStep, JudgedPrice(request, s.market.value));
              if decision != Accept then reason == RiskRefused(decision)
              else if lots <= 0 then reason == QuantityBelowStep
              else if !Fits(notional) then reason == NotionalOverflow
              else if notional < cfg.minimumNotional then reason == MinimumNotional
              else reason == NoProblem || reason.OrderProblem?
  {
    hide Run, BooksInv, Entered, WideNotional, ExactNotional, NotionalInRange, Evaluate, NormalizedQuantity, WholeLots, IdIsNew;
    var s := Reached(cfg, actions);
    ReachedInv(cfg, actions);
    IndexedIdIsKnown(cfg, s, request.clientOrderId);
    if s.market.Some? && ValidConfig(cfg) && request.quantity > 0 {
      var quantity := NormalizedQuantity(cfg, request.quantity);
      LotsAreNormalized(cfg, request.quantity, lots);
      LotsArePositive(cfg, lots);
      SmallerInRange(cfg.ledger, request.quantity, quantity, JudgedPrice(request, s.market.value));
      NotionalsAgree(cfg.ledger, quantity, JudgedPrice(request, s.market.value));
    }
    if s.market.Some? && Evaluate(cfg.risk, cfg.ledger, request, s.market.value, s.books.ledger, decisionTime) == Accept {
      AcceptedIsPositive(cfg, s, request, decisionTime);
    }
  }

  lemma AcceptedIsPositive(cfg: ExchangeConfig, s: Exchange, request: OrderRequest, decisionTime: int)
    requires s.market.Some? && Evaluate(cfg.risk, cfg.ledger, request, s.market.value, s.books.ledger, decisionTime) == Accept
    ensures request.quantity > 0
  {
    hide IsStale, BreaksOrderLimit, SpreadPpm;
  }

  // ----- cancel requests -----

  /** In every reachable state: a cancel request is granted if and only if it names a stored order that is
      pending, open or partially filled.  It then marks that order with its due time and changes
      nothing else; any other request changes nothing. */
  lemma CancelIsExact(cfg: ExchangeConfig, actions: seq<Action>, id: string, requestTime: int)
    ensures WellFormed(Reached(cfg, actions).orders)
    ensures var s := Reached(cfg, actions);
            var (s', granted) := Cancel(cfg, s, id, requestTime);
            && (granted <==> exists k :: 0 <= k < |s.orders| && MayCancel(s.orders[k], id))
            && (!granted ==> s' == s)
            && (forall k :: 0 <= k < |s.orders| && MayCancel(s.orders[k], id) ==>
                  s' == s.(orders := s.orders[k := s.orders[k].(status := CancelPending,
                                                               cancelDue := Some(requestTime + cfg.cancellationLatency))]))
  {
    hide Run, BooksInv;
    ReachedInv(cfg, actions);
    var s := Reached(cfg, actions);
    if Cancellable(s, id) {
      assert MayCancel(s.orders[FindOrder(s, id).value], id);
    }
    forall k | 0 <= k < |s.orders| && MayCancel(s.orders[k], id)
      ensures FindOrder(s, id) == Some(k)
    {
    }
  }

  predicate MayCancel(o: PaperOrder, id: string) {
    o.request.clientOrderId == id && (o.status == Pending || o.status == Open || o.status == PartiallyFilled)
  }

  // ----- events -----

  /** The midpoint is half way up the spread, rounded down. */
  lemma MidpointIsHalfWay(e: MarketEvent)
    requires e.bestBid <= e.bestAsk
    ensures 2 * Midpoint(e) <= e.bestBid + e.bestAsk < 2 * Midpoint(e) + 2
  {
  }

  /** In every reachable state: an event is heard if and only if the configuration is valid, its sequence
      number is new, its times are in order and its book is two-sided.  A heard event becomes the market
      and marks the account at its midpoint where that can be represented; any other is counted and
      changes nothing else. */
  lemma HearingIsExact(cfg: ExchangeConfig, actions: seq<Action>, e: MarketEvent)
    ensures WellFormed(Reached(cfg, actions).orders)
    ensures var s := Reached(cfg, actions);
            var (s', heard) := OnMarketEvent(cfg, s, e);
            && (heard <==> ValidConfig(cfg) && e.sequence > (if s.market.Some? then s.market.value.sequence else 0)
                           && 0 < e.exchangeTime <= e.receiveTime && 0 < e.bestBid <= e.bestAsk)
            && (!heard ==> s' == s.(ignored := s.ignored + 1))
            && (heard ==>
                  && s'.market == Some(e) && s'.ignored == s.ignored && |s'.orders| == |s.orders|
                  && var before, l := Processed(cfg, s, e).books.ledger, s'.books.ledger;
                  && SameBooks(l, before)
                  && var value := ExactNotional(cfg.ledger, l.position, Midpoint(e));
                  var gain := (if l.position < 0 then -value else value) - l.cost;
                  && (Fits(value) && Fits(gain) && Fits(l.cash + gain) ==>
                        l.lastMark == Midpoint(e) && l.unrealized == gain && l.equity == l.cash + gain)
                  && (!(Fits(value) && Fits(gain) && Fits(l.cash + gain)) ==> l == before))
  {
    hide Run, BooksInv, Processed, MarkToMarket, ExactNotional, ValidConfig;
    var s := Reached(cfg, actions);
    ReachedInv(cfg, actions);
    SequencesAreReal(cfg, actions);
    if EventAccepted(cfg, s, e) {
      EventPhases(cfg, s, e);
      BooksBalanced(cfg, Processed(cfg, s, e).books, Processed(cfg, s, e).orders);
      MarkIsExact(cfg.ledger, Processed(cfg, s, e).books.ledger, Midpoint(e));
      ValidLedger(cfg);
    }
  }

  lemma ValidLedger(cfg: ExchangeConfig)
    requires ValidConfig(cfg)
    ensures ValidLedgerConfig(cfg.ledger)
  {
  }

  lemma {:induction false} SequencesAreReal(cfg: ExchangeConfig, actions: seq<Action>)
    ensures Reached(cfg, actions).market.Some? ==> Reached(cfg, actions).market.value.sequence > 0
    decreases |actions|
  {
    hide Entered, SubmitProblem, Processed, MarkToMarket, Inv, ValidConfig;
    if actions != [] {
      var before, last := actions[..|actions| - 1], actions[|actions| - 1];
      assert actions == before + [last];
      ReachedInv(cfg, before);
      RunAppend(cfg, InitialExchange(cfg), before, last);
      SequencesAreReal(cfg, before);
    }
  }
}
