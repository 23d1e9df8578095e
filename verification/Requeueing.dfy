/** Exactly when a cancel request lets an order outrun its place in the queue. */
module Requeueing {
  import opened FixedPoint
  import opened Types
  import opened LedgerModel
  import opened Risk
  import opened ExchangeModel
  import opened ExchangeInvariants
  import opened ExchangeTheorems
  import opened Matching
  import opened QueuePosition
  import opened QueueExactness

  // ----- what a request makes possible -----

  predicate WithinLimitPrice(request: OrderRequest, price: int) {
    request.limitPrice.Some? &&
    if request.side.Buy? then price <= request.limitPrice.value else price >= request.limitPrice.value
  }

  /** The rest of a limit order can be taken off a book at the price. */
  predicate TakesAt(cfg: ExchangeConfig, ledger: LedgerState, o: PaperOrder, price: int) {
    && o.request.orderType == Limit && price > 0 && WithinLimitPrice(o.request, price)
    && DryFill(cfg, ledger, o.request, o.remaining, price, false).Some?
  }

  /** Some quantity of the order can be filled at its limit. */
  predicate MakesOf(cfg: ExchangeConfig, ledger: LedgerState, o: PaperOrder, quantity: int) {
    && 0 < quantity <= o.remaining && o.request.limitPrice.Some?
    && DryFill(cfg, ledger, o.request, quantity, o.request.limitPrice.value, true).Some?
  }

  /** A request lets the order outrun its place: it still has more to fill than its place allows and can
      take the rest at some price; or it is behind its queue and can be filled at its limit. */
  ghost predicate LosesPlace(cfg: ExchangeConfig, ledger: LedgerState, o: PaperOrder, place: Place) {
    place.Resting? &&
    (|| (o.request.quantity > Max(0, place.opposed - place.joined) && exists price :: TakesAt(cfg, ledger, o, price))
     || (place.opposed < place.joined && exists quantity :: MakesOf(cfg, ledger, o, quantity)))
  }

  // ----- one event on an order whose cancellation was requested -----

  /** The visits of one event to the only live order. */
  function LoneVisits(cfg: ExchangeConfig, b: Books, o: PaperOrder, e: MarketEvent): PaperOrder
    requires WellFormedOrder(o)
  {
    var (b', a) := if CanActivate(o, e) then Activate(cfg, b, o, e) else (b, o);
    MatchOne(cfg, b', a, e, TradedVolume(e)).1
  }

  lemma RequestedVisits(cfg: ExchangeConfig, b: Books, o: PaperOrder, e: MarketEvent)
    requires GoodOrder(o) && o.status == CancelPending && o.request.orderType != Market
    requires o.queueAhead >= 0 && SizedEvent(e) && 0 < e.bestBid <= e.bestAsk
    ensures var filled := LoneVisits(cfg, b, o, e).filled;
            || filled == o.filled
            || (filled == o.request.quantity && TakesAt(cfg, b.ledger, o, Touch(o.request.side, e)))
            || (MakesOf(cfg, b.ledger, o, filled - o.filled) && filled - o.filled <= OpposedBy(o, e))
  {
    hide FillOrder, DryFill;
    var limit := o.request.limitPrice.value;
    if CanActivate(o, e) {
      if Crosses(o.request.side, limit, e) {
        FillOrderResult(cfg, b, o, o.remaining, Touch(o.request.side, e), false, e);
      } else {
        VisitToRequeued(cfg, b, o.(queueAhead := JoinedQueue(o, limit, e)), e);
      }
    }
  }

  lemma VisitToRequeued(cfg: ExchangeConfig, b: Books, o: PaperOrder, e: MarketEvent)
    requires GoodOrder(o) && o.status == CancelPending && o.request.orderType != Market && o.queueAhead >= 0
    ensures var filled := MatchOne(cfg, b, o, e, TradedVolume(e)).1.filled;
            || filled == o.filled
            || (MakesOf(cfg, b.ledger, o, filled - o.filled) && filled - o.filled <= OpposedBy(o, e))
  {
    hide FillOrder, DryFill;
    var v := TradedVolume(e);
    if v > o.queueAhead && Reaches(o, e) {
      FillOrderResult(cfg, b, o.(queueAhead := 0), Min(o.remaining, v - o.queueAhead), o.request.limitPrice.value, true, e);
    }
  }

  // ----- the events that outrun the queue -----

  function NextSequence(s: Exchange): nat {
    if s.market.Some? then s.market.value.sequence + 1 else 1
  }

  /** A one-price book without a trade, at which the order takes. */
  function TakeEvent(s: Exchange, o: PaperOrder, price: int): MarketEvent {
    var time := Max(1, o.activeTime);
    MarketEvent(NextSequence(s), time, time, price, price, 0, 0, None, 0, None)
  }

  /** An event at the touch that displays nothing, with a trade of some quantity against the order. */
  function RequeueEvent(s: Exchange, o: PaperOrder, quantity: int): MarketEvent
    requires o.request.limitPrice.Some?
  {
    var limit, time := o.request.limitPrice.value, Max(1, o.activeTime);
    MarketEvent(NextSequence(s), time, time,
                if o.request.side.Buy? then limit else limit - 1, if o.request.side.Buy? then limit + 1 else limit,
                0, 0, Some(limit), quantity, Some(if o.request.side.Buy? then Sell else Buy))
  }

  lemma TakingVisits(cfg: ExchangeConfig, s: Exchange, o: PaperOrder, price: int)
    requires GoodOrder(o) && o.status == CancelPending && TakesAt(cfg, s.books.ledger, o, price)
    ensures var e := TakeEvent(s, o, price);
            LoneVisits(cfg, s.books, o, e).filled == o.request.quantity && OpposedBy(o, e) == 0 && SizedEvent(e)
  {
    hide FillOrder, DryFill;
    FillOrderResult(cfg, s.books, o, o.remaining, price, false, TakeEvent(s, o, price));
  }

  lemma RequeueingVisits(cfg: ExchangeConfig, s: Exchange, o: PaperOrder, quantity: int)
    requires GoodOrder(o) && o.status == CancelPending && o.request.orderType != Market
    requires MakesOf(cfg, s.books.ledger, o, quantity)
    ensures var e := RequeueEvent(s, o, quantity);
            LoneVisits(cfg, s.books, o, e).filled == o.filled + quantity && OpposedBy(o, e) == quantity && SizedEvent(e)
  {
    hide FillOrder, DryFill;
    var e := RequeueEvent(s, o, quantity);
    assert Activate(cfg, s.books, o, e) == (s.books, o.(queueAhead := 0));
    FillOrderResult(cfg, s.books, o.(queueAhead := 0), quantity, o.request.limitPrice.value, true, e);
  }

  // ----- the request -----

  /** The order after a request that takes effect. */
  function Requested(cfg: ExchangeConfig, o: PaperOrder, requestTime: int): PaperOrder {
    o.(status := CancelPending, cancelDue := Some(requestTime + cfg.cancellationLatency))
  }

  /** What the order has filled after a request and an event. */
  lemma RequestThenEvent(cfg: ExchangeConfig, s: Exchange, k: nat, requestTime: int, e: MarketEvent)
    requires Inv(cfg, s) && WellFormed(s.orders) && k < |s.orders| && NoneOtherActive(s.orders, k)
    requires s.orders[k].status == Open || s.orders[k].status == PartiallyFilled
    ensures var id := s.orders[k].request.clientOrderId;
            var s2 := Step(cfg, s, CancelOrder(id, requestTime));
            && Cancellable(s, id) && FindOrder(s, id) == Some(k)
            && s2 == s.(orders := s.orders[k := Requested(cfg, s.orders[k], requestTime)])
            && (EventAccepted(cfg, s, e) ==>
                  Step(cfg, s2, Event(e)).orders[k].filled
                  == LoneVisits(cfg, s.books, Requested(cfg, s.orders[k], requestTime), e).filled)
  {
    hide BooksInv, Processed, Activated, Matched, MatchOne, Activate, MarkToMarket, EventAccepted;
    var id := s.orders[k].request.clientOrderId;
    CancelKeepsInv(cfg, s, id, requestTime);
    var s2 := Cancel(cfg, s, id, requestTime).0;
    assert s2.orders[k] == Requested(cfg, s.orders[k], requestTime);
    AcceptedAlike(cfg, s, s2, e);
    LoneOrderVisit(cfg, s2, k, e);
    ProcessedOrder(cfg, s2, k, e);
  }

  lemma AcceptedAlike(cfg: ExchangeConfig, s: Exchange, s': Exchange, e: MarketEvent)
    requires s'.market == s.market
    ensures EventAccepted(cfg, s', e) == EventAccepted(cfg, s, e)
  {
  }

  /** After a request the event takes the order beyond the bound of its place. */
  ghost predicate Outruns(cfg: ExchangeConfig, s: Exchange, o: PaperOrder, place: Place, e: MarketEvent)
    requires WellFormedOrder(o)
  {
    && place.Resting? && SizedEvent(e) && EventAccepted(cfg, s, e)
    && LoneVisits(cfg, s.books, o, e).filled > Max(0, place.opposed + OpposedBy(o, e) - place.joined)
  }

  /** The same condition before and after the request. */
  lemma RequestKeepsCondition(cfg: ExchangeConfig, ledger: LedgerState, o: PaperOrder, o': PaperOrder, place: Place)
    requires o'.request == o.request && o'.remaining == o.remaining
    ensures LosesPlace(cfg, ledger, o', place) == LosesPlace(cfg, ledger, o, place)
  {
    hide DryFill;
    forall price
      ensures TakesAt(cfg, ledger, o', price) == TakesAt(cfg, ledger, o, price)
    {
    }
    forall quantity
      ensures MakesOf(cfg, ledger, o', quantity) == MakesOf(cfg, ledger, o, quantity)
    {
    }
  }

  lemma OutrunIsExact(cfg: ExchangeConfig, s: Exchange, o: PaperOrder, place: Place)
    requires GoodOrder(o) && o.status == CancelPending && o.request.orderType != Market && ValidConfig(cfg)
    requires place.Resting? && PlaceKept(o, place)
    requires o.filled == 0 && o.request.side == Sell ==> o.request.limitPrice.value > 1
    ensures (exists e :: Outruns(cfg, s, o, place, e)) <==> LosesPlace(cfg, s.books.ledger, o, place)
  {
    hide ValidConfig, LoneVisits, TakesAt, DryFill;
    if e :| Outruns(cfg, s, o, place, e) {
      RequestedVisits(cfg, s.books, o, e);
    }
    if LosesPlace(cfg, s.books.ledger, o, place) {
      if o.request.quantity > Max(0, place.opposed - place.joined) && exists price :: TakesAt(cfg, s.books.ledger, o, price) {
        var price :| TakesAt(cfg, s.books.ledger, o, price);
        TakingVisits(cfg, s, o, price);
        TakeIsAccepted(cfg, s, o, price);
        assert Outruns(cfg, s, o, place, TakeEvent(s, o, price));
      } else {
        var quantity :| MakesOf(cfg, s.books.ledger, o, quantity);
        RequeueingVisits(cfg, s, o, quantity);
        RequeueIsAccepted(cfg, s, o, quantity);
        assert Outruns(cfg, s, o, place, RequeueEvent(s, o, quantity));
      }
    }
  }

  /** What a place in the queue says of its order, whatever its status. */
  ghost predicate PlaceKept(o: PaperOrder, place: Place)
    requires place.Resting?
  {
    && 0 <= o.queueAhead <= place.joined && (place.joined - o.queueAhead) + o.filled <= place.opposed
    && (o.filled > 0 ==> o.queueAhead == 0)
  }

  lemma TakeIsAccepted(cfg: ExchangeConfig, s: Exchange, o: PaperOrder, price: int)
    requires ValidConfig(cfg) && TakesAt(cfg, s.books.ledger, o, price)
    ensures EventAccepted(cfg, s, TakeEvent(s, o, price))
  {
    hide ValidConfig;
  }

  lemma RequeueIsAccepted(cfg: ExchangeConfig, s: Exchange, o: PaperOrder, quantity: int)
    requires ValidConfig(cfg) && o.request.limitPrice.Some? && o.request.limitPrice.value > 0
    requires o.request.side == Sell ==> o.request.limitPrice.value > 1
    ensures EventAccepted(cfg, s, RequeueEvent(s, o, quantity))
  {
    hide ValidConfig;
  }

  // ----- resting sells leave room below their limit -----

  /** An order opens only where it does not cross the book. */
  ghost predicate OpensUncrossed(o: PaperOrder, o': PaperOrder, e: MarketEvent) {
    o'.status == Open ==>
      o.status == Open || (o.request.limitPrice.Some? && !Crosses(o.request.side, o.request.limitPrice.value, e))
  }

  lemma VisitOpensUncrossed(cfg: ExchangeConfig, phase: Phase, b: Books, o: PaperOrder, volume: int, e: MarketEvent)
    requires GoodOrder(o)
    ensures OpensUncrossed(o, Visit(cfg, phase, b, o, volume, e).1, e)
  {
    hide ApplyFill, FillFee, SlippedPrice;
  }

  lemma EventOpensUncrossed(cfg: ExchangeConfig, s: Exchange, k: nat, e: MarketEvent)
    requires Inv(cfg, s) && WellFormed(s.orders) && k < |s.orders|
    ensures OpensUncrossed(s.orders[k], Processed(cfg, s, e).orders[k], e)
  {
    hide BooksInv, Visit, Crosses, Pass;
    var n, start, a, m := |s.orders|, Opening(s, e), Activated(cfg, s, e), Matched(cfg, s, e);
    EventPhases(cfg, s, e);
    OrdersAreGood(cfg, s.books, s.orders, k);
    OrdersAreGood(cfg, a.books, a.orders, k);
    OrdersAreGood(cfg, m.books, m.orders, k);
    OrderInPass(cfg, Activating, start, n, k, e);
    OrderInPass(cfg, Matching, a, n, k, e);
    OrderInPass(cfg, Cancelling, m, n, k, e);
    var one, two, three := Pass(cfg, Activating, start, k, e), Pass(cfg, Matching, a, k, e), Pass(cfg, Cancelling, m, k, e);
    VisitOpensUncrossed(cfg, Activating, one.books, s.orders[k], one.volume, e);
    VisitOpensUncrossed(cfg, Matching, two.books, a.orders[k], two.volume, e);
    VisitOpensUncrossed(cfg, Cancelling, three.books, m.orders[k], three.volume, e);
    assert Evolves(s.orders[k], a.orders[k]) && Evolves(a.orders[k], m.orders[k]);
  }

  ghost predicate OpenSellsAboveOne(cfg: ExchangeConfig, orders: seq<PaperOrder>) {
    && (orders != [] ==> ValidConfig(cfg))
    && forall k :: 0 <= k < |orders| ==> OpenSellAboveOne(orders[k])
  }

  ghost predicate OpenSellAboveOne(o: PaperOrder) {
    o.status == Open && o.request.side == Sell ==> o.request.limitPrice.Some? && o.request.limitPrice.value > 1
  }

  lemma EntryOpensUncrossed(cfg: ExchangeConfig, s: Exchange, request: OrderRequest, decisionTime: int)
    requires Inv(cfg, s) && SubmitProblem(cfg, s, request, decisionTime) == NoProblem
    ensures ValidConfig(cfg) && OpenSellAboveOne(Entered(cfg, s, request, decisionTime).1)
  {
    hide NormalizedQuantity, FillOrder, CheckedWideNotional, IsStale, BreaksOrderLimit, SpreadPpm, BooksInv;
    NewOrderIsGood(cfg, s, request, decisionTime);
    var o := NewOrder(cfg, s, request, decisionTime);
    if cfg.acknowledgementLatency == 0 && o.request.orderType != Market {
      FillTreats(cfg, s.books, o, o.remaining, Touch(request.side, s.market.value), false, s.market.value);
      FilledInFull(cfg, s.books, o, Touch(request.side, s.market.value), s.market.value);
    } else if cfg.acknowledgementLatency == 0 {
      ActivateMoves(cfg, s.books, o, s.market.value);
    }
  }

  lemma StepKeepsOpenSells(cfg: ExchangeConfig, s: Exchange, action: Action)
    requires Inv(cfg, s) && WellFormed(s.orders) && OpenSellsAboveOne(cfg, s.orders)
    ensures OpenSellsAboveOne(cfg, Step(cfg, s, action).orders)
  {
    hide BooksInv, Processed, MarkToMarket, Entered, SubmitProblem, ValidConfig, Indexed;
    match action
    case Event(e) =>
      StepKeepsInv(cfg, s, action);
      forall k | 0 <= k < |s.orders|
        ensures OpenSellAboveOne(Step(cfg, s, action).orders[k])
      {
        assert Evolves(s.orders[k], Step(cfg, s, action).orders[k]);
        if EventAccepted(cfg, s, e) {
          EventOpensUncrossed(cfg, s, k, e);
        }
      }
    case SubmitOrder(request, decisionTime) =>
      if SubmitProblem(cfg, s, request, decisionTime) == NoProblem {
        EntryOpensUncrossed(cfg, s, request, decisionTime);
      }
    case CancelOrder(id, requestTime) =>
  }

  lemma {:induction false} ReachedOpenSells(cfg: ExchangeConfig, actions: seq<Action>)
    ensures OpenSellsAboveOne(cfg, Reached(cfg, actions).orders)
    decreases |actions|
  {
    hide Step, Inv, OpenSellsAboveOne;
    if actions == [] {
      assert OpenSellsAboveOne(cfg, []) by { NoOpenSells(cfg); }
    } else {
      var before, last := actions[..|actions| - 1], actions[|actions| - 1];
      assert actions == before + [last];
      RunAppend(cfg, InitialExchange(cfg), before, last);
      ReachedInv(cfg, before);
      ReachedOpenSells(cfg, before);
      StepKeepsOpenSells(cfg, Reached(cfg, before), last);
    }
  }

  lemma NoOpenSells(cfg: ExchangeConfig)
    ensures OpenSellsAboveOne(cfg, [])
  {
  }

  lemma {:induction false} PlaceAppend(cfg: ExchangeConfig, s: Exchange, place: Place, k: nat, actions: seq<Action>,
                                       last: Action)
    requires WellFormed(s.orders)
    ensures PlaceAtEnd(cfg, s, place, k, actions + [last])
         == PlaceAfter(cfg, Run(cfg, s, actions), PlaceAtEnd(cfg, s, place, k, actions), k, last)
    decreases |actions|
  {
    hide Step, PlaceAfter;
    if actions == [] {
      assert [last][1..] == [];
      assert PlaceAtEnd(cfg, s, place, k, [last])
          == PlaceAtEnd(cfg, Step(cfg, s, last), PlaceAfter(cfg, s, place, k, last), k, [last][1..]);
    } else {
      assert (actions + [last])[1..] == actions[1..] + [last];
      PlaceAppend(cfg, Step(cfg, s, actions[0]), PlaceAfter(cfg, s, place, k, actions[0]), k, actions[1..], last);
    }
  }

  // ----- over runs -----

  /** At the end of the run the order has filled more than its place allows. */
  ghost predicate BeyondPlace(cfg: ExchangeConfig, actions: seq<Action>, k: nat) {
    && k < |Reached(cfg, actions).orders|
    && var place := PlaceAtEnd(cfg, InitialExchange(cfg), NotResting, k, actions);
       place.Resting? && Reached(cfg, actions).orders[k].filled > Max(0, place.opposed - place.joined)
  }

  lemma OutrunInRun(cfg: ExchangeConfig, actions: seq<Action>, k: nat, requestTime: int, e: MarketEvent)
    requires k < |Reached(cfg, actions).orders|
    requires var s := Reached(cfg, actions);
             NoneOtherActive(s.orders, k) && (s.orders[k].status == Open || s.orders[k].status == PartiallyFilled)
    requires PlaceAtEnd(cfg, InitialExchange(cfg), NotResting, k, actions).Resting?
    ensures WellFormed(Reached(cfg, actions).orders)
    ensures var s := Reached(cfg, actions);
            var place := PlaceAtEnd(cfg, InitialExchange(cfg), NotResting, k, actions);
            SizedEvent(e) && EventAccepted(cfg, s, e) ==>
              (BeyondPlace(cfg, actions + [CancelOrder(s.orders[k].request.clientOrderId, requestTime), Event(e)], k)
               <==> Outruns(cfg, s, Requested(cfg, s.orders[k], requestTime), place, e))
  {
    hide Run, PlaceAtEnd, Step, Inv, EventAccepted, LoneVisits;
    ReachedInv(cfg, actions);
    var initial, s := InitialExchange(cfg), Reached(cfg, actions);
    if SizedEvent(e) && EventAccepted(cfg, s, e) {
      var cancel, trade := CancelOrder(s.orders[k].request.clientOrderId, requestTime), Event(e);
      RequestThenEvent(cfg, s, k, requestTime, e);
      AcceptedAlike(cfg, s, Step(cfg, s, cancel), e);
      StepKeepsInv(cfg, s, cancel);
      StepKeepsInv(cfg, Step(cfg, s, cancel), trade);
      RunAppend(cfg, initial, actions, cancel);
      RunAppend(cfg, initial, actions + [cancel], trade);
      PlaceAppend(cfg, initial, NotResting, k, actions, cancel);
      PlaceAppend(cfg, initial, NotResting, k, actions + [cancel], trade);
      assert actions + [cancel, trade] == actions + [cancel] + [trade];
    }
  }

  /** Exactly when a cancel request ends the queue guarantee.  Take any run of sized events at whose end
      the order rests, with no other order live and never asked to cancel.  A request takes effect; and
      some next event then carries the order beyond the bound of its place if and only if the order is
      a limit order short of that bound whose rest can be taken at some price within its limit, or it
      is behind the queue it joined and some quantity of it can be filled at its limit. */
  lemma CancelEndsTheGuarantee(cfg: ExchangeConfig, actions: seq<Action>, k: nat, requestTime: int)
    requires SizedActions(actions) && k < |Reached(cfg, actions).orders|
    requires var s := Reached(cfg, actions);
             && (s.orders[k].status == Open || s.orders[k].status == PartiallyFilled) && NoneOtherActive(s.orders, k)
             && forall i :: 0 <= i < |actions| ==> actions[i].CancelOrder? ==>
                  actions[i].clientOrderId != s.orders[k].request.clientOrderId
    ensures var s := Reached(cfg, actions);
            var id := s.orders[k].request.clientOrderId;
            && Cancellable(s, id)
            && ((exists e :: SizedEvent(e) && EventAccepted(cfg, s, e)
                             && BeyondPlace(cfg, actions + [CancelOrder(id, requestTime), Event(e)], k))
                <==> LosesPlace(cfg, s.books.ledger, s.orders[k],
                                PlaceAtEnd(cfg, InitialExchange(cfg), NotResting, k, actions)))
  {
    hide Run, PlaceAtEnd, Step, Inv, EventAccepted, LosesPlace, BeyondPlace, OpenSellsAboveOne, NeverCancelled,
         SizedEvent;
    var s, initial := Reached(cfg, actions), InitialExchange(cfg);
    var place := PlaceAtEnd(cfg, initial, NotResting, k, actions);
    InitialInv(cfg);
    ReachedInv(cfg, actions);
    ReachedOpenSells(cfg, actions);
    ReachedOrder(cfg, s, k);
    UnnamedIsNeverCancelled(cfg, initial, k, actions);
    RunKeepsPlace(cfg, initial, k, NotResting, actions);
    var o, o' := s.orders[k], Requested(cfg, s.orders[k], requestTime);
    RequestKeepsCondition(cfg, s.books.ledger, o, o', place);
    SellHasRoom(cfg, s.orders, k);
    OutrunIsExact(cfg, s, o', place);
    forall e
      ensures Outruns(cfg, s, o', place, e) <==>
              SizedEvent(e) && EventAccepted(cfg, s, e)
              && BeyondPlace(cfg, actions + [CancelOrder(o.request.clientOrderId, requestTime), Event(e)], k)
    {
      OutrunInRun(cfg, actions, k, requestTime, e);
    }
    RequestThenEvent(cfg, s, k, requestTime, TakeEvent(s, o, 1));
  }

  lemma SellHasRoom(cfg: ExchangeConfig, orders: seq<PaperOrder>, k: nat)
    requires OpenSellsAboveOne(cfg, orders) && k < |orders|
    ensures ValidConfig(cfg) && OpenSellAboveOne(orders[k])
  {
  }
}
