/** What a place in the queue guarantees over a whole run. */
module QueuePosition {
  import opened FixedPoint
  import opened Types
  import opened LedgerModel
  import opened ExchangeModel
  import opened ExchangeInvariants
  import opened ExchangeTheorems
  import opened Matching

  /** Events carry displayed sizes, which are not negative. */
  predicate SizedEvent(e: MarketEvent) {
    e.bidQuantity >= 0 && e.askQuantity >= 0
  }

  predicate SizedActions(actions: seq<Action>) {
    forall i :: 0 <= i < |actions| && actions[i].Event? ==> SizedEvent(actions[i].event)
  }

  /** The size displayed at an order's limit, on its own side of the book. */
  function DisplayedAhead(request: OrderRequest, e: MarketEvent): int {
    if request.limitPrice.None? then 0
    else if request.side.Buy? && request.limitPrice.value == e.bestBid then e.bidQuantity
    else if request.side.Sell? && request.limitPrice.value == e.bestAsk then e.askQuantity
    else 0
  }

  ghost predicate QueueInv(s: Exchange) {
    && QueuesKnown(s.orders)
    && (forall k :: 0 <= k < |s.orders| && s.orders[k].status == Pending ==> s.orders[k].queueAhead == 0)
    && (s.market.Some? ==> SizedEvent(s.market.value))
  }

  /** Where an order rests: the queue it joined and the volume that has traded against it since. */
  datatype Place = NotResting | Resting(joined: int, opposed: int)

  function OpposedBy(o: PaperOrder, e: MarketEvent): int {
    if e.receiveTime >= o.activeTime && TradeOpposes(o.request, e) then TradedVolume(e) else 0
  }

  function PlaceAfterEvent(cfg: ExchangeConfig, s: Exchange, place: Place, k: nat, e: MarketEvent): Place
    requires WellFormed(s.orders) && k < |s.orders|
  {
    var o := s.orders[k];
    var rests := o.status == Pending && Activated(cfg, s, e).orders[k].status == Open;
    var p := if place == NotResting && rests then Resting(DisplayedAhead(o.request, e), 0) else place;
    if p.Resting? then p.(opposed := p.opposed + OpposedBy(o, e)) else p
  }

  function PlaceAfter(cfg: ExchangeConfig, s: Exchange, place: Place, k: nat, action: Action): Place
    requires WellFormed(s.orders)
  {
    match action
    case Event(e) =>
      if k < |s.orders| && EventAccepted(cfg, s, e) then PlaceAfterEvent(cfg, s, place, k, e) else place
    case SubmitOrder(request, _) =>
      var s' := Step(cfg, s, action);
      if k == |s.orders| < |s'.orders| && s'.orders[k].status == Open && s.market.Some?
      then Resting(DisplayedAhead(request, s.market.value), 0) else place
    case CancelOrder(_, _) => place
  }

  /** The place of order k at the end of a run. */
  function PlaceAtEnd(cfg: ExchangeConfig, s: Exchange, place: Place, k: nat, actions: seq<Action>): Place
    requires WellFormed(s.orders)
    decreases |actions|
  {
    if actions == [] then place
    else PlaceAtEnd(cfg, Step(cfg, s, actions[0]), PlaceAfter(cfg, s, place, k, actions[0]), k, actions[1..])
  }

  ghost predicate PlaceOf(o: PaperOrder, place: Place) {
    match place
    case NotResting => o.status == Pending || o.status == Filled || (o.status == Rejected && o.filled == 0)
    case Resting(joined, opposed) =>
      && (o.status == Open || o.status == PartiallyFilled || o.status == Filled || o.status == Rejected)
      && 0 <= o.queueAhead <= joined
      && (joined - o.queueAhead) + o.filled <= opposed
      && (o.filled > 0 ==> o.queueAhead == 0)
  }

  ghost predicate PlaceInv(s: Exchange, k: nat, place: Place) {
    if k < |s.orders| then PlaceOf(s.orders[k], place) else place == NotResting
  }

  // ----- queues over one event -----

  lemma ActivateKeepsQueue(cfg: ExchangeConfig, b: Books, o: PaperOrder, e: MarketEvent)
    requires GoodOrder(o) && (o.status == Pending || o.status == CancelPending) && o.queueAhead >= 0
    requires SizedEvent(e)
    ensures var o' := Activate(cfg, b, o, e).1;
            && o'.queueAhead >= 0
            && (o'.status == Pending ==> o' == o)
            && (o.status == Pending && o.queueAhead == 0 ==>
                  match o'.status
                  case Pending => true
                  case Open => o'.queueAhead == DisplayedAhead(o.request, e)
                  case Filled => true
                  case Rejected => o'.filled == 0
                  case _ => false)
  {
    var price := if o.request.orderType == Market
                 then SlippedPrice(Touch(o.request.side, e), o.request.side, cfg.slippagePpm)
                 else Some(Touch(o.request.side, e));
    if price.Some? && !IsTerminal(o.status) && o.remaining > 0 {
      FillOrderResult(cfg, b, o, o.remaining, price.value, false, e);
      FilledInFull(cfg, b, o, price.value, e);
    }
  }

  lemma FilledInFull(cfg: ExchangeConfig, b: Books, o: PaperOrder, price: int, e: MarketEvent)
    requires GoodOrder(o) && o.remaining > 0
    ensures FillOrder(cfg, b, o, o.remaining, price, false, e).1.status in {OrderStatus.Filled, OrderStatus.Rejected}
  {
    hide ApplyFill, FillFee;
  }

  lemma {:induction false} ActivatingKeepsVolume(cfg: ExchangeConfig, floor: Floor, n: nat, e: MarketEvent)
    requires n <= |floor.orders| && WellFormed(floor.orders)
    ensures Pass(cfg, Activating, floor, n, e).volume == floor.volume
  {
    hide Activate;
    if n > 0 {
      ActivatingKeepsVolume(cfg, floor, n - 1, e);
    }
  }

  lemma ActivatedOrder(cfg: ExchangeConfig, s: Exchange, k: nat, e: MarketEvent)
    requires WellFormed(s.orders) && BooksInv(cfg, s.books, s.orders) && k < |s.orders|
    ensures var b := Pass(cfg, Activating, Opening(s, e), k, e).books;
            Activated(cfg, s, e).orders[k]
            == if CanActivate(s.orders[k], e) then Activate(cfg, b, s.orders[k], e).1 else s.orders[k]
  {
    hide Activate, Pass;
    OrderInPass(cfg, Activating, Opening(s, e), |s.orders|, k, e);
  }

  lemma ActivatedIsShareable(cfg: ExchangeConfig, s: Exchange, e: MarketEvent)
    requires WellFormed(s.orders) && BooksInv(cfg, s.books, s.orders) && QueueInv(s) && SizedEvent(e)
    ensures Shareable(cfg, Activated(cfg, s, e)) && Activated(cfg, s, e).volume == TradedVolume(e)
    ensures QueuesKnown(Activated(cfg, s, e).orders)
  {
    hide BooksInv, Pass, Activate;
    EventPhases(cfg, s, e);
    ActivatingKeepsVolume(cfg, Opening(s, e), |s.orders|, e);
    forall k | 0 <= k < |s.orders|
      ensures Activated(cfg, s, e).orders[k].queueAhead >= 0
    {
      ActivatedOrder(cfg, s, k, e);
      OrdersAreGood(cfg, s.books, s.orders, k);
      if CanActivate(s.orders[k], e) {
        ActivateKeepsQueue(cfg, Pass(cfg, Activating, Opening(s, e), k, e).books, s.orders[k], e);
      }
    }
  }

  /** What matching one event does to one order. */
  lemma MatchedOrder(cfg: ExchangeConfig, s: Exchange, k: nat, e: MarketEvent)
    requires WellFormed(s.orders) && BooksInv(cfg, s.books, s.orders) && QueueInv(s) && SizedEvent(e) && k < |s.orders|
    ensures var o, o' := Activated(cfg, s, e).orders[k], Matched(cfg, s, e).orders[k];
            && 0 <= o'.queueAhead <= o.queueAhead
            && (o'.filled - o.filled) + (o.queueAhead - o'.queueAhead) <= OpposedBy(o, e)
            && (o'.filled > o.filled ==> o'.queueAhead == 0)
            && (o' != o ==> Reaches(o, e))
            && (o.status == Open || o.status == PartiallyFilled ==>
                  o'.status == o.status || o'.status == PartiallyFilled || o'.status == Filled || o'.status == Rejected)
  {
    hide BooksInv, Pass, MatchOne, Activated;
    ActivatedIsShareable(cfg, s, e);
    var floor := Activated(cfg, s, e);
    PassShares(cfg, floor, k, e);
    PassIsBounded(cfg, floor, k, e);
    OrderInPass(cfg, Matching, floor, |s.orders|, k, e);
    var before := Pass(cfg, Matching, floor, k, e);
    OrdersAreGood(cfg, before.books, before.orders, k);
    MatchOneShares(cfg, before.books, before.orders[k], e, before.volume);
    MatchTreats(cfg, before.books, before.orders[k], e, before.volume);
  }

  /** A visit that books no fill leaves the status, opens a pending order or rejects; a visit that
      books one leaves the order filled in part or in full. */
  ghost predicate Treated(o: PaperOrder, o': PaperOrder) {
    if o'.filled == o.filled then
      o'.status == o.status || o'.status == Rejected || (o.status == Pending && o'.status == Open)
    else
      o'.filled > o.filled && (o'.status == PartiallyFilled || o'.status == Filled)
  }

  lemma LeftAloneIsTreated(o: PaperOrder)
    ensures Treated(o, o)
  {
  }

  lemma FillTreats(cfg: ExchangeConfig, b: Books, o: PaperOrder, wanted: int, price: int, maker: bool, e: MarketEvent)
    requires GoodOrder(o)
    ensures Treated(o, FillOrder(cfg, b, o, wanted, price, maker, e).1)
  {
    hide ApplyFill, FillFee;
  }

  lemma MatchTreats(cfg: ExchangeConfig, b: Books, o: PaperOrder, e: MarketEvent, volume: int)
    requires GoodOrder(o)
    ensures Treated(o, MatchOne(cfg, b, o, e, volume).1)
  {
    hide FillOrder;
    if volume > 0 && Reaches(o, e) {
      var ahead := Min(o.queueAhead, volume);
      FillTreats(cfg, b, o.(queueAhead := o.queueAhead - ahead), Min(o.remaining, volume - ahead),
                 o.request.limitPrice.value, true, e);
    }
  }

  lemma ActivateTreats(cfg: ExchangeConfig, b: Books, o: PaperOrder, e: MarketEvent)
    requires GoodOrder(o) && (o.status == Pending || o.status == CancelPending)
    ensures var o' := Activate(cfg, b, o, e).1;
            Treated(o, o') && (o'.filled != o.filled ==> o'.status == Filled)
  {
    hide FillOrder;
    var price := if o.request.orderType == Market
                 then SlippedPrice(Touch(o.request.side, e), o.request.side, cfg.slippagePpm)
                 else Some(Touch(o.request.side, e));
    if price.Some? {
      FillTreats(cfg, b, o, o.remaining, price.value, false, e);
      FilledInFull(cfg, b, o, price.value, e);
    }
  }

  lemma ProcessedOrder(cfg: ExchangeConfig, s: Exchange, k: nat, e: MarketEvent)
    requires WellFormed(s.orders) && k < |s.orders|
    ensures Processed(cfg, s, e).orders[k] == CancelIfDue(Matched(cfg, s, e).orders[k], e)
  {
    hide Pass, Matched;
    OrderInPass(cfg, Cancelling, Matched(cfg, s, e), |s.orders|, k, e);
  }

  lemma EventKeepsPlace(cfg: ExchangeConfig, s: Exchange, k: nat, place: Place, e: MarketEvent)
    requires WellFormed(s.orders) && BooksInv(cfg, s.books, s.orders) && QueueInv(s) && SizedEvent(e) && k < |s.orders|
    requires PlaceOf(s.orders[k], place)
    ensures PlaceOf(Processed(cfg, s, e).orders[k], PlaceAfterEvent(cfg, s, place, k, e))
  {
    hide BooksInv, Processed, Matched, Activated, Activate, Reaches, TradeOpposes, Pass;
    var o := s.orders[k];
    var a := Activated(cfg, s, e).orders[k];
    ActivatedOrder(cfg, s, k, e);
    OrdersAreGood(cfg, s.books, s.orders, k);
    if CanActivate(o, e) {
      ActivateKeepsQueue(cfg, Pass(cfg, Activating, Opening(s, e), k, e).books, o, e);
    }
    EventPhases(cfg, s, e);
    OrdersAreGood(cfg, Activated(cfg, s, e).books, Activated(cfg, s, e).orders, k);
    assert Evolves(o, a);
    MatchedOrder(cfg, s, k, e);
    ReachedByTradeIsResting(a, e);
    ProcessedOrder(cfg, s, k, e);
  }

  lemma ReachedByTradeIsResting(o: PaperOrder, e: MarketEvent)
    ensures Reaches(o, e) ==> o.status == Open || o.status == PartiallyFilled || o.status == CancelPending
  {
  }

  // ----- queues over a run -----

  lemma EventKeepsQueues(cfg: ExchangeConfig, s: Exchange, e: MarketEvent)
    requires Inv(cfg, s) && WellFormed(s.orders) && QueueInv(s) && SizedEvent(e)
    ensures QueueInv(OnMarketEvent(cfg, s, e).0)
  {
    hide BooksInv, Processed, Matched, Activated, MarkToMarket;
    if EventAccepted(cfg, s, e) {
      EventPhases(cfg, s, e);
      var a, m, c := Activated(cfg, s, e).orders, Matched(cfg, s, e).orders, Processed(cfg, s, e).orders;
      EvolvesTrans(s.orders, a, m);
      EvolvesTrans(s.orders, m, c);
      forall k | 0 <= k < |s.orders|
        ensures c[k].queueAhead >= 0 && (c[k].status == Pending ==> c[k].queueAhead == 0)
      {
        assert Evolves(s.orders[k], c[k]);
        MatchedOrder(cfg, s, k, e);
        ProcessedOrder(cfg, s, k, e);
      }
    }
  }

  lemma EntryJoinsQueue(cfg: ExchangeConfig, s: Exchange, request: OrderRequest, decisionTime: int)
    requires Inv(cfg, s) && QueueInv(s) && SubmitProblem(cfg, s, request, decisionTime) == NoProblem
    ensures var o := Entered(cfg, s, request, decisionTime).1;
            && s.market.Some? && o.queueAhead >= 0 && (o.status == Pending ==> o.queueAhead == 0)
            && PlaceOf(o, if o.status == Open then Resting(DisplayedAhead(request, s.market.value), 0) else NotResting)
  {
    hide SubmitProblem, Activate, BooksInv, NormalizedQuantity;
    NewOrderIsGood(cfg, s, request, decisionTime);
    var o := NewOrder(cfg, s, request, decisionTime);
    ActivateKeepsQueue(cfg, s.books, o, s.market.value);
    ActivateMoves(cfg, s.books, o, s.market.value);
    assert Evolves(o, Entered(cfg, s, request, decisionTime).1);
    assert GoodOrder(Entered(cfg, s, request, decisionTime).1);
  }

  lemma StepKeepsPlace(cfg: ExchangeConfig, s: Exchange, k: nat, place: Place, action: Action)
    requires Inv(cfg, s) && WellFormed(s.orders) && QueueInv(s) && PlaceInv(s, k, place)
    requires action.Event? ==> SizedEvent(action.event)
    requires action.CancelOrder? ==> FindOrder(s, action.clientOrderId) != Some(k)
    ensures var s' := Step(cfg, s, action);
            QueueInv(s') && PlaceInv(s', k, PlaceAfter(cfg, s, place, k, action))
  {
    hide BooksInv, Processed, MarkToMarket, PlaceOf, PlaceAfterEvent, Entered, SubmitProblem, EventAccepted,
         DisplayedAhead;
    match action
    case Event(e) =>
      EventKeepsQueues(cfg, s, e);
      if k < |s.orders| && EventAccepted(cfg, s, e) {
        EventKeepsPlace(cfg, s, k, place, e);
      }
    case SubmitOrder(request, decisionTime) =>
      if SubmitProblem(cfg, s, request, decisionTime) == NoProblem {
        EntryJoinsQueue(cfg, s, request, decisionTime);
      }
    case CancelOrder(id, requestTime) =>
  }

  lemma {:induction false} RunKeepsPlace(cfg: ExchangeConfig, s: Exchange, k: nat, place: Place, actions: seq<Action>)
    requires Inv(cfg, s) && WellFormed(s.orders) && QueueInv(s) && PlaceInv(s, k, place)
    requires SizedActions(actions) && NeverCancelled(cfg, s, k, actions)
    ensures var s' := Run(cfg, s, actions);
            QueueInv(s') && PlaceInv(s', k, PlaceAtEnd(cfg, s, place, k, actions))
    decreases |actions|
  {
    hide Inv, QueueInv, PlaceInv, PlaceAfter, Step;
    if actions != [] {
      var next := Step(cfg, s, actions[0]);
      StepKeepsInv(cfg, s, actions[0]);
      StepKeepsPlace(cfg, s, k, place, actions[0]);
      assert SizedActions(actions[1..]);
      RunKeepsPlace(cfg, next, k, PlaceAfter(cfg, s, place, k, actions[0]), actions[1..]);
    }
  }

  /** No action of the run asks to cancel order k. */
  ghost predicate NeverCancelled(cfg: ExchangeConfig, s: Exchange, k: nat, actions: seq<Action>)
    requires WellFormed(s.orders)
    decreases |actions|
  {
    actions == [] ||
    (&& (actions[0].CancelOrder? ==> FindOrder(s, actions[0].clientOrderId) != Some(k))
     && NeverCancelled(cfg, Step(cfg, s, actions[0]), k, actions[1..]))
  }

  /** An order is never cancelled when no action names its client order id. */
  lemma {:induction false} UnnamedIsNeverCancelled(cfg: ExchangeConfig, s: Exchange, k: nat, actions: seq<Action>)
    requires Inv(cfg, s) && WellFormed(s.orders)
    requires k < |Run(cfg, s, actions).orders|
    requires var id := Run(cfg, s, actions).orders[k].request.clientOrderId;
             forall i :: 0 <= i < |actions| ==> actions[i].CancelOrder? ==> actions[i].clientOrderId != id
    ensures NeverCancelled(cfg, s, k, actions)
    decreases |actions|
  {
    hide BooksInv, Step;
    if actions != [] {
      var next := Step(cfg, s, actions[0]);
      StepKeepsInv(cfg, s, actions[0]);
      RunKeepsInv(cfg, s, actions);
      if k < |s.orders| {
        assert Evolves(s.orders[k], Run(cfg, s, actions).orders[k]);
      }
      UnnamedIsNeverCancelled(cfg, next, k, actions[1..]);
    }
  }

  /** The queue guarantee, over every run of sized events: an order that rested and that nobody asked
      to cancel has never filled more than the opposing volume traded at or through its limit since it
      rested, less the queue displayed at its limit when it joined. */
  lemma QueueGuarantee(cfg: ExchangeConfig, actions: seq<Action>, k: nat)
    requires SizedActions(actions) && k < |Reached(cfg, actions).orders|
    requires var id := Reached(cfg, actions).orders[k].request.clientOrderId;
             forall i :: 0 <= i < |actions| ==> actions[i].CancelOrder? ==> actions[i].clientOrderId != id
    ensures var place := PlaceAtEnd(cfg, InitialExchange(cfg), NotResting, k, actions);
            var o := Reached(cfg, actions).orders[k];
            && (place.Resting? ==> o.filled <= Max(0, place.opposed - place.joined))
            && (place == NotResting && o.filled > 0 ==> o.filled == o.request.quantity)
            && FilledBy(Reached(cfg, actions).books.fills, k + 1) == o.filled
  {
    hide Run, PlaceAtEnd, Inv, FilledBy, NeverCancelled;
    InitialInv(cfg);
    ReachedInv(cfg, actions);
    UnnamedIsNeverCancelled(cfg, InitialExchange(cfg), k, actions);
    RunKeepsPlace(cfg, InitialExchange(cfg), k, NotResting, actions);
    ReachedOrder(cfg, Reached(cfg, actions), k);
  }

  // ----- every trade of every run -----

  lemma StepKeepsQueues(cfg: ExchangeConfig, s: Exchange, action: Action)
    requires Inv(cfg, s) && WellFormed(s.orders) && QueueInv(s)
    requires action.Event? ==> SizedEvent(action.event)
    ensures QueueInv(Step(cfg, s, action))
  {
    hide Step, QueueInv, BooksInv;
    StepKeepsPlace(cfg, s, |s.orders| + 1, NotResting, action);
  }

  lemma {:induction false} RunKeepsQueues(cfg: ExchangeConfig, s: Exchange, actions: seq<Action>)
    requires Inv(cfg, s) && WellFormed(s.orders) && QueueInv(s) && SizedActions(actions)
    ensures QueueInv(Run(cfg, s, actions))
    decreases |actions|
  {
    hide Inv, QueueInv, Step;
    if actions != [] {
      StepKeepsInv(cfg, s, actions[0]);
      StepKeepsQueues(cfg, s, actions[0]);
      assert SizedActions(actions[1..]);
      RunKeepsQueues(cfg, Step(cfg, s, actions[0]), actions[1..]);
    }
  }

  /** In every run each trade is shared in order among the orders resting after activation: what is
      filled and what is taken off the queues together never exceed the volume used, a later order is
      touched only if every earlier one the trade reaches is done, and volume left over means that
      every order it reaches is done. */
  lemma EveryTradeIsShared(cfg: ExchangeConfig, actions: seq<Action>, e: MarketEvent)
    ensures WellFormed(Reached(cfg, actions).orders)
    ensures var before, after := Activated(cfg, Reached(cfg, actions), e), Matched(cfg, Reached(cfg, actions), e);
            && 0 <= after.volume
            && (TotalFilled(after.orders) - TotalFilled(before.orders))
               + (TotalQueue(before.orders) - TotalQueue(after.orders)) <= TradedVolume(e) - after.volume
            && (forall i, j :: 0 <= i < j < |before.orders| && Reaches(before.orders[i], e) && after.orders[j] != before.orders[j]
                               ==> IsTerminal(after.orders[i].status))
            && (after.volume > 0 ==>
                  forall i :: 0 <= i < |before.orders| && Reaches(before.orders[i], e)
                              ==> IsTerminal(after.orders[i].status))
  {
    hide Run, BooksInv, Pass, Reaches, Activated;
    ReachedInv(cfg, actions);
    TradeIsShareable(cfg, Reached(cfg, actions), e);
    TradeIsSharedInOrder(cfg, Activated(cfg, Reached(cfg, actions), e), e);
  }

  lemma TradeIsShareable(cfg: ExchangeConfig, s: Exchange, e: MarketEvent)
    requires Inv(cfg, s) && WellFormed(s.orders)
    ensures Shareable(cfg, Activated(cfg, s, e)) && Activated(cfg, s, e).volume == TradedVolume(e)
  {
    hide BooksInv, Pass;
    EventPhases(cfg, s, e);
    ActivatingKeepsVolume(cfg, Opening(s, e), |s.orders|, e);
  }

  /** In every run of sized events no trade fills more than was traded: no queue grows, no order fills
      before its queue is gone, and all fills together stay within the volume used, which is part of
      the volume traded. */
  lemma NoTradeOverfills(cfg: ExchangeConfig, actions: seq<Action>, e: MarketEvent)
    requires SizedActions(actions) && SizedEvent(e)
    ensures WellFormed(Reached(cfg, actions).orders)
    ensures var before, after := Activated(cfg, Reached(cfg, actions), e), Matched(cfg, Reached(cfg, actions), e);
            && 0 <= after.volume <= TradedVolume(e)
            && TotalFilled(after.orders) - TotalFilled(before.orders) <= TradedVolume(e) - after.volume
            && AllShrink(before.orders, after.orders)
  {
    hide Run, BooksInv, Pass, Reaches, Activated;
    InitialInv(cfg);
    ReachedInv(cfg, actions);
    RunKeepsQueues(cfg, InitialExchange(cfg), actions);
    ActivatedIsShareable(cfg, Reached(cfg, actions), e);
    var floor := Activated(cfg, Reached(cfg, actions), e);
    PassIsBounded(cfg, floor, |floor.orders|, e);
  }
}
