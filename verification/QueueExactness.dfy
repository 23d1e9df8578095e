/** Where the queue rules are exact: a trade against a lone order, and an order served alone. */
module QueueExactness {
  import opened FixedPoint
  import opened Types
  import opened LedgerModel
  import opened ExchangeModel
  import opened ExchangeInvariants
  import opened ExchangeTheorems
  import opened Matching
  import opened QueuePosition
  import opened Cancellation

  // ----- more than was traded -----

  /** A visit fills an order by more than the volume it was offered. */
  predicate Overfills(o: PaperOrder, o': PaperOrder, volume: int) {
    o'.filled - o.filled > volume
  }

  /** The queue ahead is negative, so it adds to the volume; more is left to fill than was offered; and
      the larger fill goes through. */
  predicate CanOverfill(cfg: ExchangeConfig, ledger: LedgerState, o: PaperOrder, e: MarketEvent, volume: int) {
    && volume > 0 && Reaches(o, e)
    && o.queueAhead < 0 && o.remaining > volume
    && DryFill(cfg, ledger, o.request, Min(o.remaining, volume - o.queueAhead), o.request.limitPrice.value, true).Some?
  }

  /** A visit fills more than the volume it is offered exactly when the queue ahead is negative, more
      than that volume is left to fill, and the larger fill goes through. */
  lemma OverfillIsExact(cfg: ExchangeConfig, b: Books, o: PaperOrder, e: MarketEvent, volume: int)
    requires GoodOrder(o) && volume >= 0
    ensures Overfills(o, MatchOne(cfg, b, o, e, volume).1, volume) <==> CanOverfill(cfg, b.ledger, o, e, volume)
  {
    hide FillOrder, DryFill;
    if volume > 0 && Reaches(o, e) {
      var ahead := Min(o.queueAhead, volume);
      if volume - ahead > 0 {
        FillOrderResult(cfg, b, o.(queueAhead := o.queueAhead - ahead), Min(o.remaining, volume - ahead),
                        o.request.limitPrice.value, true, e);
      }
    }
  }

  /** In every reachable state: a resting order with no other order live fills more than an event
      trades exactly when its queue is negative and the larger fill goes through. */
  lemma FirstInLineOverfillIsExact(cfg: ExchangeConfig, actions: seq<Action>, k: nat, e: MarketEvent)
    requires k < |Reached(cfg, actions).orders| && EventAccepted(cfg, Reached(cfg, actions), e)
    requires var s := Reached(cfg, actions);
             && (s.orders[k].status == Open || s.orders[k].status == PartiallyFilled)
             && NoneOtherActive(s.orders, k)
    ensures var s, s' := Reached(cfg, actions), Reached(cfg, actions + [Event(e)]);
            && k < |s'.orders|
            && (Overfills(s.orders[k], s'.orders[k], TradedVolume(e))
                <==> CanOverfill(cfg, s.books.ledger, s.orders[k], e, TradedVolume(e)))
  {
    hide Run, Inv, OnMarketEvent, EventAccepted, Overfills, CanOverfill;
    ReachedInv(cfg, actions);
    RunAppend(cfg, InitialExchange(cfg), actions, Event(e));
    LoneOrderVisit(cfg, Reached(cfg, actions), k, e);
    LoneOverfill(cfg, Reached(cfg, actions), k, e);
  }

  /** No other order is live. */
  ghost predicate NoneOtherActive(orders: seq<PaperOrder>, k: nat) {
    forall i :: 0 <= i < |orders| && i != k ==> IsTerminal(orders[i].status)
  }

  /** The activating pass books what the only live order books. */
  lemma {:induction false} LoneActivation(cfg: ExchangeConfig, s: Exchange, k: nat, n: nat, e: MarketEvent)
    requires WellFormed(s.orders) && k < |s.orders| && n <= |s.orders| && NoneOtherActive(s.orders, k)
    ensures Pass(cfg, Activating, Opening(s, e), n, e).books
         == if k < n && CanActivate(s.orders[k], e) then Activate(cfg, s.books, s.orders[k], e).0 else s.books
  {
    hide Activate;
    if n > 0 {
      LoneActivation(cfg, s, k, n - 1, e);
      OrderInPass(cfg, Activating, Opening(s, e), n - 1, n - 1, e);
    }
  }

  /** When no other order is live the matching pass is one visit, on the books its activation leaves. */
  lemma LoneOrderVisit(cfg: ExchangeConfig, s: Exchange, k: nat, e: MarketEvent)
    requires Inv(cfg, s) && WellFormed(s.orders) && k < |s.orders| && NoneOtherActive(s.orders, k)
    ensures var a, b := Activated(cfg, s, e).orders[k], Activated(cfg, s, e).books;
            && (b, a) == (if CanActivate(s.orders[k], e) then Activate(cfg, s.books, s.orders[k], e) else (s.books, s.orders[k]))
            && Matched(cfg, s, e).orders[k] == MatchOne(cfg, b, a, e, TradedVolume(e)).1
            && GoodOrder(s.orders[k]) && GoodOrder(a)
  {
    hide BooksInv, Pass, Activate, MatchOne;
    var start, n := Opening(s, e), |s.orders|;
    OrdersAreGood(cfg, s.books, s.orders, k);
    EventPhases(cfg, s, e);
    OrdersAreGood(cfg, Activated(cfg, s, e).books, Activated(cfg, s, e).orders, k);
    FirstInLineGetsTheTrade(cfg, s, k, e);
    LoneActivation(cfg, s, k, k, e);
    LoneActivation(cfg, s, k, n, e);
    OrderInPass(cfg, Activating, start, n, k, e);
    OrderInPass(cfg, Matching, Activated(cfg, s, e), n, k, e);
  }

  lemma LoneOverfill(cfg: ExchangeConfig, s: Exchange, k: nat, e: MarketEvent)
    requires Inv(cfg, s) && WellFormed(s.orders) && k < |s.orders| && NoneOtherActive(s.orders, k)
    requires EventAccepted(cfg, s, e) && (s.orders[k].status == Open || s.orders[k].status == PartiallyFilled)
    ensures Overfills(s.orders[k], OnMarketEvent(cfg, s, e).0.orders[k], TradedVolume(e))
       <==> CanOverfill(cfg, s.books.ledger, s.orders[k], e, TradedVolume(e))
  {
    hide BooksInv, Activated, Matched, MatchOne, Activate, EventAccepted, MarkToMarket, CanOverfill, Pass;
    LoneOrderVisit(cfg, s, k, e);
    ProcessedOrder(cfg, s, k, e);
    OverfillIsExact(cfg, s.books, s.orders[k], e, TradedVolume(e));
  }

  // ----- an order served alone -----

  /** From the run's first event with order k on the books, no other order is live at any event. */
  ghost predicate ServedAlone(cfg: ExchangeConfig, s: Exchange, k: nat, actions: seq<Action>)
    requires WellFormed(s.orders)
    decreases |actions|
  {
    actions == [] ||
    (&& (actions[0].Event? && k < |s.orders| ==> NoneOtherActive(s.orders, k))
     && ServedAlone(cfg, Step(cfg, s, actions[0]), k, actions[1..]))
  }

  /** An order that rests has filled exactly the opposing volume past its queue, up to its quantity,
      and still waits for exactly the rest of the queue; a refused fill is the only exception. */
  ghost predicate ExactPlace(o: PaperOrder, place: Place) {
    place.Resting? ==>
      || o.status == Rejected
      || (&& o.filled == Min(o.request.quantity, Max(0, place.opposed - place.joined))
          && (o.status != Filled ==> o.queueAhead == Max(0, place.joined - place.opposed)))
  }

  ghost predicate ExactPlaceInv(s: Exchange, k: nat, place: Place) {
    k < |s.orders| ==> ExactPlace(s.orders[k], place)
  }

  /** One visit with the whole trade. */
  lemma MatchAlone(cfg: ExchangeConfig, b: Books, o: PaperOrder, e: MarketEvent, volume: int)
    requires GoodOrder(o) && o.queueAhead >= 0 && volume >= 0
    ensures var o' := MatchOne(cfg, b, o, e, volume).1;
            if Reaches(o, e) then
              || o'.status == Rejected
              || (o'.queueAhead == Max(0, o.queueAhead - volume)
                  && o'.filled == o.filled + Min(o.remaining, Max(0, volume - o.queueAhead)))
            else o' == o
  {
    hide FillOrder;
    if volume > 0 && Reaches(o, e) && volume > o.queueAhead {
      FillOrderResult(cfg, b, o.(queueAhead := 0), Min(o.remaining, volume - o.queueAhead),
                      o.request.limitPrice.value, true, e);
    }
  }

  /** The arithmetic of one trade against an order served alone. */
  lemma ExactStep(o: PaperOrder, o': PaperOrder, joined: int, opposed: int, volume: int)
    requires GoodOrder(o) && GoodOrder(o') && o'.request == o.request && volume >= 0 && joined >= 0
    requires !IsTerminal(o.status) && o.queueAhead >= 0 && ExactPlace(o, Resting(joined, opposed)) && o.status != Cancelled
    requires o'.status == Rejected
          || (o'.queueAhead == Max(0, o.queueAhead - volume)
              && o'.filled == o.filled + Min(o.remaining, Max(0, volume - o.queueAhead)))
    ensures ExactPlace(o', Resting(joined, opposed + volume))
  {
  }

  lemma DoneStaysExact(o: PaperOrder, joined: int, opposed: int, volume: int)
    requires GoodOrder(o) && (o.status == Filled || o.status == Rejected) && volume >= 0
    requires ExactPlace(o, Resting(joined, opposed))
    ensures ExactPlace(o, Resting(joined, opposed + volume))
  {
  }

  lemma EventKeepsExactPlace(cfg: ExchangeConfig, s: Exchange, k: nat, place: Place, e: MarketEvent)
    requires Inv(cfg, s) && WellFormed(s.orders) && QueueInv(s) && SizedEvent(e) && k < |s.orders|
    requires NoneOtherActive(s.orders, k)
    requires PlaceOf(s.orders[k], place) && ExactPlace(s.orders[k], place)
    ensures ExactPlace(Processed(cfg, s, e).orders[k], PlaceAfterEvent(cfg, s, place, k, e))
  {
    hide BooksInv, Processed, Activated, Matched, MatchOne, Activate, TradeOpposes, ExactPlace, GoodOrder, DisplayedAhead;
    var o, a, m := s.orders[k], Activated(cfg, s, e).orders[k], Matched(cfg, s, e).orders[k];
    LoneOrderVisit(cfg, s, k, e);
    EventPhases(cfg, s, e);
    assert Evolves(o, a) && Evolves(a, m);
    OrdersAreGood(cfg, Matched(cfg, s, e).books, Matched(cfg, s, e).orders, k);
    if CanActivate(o, e) {
      ActivateKeepsQueue(cfg, s.books, o, e);
    }
    MatchAlone(cfg, Activated(cfg, s, e).books, a, e, TradedVolume(e));
    MatchTreats(cfg, Activated(cfg, s, e).books, a, e, TradedVolume(e));
    ProcessedOrder(cfg, s, k, e);
    var after := PlaceAfterEvent(cfg, s, place, k, e);
    if after == NotResting {
      NotRestingIsExact(m);
    } else if IsTerminal(o.status) {
      DoneStaysExact(o, place.joined, place.opposed, OpposedBy(o, e));
    } else {
      if place == NotResting {
        FreshPlaceIsExact(a, DisplayedAhead(o.request, e));
        ExactStep(a, m, DisplayedAhead(o.request, e), 0, OpposedBy(o, e));
      } else {
        ExactStep(a, m, place.joined, place.opposed, OpposedBy(o, e));
      }
    }
  }

  lemma NotRestingIsExact(o: PaperOrder)
    ensures ExactPlace(o, NotResting)
  {
  }

  lemma FreshPlaceIsExact(o: PaperOrder, joined: int)
    requires GoodOrder(o) && o.status == Open && o.queueAhead == joined >= 0
    ensures ExactPlace(o, Resting(joined, 0))
  {
  }

  lemma EntryIsExact(cfg: ExchangeConfig, s: Exchange, request: OrderRequest, decisionTime: int)
    requires Inv(cfg, s) && QueueInv(s) && SubmitProblem(cfg, s, request, decisionTime) == NoProblem
    ensures var o := Entered(cfg, s, request, decisionTime).1;
            s.market.Some? && (o.status == Open ==> ExactPlace(o, Resting(DisplayedAhead(request, s.market.value), 0)))
  {
    hide BooksInv, SubmitProblem, Entered, DisplayedAhead, ExactPlace;
    EntryJoinsQueue(cfg, s, request, decisionTime);
    EnteredOrder(cfg, s, request, decisionTime);
    var o := Entered(cfg, s, request, decisionTime).1;
    if o.status == Open {
      FreshPlaceIsExact(o, DisplayedAhead(request, s.market.value));
    }
  }

  lemma StepKeepsExactPlace(cfg: ExchangeConfig, s: Exchange, k: nat, place: Place, action: Action)
    requires Inv(cfg, s) && WellFormed(s.orders) && QueueInv(s) && PlaceInv(s, k, place) && ExactPlaceInv(s, k, place)
    requires action.Event? ==> SizedEvent(action.event)
    requires action.Event? && k < |s.orders| ==> NoneOtherActive(s.orders, k)
    requires action.CancelOrder? ==> FindOrder(s, action.clientOrderId) != Some(k)
    ensures ExactPlaceInv(Step(cfg, s, action), k, PlaceAfter(cfg, s, place, k, action))
  {
    hide BooksInv, Processed, MarkToMarket, PlaceOf, PlaceAfterEvent, Entered, SubmitProblem, EventAccepted,
         DisplayedAhead, ExactPlace, QueueInv;
    match action
    case Event(e) =>
      if k < |s.orders| && EventAccepted(cfg, s, e) {
        EventKeepsExactPlace(cfg, s, k, place, e);
      }
    case SubmitOrder(request, decisionTime) =>
      if SubmitProblem(cfg, s, request, decisionTime) == NoProblem {
        EntryIsExact(cfg, s, request, decisionTime);
        if k == |s.orders| {
          NotRestingIsExact(Entered(cfg, s, request, decisionTime).1);
        }
      }
    case CancelOrder(id, requestTime) =>
  }

  lemma {:induction false} RunKeepsExactPlace(cfg: ExchangeConfig, s: Exchange, k: nat, place: Place, actions: seq<Action>)
    requires Inv(cfg, s) && WellFormed(s.orders) && QueueInv(s) && PlaceInv(s, k, place) && ExactPlaceInv(s, k, place)
    requires SizedActions(actions) && NeverCancelled(cfg, s, k, actions) && ServedAlone(cfg, s, k, actions)
    ensures ExactPlaceInv(Run(cfg, s, actions), k, PlaceAtEnd(cfg, s, place, k, actions))
    decreases |actions|
  {
    hide Inv, QueueInv, PlaceInv, PlaceAfter, Step, ExactPlaceInv;
    if actions != [] {
      var next := Step(cfg, s, actions[0]);
      StepKeepsInv(cfg, s, actions[0]);
      StepKeepsPlace(cfg, s, k, place, actions[0]);
      StepKeepsExactPlace(cfg, s, k, place, actions[0]);
      assert SizedActions(actions[1..]);
      RunKeepsExactPlace(cfg, next, k, PlaceAfter(cfg, s, place, k, actions[0]), actions[1..]);
    }
  }

  /** For an order served alone the queue guarantee is exact: unless a fill was refused, it has filled
      the whole opposing volume past the queue it joined, up to its quantity. */
  lemma AloneFillsExactly(cfg: ExchangeConfig, actions: seq<Action>, k: nat)
    requires SizedActions(actions) && k < |Reached(cfg, actions).orders|
    requires var id := Reached(cfg, actions).orders[k].request.clientOrderId;
             forall i :: 0 <= i < |actions| ==> actions[i].CancelOrder? ==> actions[i].clientOrderId != id
    requires ServedAlone(cfg, InitialExchange(cfg), k, actions)
    ensures var place := PlaceAtEnd(cfg, InitialExchange(cfg), NotResting, k, actions);
            var o := Reached(cfg, actions).orders[k];
            place.Resting? ==>
              o.status == Rejected || o.filled == Min(o.request.quantity, Max(0, place.opposed - place.joined))
  {
    hide Run, PlaceAtEnd, Inv, NeverCancelled, ServedAlone;
    InitialInv(cfg);
    UnnamedIsNeverCancelled(cfg, InitialExchange(cfg), k, actions);
    RunKeepsExactPlace(cfg, InitialExchange(cfg), k, NotResting, actions);
  }

  /** An order served alone that still rests is short of its bound, and it has a queue ahead exactly
      when less has traded against it than it joined behind. */
  lemma AloneIsShort(cfg: ExchangeConfig, actions: seq<Action>, k: nat)
    requires SizedActions(actions) && k < |Reached(cfg, actions).orders|
    requires var id := Reached(cfg, actions).orders[k].request.clientOrderId;
             forall i :: 0 <= i < |actions| ==> actions[i].CancelOrder? ==> actions[i].clientOrderId != id
    requires ServedAlone(cfg, InitialExchange(cfg), k, actions)
    requires var o := Reached(cfg, actions).orders[k]; o.status == Open || o.status == PartiallyFilled
    ensures var place := PlaceAtEnd(cfg, InitialExchange(cfg), NotResting, k, actions);
            var o := Reached(cfg, actions).orders[k];
            && place.Resting? && o.request.quantity > Max(0, place.opposed - place.joined)
            && (o.queueAhead > 0 <==> place.opposed < place.joined)
  {
    hide Run, PlaceAtEnd, Inv, NeverCancelled, ServedAlone;
    InitialInv(cfg);
    ReachedInv(cfg, actions);
    UnnamedIsNeverCancelled(cfg, InitialExchange(cfg), k, actions);
    RunKeepsPlace(cfg, InitialExchange(cfg), k, NotResting, actions);
    RunKeepsExactPlace(cfg, InitialExchange(cfg), k, NotResting, actions);
    ReachedOrder(cfg, Reached(cfg, actions), k);
  }
}
