/** Deadlines and cancel requests: what an accepted event settles, and which requests get lost. */
module Cancellation {
  import opened FixedPoint
  import opened Types
  import opened LedgerModel
  import opened ExchangeModel
  import opened ExchangeInvariants
  import opened ExchangeTheorems
  import opened Matching
  import opened QueuePosition

  /** After an event received at time t no order is still waiting for an activation or a
      cancellation that was due at t. */
  ghost predicate NothingOverdue(orders: seq<PaperOrder>, t: int) {
    forall k :: 0 <= k < |orders| ==> !Overdue(orders[k], t)
  }

  ghost predicate Overdue(o: PaperOrder, t: int) {
    || (o.status == Pending && o.activeTime <= t)
    || (o.status == CancelPending && o.cancelDue.Some? && o.cancelDue.value <= t)
  }

  /** How one accepted event treats one order: activation, then matching, then a due cancellation. */
  lemma OrderThroughEvent(cfg: ExchangeConfig, s: Exchange, k: nat, e: MarketEvent)
    requires Inv(cfg, s) && WellFormed(s.orders) && k < |s.orders| && EventAccepted(cfg, s, e)
    ensures var o, a, m := s.orders[k], Activated(cfg, s, e).orders[k], Matched(cfg, s, e).orders[k];
            && OnMarketEvent(cfg, s, e).0.orders[k] == CancelIfDue(m, e)
            && Evolves(o, a) && Evolves(a, m) && GoodOrder(o) && GoodOrder(a) && GoodOrder(m)
            && (CanActivate(o, e) ==> a.status != Pending) && (!CanActivate(o, e) ==> a == o)
            && Treated(o, a) && Treated(a, m) && (a.filled != o.filled ==> a.status == Filled)
            && o.cancelDue == a.cancelDue == m.cancelDue
  {
    hide BooksInv, Processed, Matched, Activated, Activate, MarkToMarket, Evolves, GoodOrder, Pass, Treated;
    EventPhases(cfg, s, e);
    ActivatedOrder(cfg, s, k, e);
    OrdersAreGood(cfg, s.books, s.orders, k);
    var b := Pass(cfg, Activating, Opening(s, e), k, e).books;
    if CanActivate(s.orders[k], e) {
      ActivateMoves(cfg, b, s.orders[k], e);
      ActivateTreats(cfg, b, s.orders[k], e);
    } else {
      LeftAloneIsTreated(s.orders[k]);
    }
    MatchedVisit(cfg, s, k, e);
    ProcessedOrder(cfg, s, k, e);
    OrdersAreGood(cfg, Activated(cfg, s, e).books, Activated(cfg, s, e).orders, k);
    OrdersAreGood(cfg, Matched(cfg, s, e).books, Matched(cfg, s, e).orders, k);
  }

  lemma MatchedVisit(cfg: ExchangeConfig, s: Exchange, k: nat, e: MarketEvent)
    requires WellFormed(s.orders) && BooksInv(cfg, s.books, s.orders) && k < |s.orders|
    ensures var a, m := Activated(cfg, s, e).orders[k], Matched(cfg, s, e).orders[k];
            Treated(a, m) && a.cancelDue == m.cancelDue
  {
    hide BooksInv, Activated, MatchOne, Pass, Treated, GoodOrder;
    EventPhases(cfg, s, e);
    var floor := Activated(cfg, s, e);
    OrderInPass(cfg, Matching, floor, |s.orders|, k, e);
    var before := Pass(cfg, Matching, floor, k, e);
    OrdersAreGood(cfg, floor.books, floor.orders, k);
    MatchTreats(cfg, before.books, floor.orders[k], e, before.volume);
    MatchMoves(cfg, before.books, floor.orders[k], e, before.volume);
  }

  /** Every accepted event settles all deadlines up to its receive time, in every run. */
  lemma EventSettlesDeadlines(cfg: ExchangeConfig, actions: seq<Action>, e: MarketEvent)
    requires EventAccepted(cfg, Reached(cfg, actions), e)
    ensures NothingOverdue(Reached(cfg, actions + [Event(e)]).orders, e.receiveTime)
  {
    hide Run, Inv, OnMarketEvent, Activated, Matched, EventAccepted;
    ReachedInv(cfg, actions);
    var s := Reached(cfg, actions);
    RunAppend(cfg, InitialExchange(cfg), actions, Event(e));
    forall k | 0 <= k < |s.orders|
      ensures !Overdue(OnMarketEvent(cfg, s, e).0.orders[k], e.receiveTime)
    {
      OrderThroughEvent(cfg, s, k, e);
    }
  }

  // ----- which due cancels land -----

  /** An event gets to the order before its cancellation does: the order is active and either takes the
      book (or is rejected trying), or the event's trade is against it and, of the given volume, leaves
      some past the queue the order joins on the way.  Only the order, the event and the volume left
      over by earlier orders matter. */
  predicate OvertakesCancel(o: PaperOrder, e: MarketEvent, volume: int) {
    && e.receiveTime >= o.activeTime
    && (o.request.orderType == Market
        || (o.request.limitPrice.Some?
            && (Crosses(o.request.side, o.request.limitPrice.value, e)
                || (TradeOpposes(o.request, e)
                    && volume > Max(0, JoinedQueue(o, o.request.limitPrice.value, e))))))
  }

  /** What the orders before k leave of an event's trade. */
  function VolumeLeftFor(cfg: ExchangeConfig, s: Exchange, k: nat, e: MarketEvent): int
    requires WellFormed(s.orders) && k <= |s.orders|
  {
    Pass(cfg, Matching, Activated(cfg, s, e), k, e).volume
  }

  lemma CancelPendingActivates(cfg: ExchangeConfig, b: Books, o: PaperOrder, e: MarketEvent)
    requires GoodOrder(o) && o.status == CancelPending && e.receiveTime >= o.activeTime
    ensures var o' := Activate(cfg, b, o, e).1;
            if o.request.orderType == Market || Crosses(o.request.side, o.request.limitPrice.value, e)
            then o'.status == Filled || o'.status == Rejected
            else o' == o.(queueAhead := JoinedQueue(o, o.request.limitPrice.value, e))
  {
    hide FillOrder, SlippedPrice;
    var price := if o.request.orderType == Market
                 then SlippedPrice(Touch(o.request.side, e), o.request.side, cfg.slippagePpm)
                 else Some(Touch(o.request.side, e));
    if price.Some? {
      FilledInFull(cfg, b, o, price.value, e);
    }
  }

  lemma CancelPendingMatches(cfg: ExchangeConfig, b: Books, o: PaperOrder, e: MarketEvent, volume: int)
    requires GoodOrder(o) && o.status == CancelPending
    ensures var o' := MatchOne(cfg, b, o, e, volume).1;
            if e.receiveTime >= o.activeTime && TradeOpposes(o.request, e) && volume > Max(0, o.queueAhead)
            then o'.status == Filled || o'.status == PartiallyFilled || o'.status == Rejected
            else o'.status == CancelPending
  {
    hide FillOrder;
    if volume > 0 && Reaches(o, e) {
      var ahead := Min(o.queueAhead, volume);
      if volume - ahead > 0 {
        FillOrderResult(cfg, b, o.(queueAhead := o.queueAhead - ahead), Min(o.remaining, volume - ahead),
                        o.request.limitPrice.value, true, e);
      }
    }
  }

  /** What matching leaves of an order whose cancellation was requested. */
  lemma RequestedThroughEvent(cfg: ExchangeConfig, s: Exchange, k: nat, e: MarketEvent)
    requires Inv(cfg, s) && WellFormed(s.orders) && k < |s.orders| && EventAccepted(cfg, s, e)
    requires s.orders[k].status == CancelPending
    ensures var o, m := s.orders[k], Matched(cfg, s, e).orders[k];
            && OnMarketEvent(cfg, s, e).0.orders[k] == CancelIfDue(m, e)
            && o.cancelDue.Some? && m.cancelDue == o.cancelDue
            && (if OvertakesCancel(o, e, VolumeLeftFor(cfg, s, k, e))
                then (m.status == Rejected && m.filled == o.filled)
                     || (m.filled > o.filled && (m.status == PartiallyFilled || m.status == Filled))
                else m.status == CancelPending && m.filled == o.filled)
  {
    hide OnMarketEvent, Activated, EventAccepted, BooksInv, Activate, MatchOne, Pass, TradeOpposes, Crosses, JoinedQueue;
    OrderThroughEvent(cfg, s, k, e);
    var o, floor := s.orders[k], Activated(cfg, s, e);
    var b := Pass(cfg, Activating, Opening(s, e), k, e).books;
    ActivatedOrder(cfg, s, k, e);
    if e.receiveTime >= o.activeTime {
      CancelPendingActivates(cfg, b, o, e);
    }
    OrderInPass(cfg, Matching, floor, |s.orders|, k, e);
    var before := Pass(cfg, Matching, floor, k, e);
    if floor.orders[k].status == CancelPending {
      CancelPendingMatches(cfg, before.books, floor.orders[k], e, before.volume);
    }
  }

  /** In every reachable state, a due cancel request is honoured by the next accepted event if and only
      if the event does not overtake it.  An order that is not cancelled was filled, at least in part,
      or rejected. */
  lemma DueCancelIsHonouredUnlessFilled(cfg: ExchangeConfig, actions: seq<Action>, k: nat, e: MarketEvent)
    requires k < |Reached(cfg, actions).orders| && EventAccepted(cfg, Reached(cfg, actions), e)
    requires var o := Reached(cfg, actions).orders[k];
             o.status == CancelPending && o.cancelDue.Some? && o.cancelDue.value <= e.receiveTime
    ensures var s, s' := Reached(cfg, actions), Reached(cfg, actions + [Event(e)]);
            var o := s.orders[k];
            && WellFormed(s.orders) && k < |s'.orders|
            && (s'.orders[k].status == Cancelled <==> !OvertakesCancel(o, e, VolumeLeftFor(cfg, s, k, e)))
            && (s'.orders[k].status == Cancelled <==>
                  s'.orders[k].filled == o.filled && s'.orders[k].status != Rejected)
            && (s'.orders[k].filled != o.filled ==>
                  s'.orders[k].status == PartiallyFilled || s'.orders[k].status == Filled)
  {
    hide Run, Inv, OnMarketEvent, EventAccepted, OvertakesCancel, VolumeLeftFor;
    ReachedInv(cfg, actions);
    RunAppend(cfg, InitialExchange(cfg), actions, Event(e));
    var s := Reached(cfg, actions);
    RequestedThroughEvent(cfg, s, k, e);
  }

  /** With no live order before it the whole traded volume is left. */
  lemma FirstInLineGetsTheTrade(cfg: ExchangeConfig, s: Exchange, k: nat, e: MarketEvent)
    requires Inv(cfg, s) && WellFormed(s.orders) && k <= |s.orders|
    requires forall i :: 0 <= i < k ==> IsTerminal(s.orders[i].status)
    ensures VolumeLeftFor(cfg, s, k, e) == TradedVolume(e)
    ensures Pass(cfg, Matching, Activated(cfg, s, e), k, e) == Activated(cfg, s, e)
  {
    hide Pass, BooksInv;
    EventPhases(cfg, s, e);
    ActivatingKeepsVolume(cfg, Opening(s, e), |s.orders|, e);
    var floor := Activated(cfg, s, e);
    forall i | 0 <= i < k
      ensures IsTerminal(floor.orders[i].status)
    {
      assert Evolves(s.orders[i], floor.orders[i]);
    }
    IdlePass(cfg, Matching, floor, k, e);
  }

  /** For an order with no live order before it the condition reads the order and the event alone. */
  lemma FirstDueCancelIsHonoured(cfg: ExchangeConfig, actions: seq<Action>, k: nat, e: MarketEvent)
    requires k < |Reached(cfg, actions).orders| && EventAccepted(cfg, Reached(cfg, actions), e)
    requires var o := Reached(cfg, actions).orders[k];
             o.status == CancelPending && o.cancelDue.Some? && o.cancelDue.value <= e.receiveTime
    requires forall i :: 0 <= i < k ==> IsTerminal(Reached(cfg, actions).orders[i].status)
    ensures var s' := Reached(cfg, actions + [Event(e)]);
            && k < |s'.orders|
            && (s'.orders[k].status == Cancelled
                <==> !OvertakesCancel(Reached(cfg, actions).orders[k], e, TradedVolume(e)))
  {
    hide Run, Inv, EventAccepted, OvertakesCancel, VolumeLeftFor;
    ReachedInv(cfg, actions);
    DueCancelIsHonouredUnlessFilled(cfg, actions, k, e);
    FirstInLineGetsTheTrade(cfg, Reached(cfg, actions), k, e);
  }

  /** Some accepted event of the run has the order's cancellation due, and no accepted event up to and
      including the first such one overtakes it. */
  ghost predicate ComesDueInTime(cfg: ExchangeConfig, s: Exchange, k: nat, actions: seq<Action>)
    requires WellFormed(s.orders)
    decreases |actions|
  {
    actions != [] && k < |s.orders| && s.orders[k].cancelDue.Some? &&
    var next := Step(cfg, s, actions[0]);
    if actions[0].Event? && EventAccepted(cfg, s, actions[0].event) then
      && !OvertakesCancel(s.orders[k], actions[0].event, VolumeLeftFor(cfg, s, k, actions[0].event))
      && (actions[0].event.receiveTime >= s.orders[k].cancelDue.value || ComesDueInTime(cfg, next, k, actions[1..]))
    else ComesDueInTime(cfg, next, k, actions[1..])
  }

  lemma {:induction false} RunSettlesRequest(cfg: ExchangeConfig, s: Exchange, k: nat, actions: seq<Action>)
    requires Inv(cfg, s) && WellFormed(s.orders) && k < |s.orders| && s.orders[k].status == CancelPending
    requires NeverCancelled(cfg, s, k, actions)
    ensures var s' := Run(cfg, s, actions);
            k < |s'.orders| && (s'.orders[k].status == Cancelled <==> ComesDueInTime(cfg, s, k, actions))
    decreases |actions|
  {
    hide BooksInv, OnMarketEvent, SubmitProblem, Entered, EventAccepted, OvertakesCancel, VolumeLeftFor, Matched;
    if actions != [] {
      var next := Step(cfg, s, actions[0]);
      StepKeepsInv(cfg, s, actions[0]);
      if actions[0].Event? && EventAccepted(cfg, s, actions[0].event) {
        RequestedThroughEvent(cfg, s, k, actions[0].event);
        if next.orders[k].status == CancelPending {
          RunSettlesRequest(cfg, next, k, actions[1..]);
        } else if next.orders[k].status == Cancelled {
          RunKeepsInv(cfg, next, actions[1..]);
          assert Evolves(next.orders[k], Run(cfg, next, actions[1..]).orders[k]);
        } else {
          RunKeepsUncancelled(cfg, next, k, actions[1..]);
        }
      } else {
        WithoutEventNothingSettles(cfg, s, k, actions[0]);
        RunSettlesRequest(cfg, next, k, actions[1..]);
      }
    }
  }

  lemma WithoutEventNothingSettles(cfg: ExchangeConfig, s: Exchange, k: nat, action: Action)
    requires WellFormed(s.orders) && k < |s.orders|
    requires action.Event? ==> !EventAccepted(cfg, s, action.event)
    requires action.CancelOrder? ==> FindOrder(s, action.clientOrderId) != Some(k)
    ensures k < |Step(cfg, s, action).orders| && Step(cfg, s, action).orders[k] == s.orders[k]
  {
    hide EventAccepted, SubmitProblem, Entered;
  }

  /** From any reachable state and over any run that does not ask again, a request to cancel an order is
      honoured if and only if the run brings an accepted event at which it is due, and no accepted event
      up to that one overtakes it. */
  lemma RequestIsHonouredInTime(cfg: ExchangeConfig, actions: seq<Action>, k: nat, more: seq<Action>)
    requires k < |Reached(cfg, actions).orders| && Reached(cfg, actions).orders[k].status == CancelPending
    requires NeverCancelled(cfg, Reached(cfg, actions), k, more)
    ensures var s, s' := Reached(cfg, actions), Run(cfg, Reached(cfg, actions), more);
            && WellFormed(s.orders) && k < |s'.orders|
            && (s'.orders[k].status == Cancelled <==> ComesDueInTime(cfg, s, k, more))
  {
    hide Run, Inv, NeverCancelled, ComesDueInTime;
    ReachedInv(cfg, actions);
    RunSettlesRequest(cfg, Reached(cfg, actions), k, more);
  }

  /** Statuses from which no cancellation lands unless it is requested again. */
  ghost predicate Uncancelled(o: PaperOrder) {
    o.status == PartiallyFilled || o.status == Filled || o.status == Rejected
  }

  lemma EventKeepsUncancelled(cfg: ExchangeConfig, s: Exchange, k: nat, e: MarketEvent)
    requires Inv(cfg, s) && WellFormed(s.orders) && k < |s.orders| && Uncancelled(s.orders[k])
    ensures Uncancelled(OnMarketEvent(cfg, s, e).0.orders[k])
  {
    hide Activated, Matched, Processed, EventAccepted, BooksInv, MarkToMarket;
    if EventAccepted(cfg, s, e) {
      OrderThroughEvent(cfg, s, k, e);
    }
  }

  /** A cancel request overtaken by a partial fill is forgotten: from any reachable state with the
      order partially filled, without a new request, no run ever cancels it. */
  lemma OvertakenCancelIsForgotten(cfg: ExchangeConfig, actions: seq<Action>, k: nat, more: seq<Action>)
    requires k < |Reached(cfg, actions).orders| && Reached(cfg, actions).orders[k].status == PartiallyFilled
    requires NeverCancelled(cfg, Reached(cfg, actions), k, more)
    ensures var s' := Run(cfg, Reached(cfg, actions), more);
            k < |s'.orders| && s'.orders[k].status != Cancelled && s'.orders[k].status != CancelPending
  {
    hide Run, Inv, NeverCancelled;
    ReachedInv(cfg, actions);
    RunKeepsUncancelled(cfg, Reached(cfg, actions), k, more);
  }

  lemma {:induction false} RunKeepsUncancelled(cfg: ExchangeConfig, s: Exchange, k: nat, actions: seq<Action>)
    requires Inv(cfg, s) && WellFormed(s.orders) && k < |s.orders| && Uncancelled(s.orders[k])
    requires NeverCancelled(cfg, s, k, actions)
    ensures var s' := Run(cfg, s, actions);
            k < |s'.orders| && Uncancelled(s'.orders[k])
    decreases |actions|
  {
    hide Inv, Step, Uncancelled;
    if actions != [] {
      StepKeepsInv(cfg, s, actions[0]);
      StepKeepsUncancelled(cfg, s, k, actions[0]);
      RunKeepsUncancelled(cfg, Step(cfg, s, actions[0]), k, actions[1..]);
    }
  }

  lemma StepKeepsUncancelled(cfg: ExchangeConfig, s: Exchange, k: nat, action: Action)
    requires Inv(cfg, s) && WellFormed(s.orders) && k < |s.orders| && Uncancelled(s.orders[k])
    requires action.CancelOrder? ==> FindOrder(s, action.clientOrderId) != Some(k)
    ensures k < |Step(cfg, s, action).orders| && Uncancelled(Step(cfg, s, action).orders[k])
  {
    hide Inv, OnMarketEvent, SubmitProblem, Entered, Uncancelled;
    if action.Event? {
      EventKeepsUncancelled(cfg, s, k, action.event);
    }
  }
}
