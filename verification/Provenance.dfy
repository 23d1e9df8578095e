/** Where orders, activations and cancellations come from: nothing happens that no action asked for,
    and nothing happens early. */
module Provenance {
  import opened Types
  import opened LedgerModel
  import opened ExchangeModel
  import opened ExchangeInvariants
  import opened ExchangeTheorems
  import opened QueuePosition
  import opened Cancellation

  /** The exchange just before an action of a run. */
  function Before(cfg: ExchangeConfig, actions: seq<Action>, i: nat): Exchange
    requires i <= |actions|
  {
    Reached(cfg, actions[..i])
  }

  /** The action is an accepted submission of what the order asks, rounded to the quantity step, and
      the order becomes active one acknowledgement latency after that decision. */
  ghost predicate SubmittedAt(cfg: ExchangeConfig, actions: seq<Action>, i: nat, o: PaperOrder)
    requires i < |actions|
  {
    && actions[i].SubmitOrder? && cfg.quantityStep > 0
    && SubmitProblem(cfg, Before(cfg, actions, i), actions[i].request, actions[i].decisionTime) == NoProblem
    && o.request == actions[i].request.(quantity := NormalizedQuantity(cfg, actions[i].request.quantity))
    && o.activeTime == actions[i].decisionTime + cfg.acknowledgementLatency
  }

  /** The action is an effective request to cancel the order, one cancellation latency before `due`. */
  ghost predicate RequestedAt(cfg: ExchangeConfig, actions: seq<Action>, i: nat, o: PaperOrder, due: int)
    requires i < |actions|
  {
    && actions[i] == CancelOrder(o.request.clientOrderId, due - cfg.cancellationLatency)
    && Cancellable(Before(cfg, actions, i), o.request.clientOrderId)
  }

  /** The action is an accepted event received at or after `due`. */
  ghost predicate HeardAt(cfg: ExchangeConfig, actions: seq<Action>, i: nat, due: int)
    requires i < |actions|
  {
    && actions[i].Event? && actions[i].event.receiveTime >= due
    && EventAccepted(cfg, Before(cfg, actions, i), actions[i].event)
  }

  ghost predicate Asked(cfg: ExchangeConfig, actions: seq<Action>, o: PaperOrder) {
    exists i :: 0 <= i < |actions| && SubmittedAt(cfg, actions, i, o)
  }

  ghost predicate CancelAsked(cfg: ExchangeConfig, actions: seq<Action>, o: PaperOrder, due: int) {
    exists i :: 0 <= i < |actions| && RequestedAt(cfg, actions, i, o, due)
  }

  /** A request to cancel was followed by an event that had it due. */
  ghost predicate CancelRanOut(cfg: ExchangeConfig, actions: seq<Action>, o: PaperOrder, due: int) {
    exists i, j :: 0 <= i < j < |actions| && RequestedAt(cfg, actions, i, o, due) && HeardAt(cfg, actions, j, due)
  }

  ghost predicate Founded(cfg: ExchangeConfig, actions: seq<Action>, o: PaperOrder) {
    && Asked(cfg, actions, o)
    && (o.cancelDue.Some? ==> CancelAsked(cfg, actions, o, o.cancelDue.value))
    && (o.status == Cancelled ==> o.cancelDue.Some? && CancelRanOut(cfg, actions, o, o.cancelDue.value))
  }

  /** What was done at a step of a run was also done at that step of a longer run. */
  lemma DoneBefore(cfg: ExchangeConfig, actions: seq<Action>, last: Action, i: nat, o: PaperOrder, o': PaperOrder, due: int)
    requires i < |actions| && o'.request == o.request && o'.activeTime == o.activeTime
    ensures SubmittedAt(cfg, actions, i, o) ==> SubmittedAt(cfg, actions + [last], i, o')
    ensures RequestedAt(cfg, actions, i, o, due) ==> RequestedAt(cfg, actions + [last], i, o', due)
    ensures HeardAt(cfg, actions, i, due) ==> HeardAt(cfg, actions + [last], i, due)
  {
    hide SubmitProblem, Cancellable, EventAccepted, Reached, NormalizedQuantity;
    assert (actions + [last])[..i] == actions[..i];
  }

  lemma StillAsked(cfg: ExchangeConfig, actions: seq<Action>, last: Action, o: PaperOrder, o': PaperOrder)
    requires Asked(cfg, actions, o) && o'.request == o.request && o'.activeTime == o.activeTime
    ensures Asked(cfg, actions + [last], o')
  {
    hide SubmittedAt;
    var i :| 0 <= i < |actions| && SubmittedAt(cfg, actions, i, o);
    DoneBefore(cfg, actions, last, i, o, o', 0);
  }

  lemma StillCancelAsked(cfg: ExchangeConfig, actions: seq<Action>, last: Action, o: PaperOrder, o': PaperOrder, due: int)
    requires o'.request == o.request && o'.activeTime == o.activeTime && CancelAsked(cfg, actions, o, due)
    ensures CancelAsked(cfg, actions + [last], o', due)
    ensures CancelRanOut(cfg, actions, o, due) || HeardAt(cfg, actions + [last], |actions|, due) ==>
              CancelRanOut(cfg, actions + [last], o', due)
  {
    hide RequestedAt, HeardAt;
    var i :| 0 <= i < |actions| && RequestedAt(cfg, actions, i, o, due);
    DoneBefore(cfg, actions, last, i, o, o', due);
    if CancelRanOut(cfg, actions, o, due) {
      var i, j :| 0 <= i < j < |actions| && RequestedAt(cfg, actions, i, o, due) && HeardAt(cfg, actions, j, due);
      DoneBefore(cfg, actions, last, i, o, o', due);
      DoneBefore(cfg, actions, last, j, o, o', due);
    }
  }

  lemma StillFounded(cfg: ExchangeConfig, actions: seq<Action>, last: Action, o: PaperOrder, o': PaperOrder)
    requires Founded(cfg, actions, o) && Evolves(o, o') && o'.cancelDue == o.cancelDue
    requires o'.status == Cancelled ==>
               o.status == Cancelled ||
               (o.cancelDue.Some? && HeardAt(cfg, actions + [last], |actions|, o.cancelDue.value))
    ensures Founded(cfg, actions + [last], o')
  {
    hide Asked, CancelAsked, CancelRanOut, HeardAt;
    StillAsked(cfg, actions, last, o, o');
    if o.cancelDue.Some? {
      StillCancelAsked(cfg, actions, last, o, o', o.cancelDue.value);
    }
  }

  lemma EventKeepsFounded(cfg: ExchangeConfig, actions: seq<Action>, e: MarketEvent, k: nat)
    requires var s := Reached(cfg, actions);
             Inv(cfg, s) && WellFormed(s.orders) && k < |s.orders| && Founded(cfg, actions, s.orders[k])
    ensures WellFormed(Reached(cfg, actions).orders)
    ensures Founded(cfg, actions + [Event(e)], OnMarketEvent(cfg, Reached(cfg, actions), e).0.orders[k])
  {
    hide Inv, Activated, Matched, Processed, EventAccepted, MarkToMarket, Founded, CanActivate, Run;
    var s := Reached(cfg, actions);
    EventKeepsInv(cfg, s, e);
    var o, o' := s.orders[k], OnMarketEvent(cfg, s, e).0.orders[k];
    assert Evolves(o, o');
    assert (actions + [Event(e)])[..|actions|] == actions;
    if EventAccepted(cfg, s, e) {
      OrderThroughEvent(cfg, s, k, e);
    }
    StillFounded(cfg, actions, Event(e), o, o');
  }

  lemma EntryIsFounded(cfg: ExchangeConfig, actions: seq<Action>, request: OrderRequest, decisionTime: int)
    requires Inv(cfg, Reached(cfg, actions))
    requires SubmitProblem(cfg, Reached(cfg, actions), request, decisionTime) == NoProblem
    ensures Founded(cfg, actions + [SubmitOrder(request, decisionTime)],
                    Entered(cfg, Reached(cfg, actions), request, decisionTime).1)
  {
    hide BooksInv, SubmitProblem, NormalizedQuantity, Activate, Run;
    var s := Reached(cfg, actions);
    NewOrderIsGood(cfg, s, request, decisionTime);
    EnteredOrder(cfg, s, request, decisionTime);
    var longer := actions + [SubmitOrder(request, decisionTime)];
    var o, o' := NewOrder(cfg, s, request, decisionTime), Entered(cfg, s, request, decisionTime).1;
    assert Evolves(o, o') && o'.cancelDue == None;
    assert longer[..|actions|] == actions;
    assert SubmittedAt(cfg, longer, |actions|, o');
    assert o'.status != Cancelled by {
      if cfg.acknowledgementLatency == 0 {
        ActivateTreats(cfg, s.books, o, s.market.value);
      }
    }
  }

  lemma CancelKeepsFounded(cfg: ExchangeConfig, actions: seq<Action>, id: string, requestTime: int, k: nat)
    requires var s := Reached(cfg, actions);
             Inv(cfg, s) && WellFormed(s.orders) && k < |s.orders| && Founded(cfg, actions, s.orders[k])
    ensures WellFormed(Reached(cfg, actions).orders)
    ensures Founded(cfg, actions + [CancelOrder(id, requestTime)],
                    Cancel(cfg, Reached(cfg, actions), id, requestTime).0.orders[k])
  {
    hide BooksInv, Run, Asked, CancelAsked, CancelRanOut;
    var s, action := Reached(cfg, actions), CancelOrder(id, requestTime);
    StillFounded(cfg, actions, action, s.orders[k], s.orders[k]);
    if Cancellable(s, id) && FindOrder(s, id).value == k {
      var o' := Cancel(cfg, s, id, requestTime).0.orders[k];
      assert o'.request.clientOrderId == id;
      StillAsked(cfg, actions, action, s.orders[k], o');
      RequestIsAsked(cfg, actions, o', requestTime);
    }
  }

  lemma RequestIsAsked(cfg: ExchangeConfig, actions: seq<Action>, o: PaperOrder, requestTime: int)
    requires Cancellable(Reached(cfg, actions), o.request.clientOrderId)
    ensures CancelAsked(cfg, actions + [CancelOrder(o.request.clientOrderId, requestTime)], o,
                        requestTime + cfg.cancellationLatency)
  {
    hide Cancellable, Run;
    var longer := actions + [CancelOrder(o.request.clientOrderId, requestTime)];
    assert longer[..|actions|] == actions;
    assert RequestedAt(cfg, longer, |actions|, o, requestTime + cfg.cancellationLatency);
  }

  /** In every run each order is the rounded form of a submission accepted in it and is active exactly
      one acknowledgement latency after that decision; and an order is cancelled only if the run made an
      effective request for it and after that accepted an event received no earlier than one
      cancellation latency after the request. */
  lemma {:induction false} NothingHappensUnasked(cfg: ExchangeConfig, actions: seq<Action>, k: nat)
    requires k < |Reached(cfg, actions).orders|
    ensures Founded(cfg, actions, Reached(cfg, actions).orders[k])
    decreases |actions|
  {
    hide Step, Founded, Inv, SubmitProblem, Entered;
    if actions != [] {
      var before, last := actions[..|actions| - 1], actions[|actions| - 1];
      assert actions == before + [last];
      RunAppend(cfg, InitialExchange(cfg), before, last);
      ReachedInv(cfg, before);
      if k < |Reached(cfg, before).orders| {
        NothingHappensUnasked(cfg, before, k);
      }
      StepIsFounded(cfg, before, last, k);
    }
  }

  lemma StepIsFounded(cfg: ExchangeConfig, actions: seq<Action>, last: Action, k: nat)
    requires var s := Reached(cfg, actions);
             Inv(cfg, s) && WellFormed(s.orders) && k < |Step(cfg, s, last).orders|
    requires k < |Reached(cfg, actions).orders| ==> Founded(cfg, actions, Reached(cfg, actions).orders[k])
    ensures WellFormed(Reached(cfg, actions).orders)
    ensures Founded(cfg, actions + [last], Step(cfg, Reached(cfg, actions), last).orders[k])
  {
    hide Founded, Inv, OnMarketEvent, SubmitProblem, Entered, Run;
    var s := Reached(cfg, actions);
    match last
    case Event(e) => EventKeepsFounded(cfg, actions, e, k);
    case CancelOrder(id, requestTime) => CancelKeepsFounded(cfg, actions, id, requestTime, k);
    case SubmitOrder(request, decisionTime) =>
      if k < |s.orders| {
        StillFounded(cfg, actions, last, s.orders[k], s.orders[k]);
      }
      if SubmitProblem(cfg, s, request, decisionTime) == NoProblem {
        EntryIsFounded(cfg, actions, request, decisionTime);
      }
  }
}
