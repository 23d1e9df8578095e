/** Which submissions are safe: the worst event that can follow, and the exact condition it gives. */
module PositionSafety {
  import opened FixedPoint
  import opened Types
  import opened LedgerModel
  import opened LedgerTheorems
  import opened Risk
  import opened ExchangeModel
  import opened ExchangeInvariants
  import opened ExchangeTheorems
  import opened Idempotence
  import opened Matching
  import opened PositionLimits

  /** Whatever events and cancels follow, the position never leaves its limit. */
  ghost predicate StaysSafe(cfg: ExchangeConfig, s: Exchange)
    requires WellFormed(s.orders)
  {
    forall more :: NoSubmissions(cfg, s, more) ==>
      Magnitude(Run(cfg, s, more).books.ledger.position) <= cfg.risk.maxPosition
  }

  lemma {:induction false} QuietRunStaysWithin(cfg: ExchangeConfig, s: Exchange, more: seq<Action>)
    requires Inv(cfg, s) && WellFormed(s.orders) && NoSubmissions(cfg, s, more) && WithinLimit(cfg, ReachIn(s))
    ensures Magnitude(Run(cfg, s, more).books.ledger.position) <= cfg.risk.maxPosition
    decreases |more|
  {
    hide Inv, Step, Effective, ReachIn;
    NarrowReflexive(cfg, s);
    if more != [] {
      StepKeepsInv(cfg, s, more[0]);
      QuietStepNarrows(cfg, s, more[0]);
      QuietRunStaysWithin(cfg, Step(cfg, s, more[0]), more[1..]);
    }
  }

  lemma WithinIsSafe(cfg: ExchangeConfig, s: Exchange)
    requires Inv(cfg, s) && WellFormed(s.orders) && WithinLimit(cfg, ReachIn(s))
    ensures StaysSafe(cfg, s)
  {
    hide Inv, ReachIn, WithinLimit, Run, NoSubmissions;
    forall more | NoSubmissions(cfg, s, more)
      ensures Magnitude(Run(cfg, s, more).books.ledger.position) <= cfg.risk.maxPosition
    {
      QuietRunStaysWithin(cfg, s, more);
    }
  }

  /** A covered submission is safe, with or without acknowledgement latency. */
  lemma CoveredIsSafe(cfg: ExchangeConfig, s: Exchange, request: OrderRequest, decisionTime: int)
    requires Inv(cfg, s) && WellFormed(s.orders) && SubmitProblem(cfg, s, request, decisionTime) == NoProblem
    requires WithinLimit(cfg, ReachIn(s)) && Covered(cfg, s, request)
    ensures StaysSafe(cfg, Submit(cfg, s, request, decisionTime).0)
  {
    hide Inv, SubmitProblem, Submit, Covered, ReachIn, WithinLimit, Run, StaysSafe;
    CoveredStaysWithin(cfg, s, request, decisionTime);
    SubmitKeepsInv(cfg, s, request, decisionTime);
    WithinIsSafe(cfg, Submit(cfg, s, request, decisionTime).0);
  }

  // ----- the sweep: one event that fills every live order of a side -----

  predicate Unactivated(o: PaperOrder) {
    o.status == Pending || o.status == CancelPending
  }

  /** Activation on the event sends the order to the book: a market order, or one whose limit crosses. */
  predicate Takes(o: PaperOrder, e: MarketEvent) {
    Unactivated(o) &&
    (o.request.orderType == Market || (o.request.limitPrice.Some? && Crosses(o.request.side, o.request.limitPrice.value, e)))
  }

  /** An active order of the side that the event fills: it takes the book, or it rests, perhaps only
      since this event, and the event's trade is at or through its limit. */
  predicate SweptBy(o: PaperOrder, side: Side, e: MarketEvent) {
    && o.request.side == side && e.receiveTime >= o.activeTime
    && (if Takes(o, e) then o.request.orderType != PostOnly else TradeOpposes(o.request, e))
  }

  /** An order of the other side that the event does not fill. */
  predicate StaysOut(o: PaperOrder, side: Side, e: MarketEvent) {
    && o.request.side != side
    && (e.receiveTime >= o.activeTime ==>
          (Takes(o, e) ==> o.request.orderType == PostOnly) && !TradeOpposes(o.request, e))
  }

  predicate IsSwept(orders: seq<PaperOrder>, side: Side, e: MarketEvent) {
    forall k :: 0 <= k < |orders| ==>
      IsTerminal(orders[k].status) || SweptBy(orders[k], side, e) || StaysOut(orders[k], side, e)
  }

  /** The queue an order is behind when the event's trade reaches it. */
  function QueueMet(o: PaperOrder, e: MarketEvent): int {
    if Unactivated(o) && o.request.limitPrice.Some? then JoinedQueue(o, o.request.limitPrice.value, e) else o.queueAhead
  }

  /** A live order of the side that is filled in the given phase: the book is taken on activation, and
      all others are made at their limit. */
  predicate FilledIn(o: PaperOrder, phase: Phase, side: Side, e: MarketEvent) {
    !IsTerminal(o.status) && o.request.side == side && (Takes(o, e) <==> phase == Activating)
  }

  /** The traded volume that reaches and fills every order that is made. */
  function VolumeNeeded(orders: seq<PaperOrder>, side: Side, e: MarketEvent): (v: int)
    ensures v >= 0
  {
    if orders == [] then 0
    else
      var o := orders[|orders| - 1];
      VolumeNeeded(orders[..|orders| - 1], side, e)
      + (if FilledIn(o, Matching, side, e) then Max(QueueMet(o, e), 0) + Max(o.remaining, 0) else 0)
  }

  function FillPrice(cfg: ExchangeConfig, o: PaperOrder, phase: Phase, e: MarketEvent): Option<int> {
    if phase != Activating then o.request.limitPrice
    else if o.request.orderType == Market then SlippedPrice(Touch(o.request.side, e), o.request.side, cfg.slippagePpm)
    else Some(Touch(o.request.side, e))
  }

  /** The ledger after a dry run of one phase over the orders, if every fill goes through. */
  function DryRun(cfg: ExchangeConfig, phase: Phase, ledger: LedgerState, orders: seq<PaperOrder>, side: Side, e: MarketEvent)
    : Option<LedgerState>
  {
    if orders == [] then Some(ledger)
    else
      var before := DryRun(cfg, phase, ledger, orders[..|orders| - 1], side, e);
      var o := orders[|orders| - 1];
      if before.None? || !FilledIn(o, phase, side, e) then before
      else
        var price := FillPrice(cfg, o, phase, e);
        if price.None? then None else DryFill(cfg, before.value, o.request, o.remaining, price.value, phase == Matching)
  }

  /** The event fills every live order of the side and none of the other, it trades enough for that, and
      the ledger can represent the fills.  All of it can be checked before the event. */
  predicate Sweepable(cfg: ExchangeConfig, ledger: LedgerState, orders: seq<PaperOrder>, side: Side, e: MarketEvent) {
    && WellFormed(orders) && IsSwept(orders, side, e)
    && TradedVolume(e) >= VolumeNeeded(orders, side, e)
    && var taken := DryRun(cfg, Activating, ledger, orders, side, e);
    && taken.Some?
    && DryRun(cfg, Matching, taken.value, orders, side, e).Some?
  }

  // ----- one order in a sweep -----

  /** An order after the activating pass of a sweep. */
  ghost predicate TakenOne(o: PaperOrder, o': PaperOrder, side: Side, e: MarketEvent) {
    && o'.request == o.request && o'.activeTime == o.activeTime && GoodOrder(o')
    && (IsTerminal(o.status) ==> o' == o)
    && (FilledIn(o, Activating, side, e) ==> o'.status == Filled)
    && (FilledIn(o, Matching, side, e) ==>
          !IsTerminal(o'.status) && o'.status != Pending && o'.remaining == o.remaining && o'.queueAhead == QueueMet(o, e))
  }

  lemma ActivatingSweep(cfg: ExchangeConfig, b: Books, o: PaperOrder, volume: int, side: Side, e: MarketEvent)
    requires GoodOrder(o) && (IsTerminal(o.status) || SweptBy(o, side, e) || StaysOut(o, side, e))
    requires FilledIn(o, Activating, side, e) ==>
               FillPrice(cfg, o, Activating, e).Some?
               && DryFill(cfg, b.ledger, o.request, o.remaining, FillPrice(cfg, o, Activating, e).value, false).Some?
    ensures var r := Visit(cfg, Activating, b, o, volume, e);
            && r.2 == volume && TakenOne(o, r.1, side, e)
            && r.0.ledger == (if FilledIn(o, Activating, side, e) then
                                DryFill(cfg, b.ledger, o.request, o.remaining, FillPrice(cfg, o, Activating, e).value, false).value
                              else b.ledger)
  {
    hide DryFill, FillOrder, SlippedPrice, TradeOpposes, JoinedQueue;
    VisitMoves(cfg, Activating, b, o, volume, e);
    if FilledIn(o, Activating, side, e) {
      FillOrderResult(cfg, b, o, o.remaining, FillPrice(cfg, o, Activating, e).value, false, e);
    }
  }

  lemma MatchingSweep(cfg: ExchangeConfig, b: Books, o: PaperOrder, o': PaperOrder, volume: int, side: Side, e: MarketEvent)
    requires GoodOrder(o) && (IsTerminal(o.status) || SweptBy(o, side, e) || StaysOut(o, side, e))
    requires TakenOne(o, o', side, e)
    requires FilledIn(o, Matching, side, e) ==>
               && volume >= Max(QueueMet(o, e), 0) + o.remaining && o.request.limitPrice.Some?
               && DryFill(cfg, b.ledger, o.request, o.remaining, o.request.limitPrice.value, true).Some?
    ensures var r := Visit(cfg, Matching, b, o', volume, e);
            if FilledIn(o, Matching, side, e) then
              && r.0.ledger == DryFill(cfg, b.ledger, o.request, o.remaining, o.request.limitPrice.value, true).value
              && r.2 >= volume - Max(QueueMet(o, e), 0) - o.remaining
            else r.0.ledger == b.ledger && r.2 == volume
  {
    hide DryFill, FillOrder, TradeOpposes, QueueMet;
    if FilledIn(o, Matching, side, e) {
      FillOrderResult(cfg, b, o'.(queueAhead := o'.queueAhead - Min(o'.queueAhead, volume)), o.remaining,
                      o.request.limitPrice.value, true, e);
    } else {
      assert !Reaches(o', e);
    }
  }

  // ----- the passes of a sweep -----

  ghost predicate Taken(orders: seq<PaperOrder>, after: seq<PaperOrder>, n: nat, side: Side, e: MarketEvent) {
    && |after| == |orders| && n <= |orders|
    && (forall k :: 0 <= k < n ==> TakenOne(orders[k], after[k], side, e))
    && (forall k :: n <= k < |orders| ==> after[k] == orders[k])
  }

  ghost predicate AllGood(orders: seq<PaperOrder>) {
    forall k :: 0 <= k < |orders| ==> GoodOrder(orders[k])
  }

  lemma {:induction false} ActivatingPassSweeps(cfg: ExchangeConfig, s: Exchange, n: nat, side: Side, e: MarketEvent)
    requires WellFormed(s.orders) && AllGood(s.orders) && IsSwept(s.orders, side, e) && n <= |s.orders|
    requires DryRun(cfg, Activating, s.books.ledger, s.orders[..n], side, e).Some?
    ensures var floor := Pass(cfg, Activating, Opening(s, e), n, e);
            && floor.books.ledger == DryRun(cfg, Activating, s.books.ledger, s.orders[..n], side, e).value
            && Taken(s.orders, floor.orders, n, side, e)
            && floor.volume == TradedVolume(e)
  {
    hide FilledIn, FillPrice, DryFill, Visit, GoodOrder, SweptBy, StaysOut, TradedVolume, TakenOne;
    if n > 0 {
      assert s.orders[..n][..n - 1] == s.orders[..n - 1];
      ActivatingPassSweeps(cfg, s, n - 1, side, e);
      var before := Pass(cfg, Activating, Opening(s, e), n - 1, e);
      assert before.orders[n - 1] == s.orders[n - 1];
      ActivatingSweep(cfg, before.books, s.orders[n - 1], before.volume, side, e);
    }
  }

  lemma {:induction false} MatchingPassSweeps(cfg: ExchangeConfig, orders: seq<PaperOrder>, floor: Floor, n: nat, side: Side, e: MarketEvent)
    requires WellFormed(floor.orders) && AllGood(orders) && IsSwept(orders, side, e)
    requires Taken(orders, floor.orders, |orders|, side, e) && n <= |orders|
    requires DryRun(cfg, Matching, floor.books.ledger, orders[..n], side, e).Some?
    requires floor.volume >= VolumeNeeded(orders[..n], side, e)
    ensures var after := Pass(cfg, Matching, floor, n, e);
            && after.books.ledger == DryRun(cfg, Matching, floor.books.ledger, orders[..n], side, e).value
            && after.volume >= floor.volume - VolumeNeeded(orders[..n], side, e)
  {
    hide FilledIn, DryFill, Visit, GoodOrder, SweptBy, StaysOut, TakenOne, QueueMet;
    if n > 0 {
      var o := orders[n - 1];
      assert orders[..n][..n - 1] == orders[..n - 1];
      MatchingPassSweeps(cfg, orders, floor, n - 1, side, e);
      var before := Pass(cfg, Matching, floor, n - 1, e);
      OrderInPass(cfg, Matching, floor, n - 1, n - 1, e);
      assert TakenOne(o, floor.orders[n - 1], side, e);
      RemainderIsNatural(o);
      MatchingSweep(cfg, before.books, o, floor.orders[n - 1], before.volume, side, e);
    }
  }

  lemma RemainderIsNatural(o: PaperOrder)
    requires GoodOrder(o)
    ensures o.remaining >= 0
  {
  }

  // ----- the position after a sweep -----

  function PhaseExposure(orders: seq<PaperOrder>, phase: Phase, side: Side, e: MarketEvent): int {
    if orders == [] then 0
    else
      var o := orders[|orders| - 1];
      PhaseExposure(orders[..|orders| - 1], phase, side, e) + (if FilledIn(o, phase, side, e) then o.remaining else 0)
  }

  lemma {:induction false} ExposureByPhase(orders: seq<PaperOrder>, side: Side, e: MarketEvent)
    ensures Exposure(orders, side)
         == PhaseExposure(orders, Activating, side, e) + PhaseExposure(orders, Matching, side, e)
  {
    if orders != [] {
      ExposureByPhase(orders[..|orders| - 1], side, e);
    }
  }

  lemma DryFillMovesPosition(cfg: ExchangeConfig, ledger: LedgerState, request: OrderRequest, quantity: int, price: int, maker: bool)
    requires DryFill(cfg, ledger, request, quantity, price, maker).Some?
    ensures DryFill(cfg, ledger, request, quantity, price, maker).value.position
         == ledger.position + SignedQuantity(request.side, quantity)
  {
    hide ExactNotional, AllocatedCost, FillFee;
  }

  lemma {:induction false} DryRunMovesPosition(cfg: ExchangeConfig, phase: Phase, ledger: LedgerState,
                                               orders: seq<PaperOrder>, side: Side, e: MarketEvent)
    requires DryRun(cfg, phase, ledger, orders, side, e).Some?
    ensures DryRun(cfg, phase, ledger, orders, side, e).value.position
         == ledger.position + SignedQuantity(side, PhaseExposure(orders, phase, side, e))
  {
    hide DryFill, FillPrice, Takes;
    if orders != [] {
      var o := orders[|orders| - 1];
      DryRunMovesPosition(cfg, phase, ledger, orders[..|orders| - 1], side, e);
      if FilledIn(o, phase, side, e) {
        DryFillMovesPosition(cfg, DryRun(cfg, phase, ledger, orders[..|orders| - 1], side, e).value, o.request,
                             o.remaining, FillPrice(cfg, o, phase, e).value, phase == Matching);
      }
    }
  }

  // ----- the exact condition -----

  lemma SweptBooks(cfg: ExchangeConfig, s: Exchange, side: Side, e: MarketEvent)
    requires Inv(cfg, s) && WellFormed(s.orders)
    requires Sweepable(cfg, s.books.ledger, s.orders, side, e)
    ensures Processed(cfg, s, e).books.ledger.position
         == s.books.ledger.position + SignedQuantity(side, Exposure(s.orders, side))
  {
    hide BooksInv, Pass, DryRun, VolumeNeeded, PhaseExposure, Exposure, GoodOrder, SweptBy, StaysOut;
    var n := |s.orders|;
    forall k | 0 <= k < n
      ensures GoodOrder(s.orders[k])
    {
      OrdersAreGood(cfg, s.books, s.orders, k);
    }
    assert s.orders[..n] == s.orders;
    ActivatingPassSweeps(cfg, s, n, side, e);
    MatchingPassSweeps(cfg, s.orders, Activated(cfg, s, e), n, side, e);
    CancellingKeepsBooks(cfg, Matched(cfg, s, e), n, e);
    DryRunMovesPosition(cfg, Activating, s.books.ledger, s.orders, side, e);
    DryRunMovesPosition(cfg, Matching, Activated(cfg, s, e).books.ledger, s.orders, side, e);
    ExposureByPhase(s.orders, side, e);
  }

  /** A sweep takes the position all the way to what the live orders of the side can still fill. */
  lemma SweepReachesTheBound(cfg: ExchangeConfig, s: Exchange, side: Side, e: MarketEvent)
    requires Inv(cfg, s) && WellFormed(s.orders) && EventAccepted(cfg, s, e)
    requires Sweepable(cfg, s.books.ledger, s.orders, side, e)
    ensures Run(cfg, s, [Event(e)]).books.ledger.position
         == s.books.ledger.position + SignedQuantity(side, Exposure(s.orders, side))
  {
    hide Inv, Sweepable, Processed, EventAccepted, MarkToMarket;
    SweptBooks(cfg, s, side, e);
    MarkMovesNothing(cfg.ledger, Processed(cfg, s, e).books.ledger, Midpoint(e));
    assert Run(cfg, s, [Event(e)]) == Run(cfg, Step(cfg, s, Event(e)), []);
  }

  lemma MarkMovesNothing(cfg: LedgerConfig, st: LedgerState, price: int)
    ensures MarkToMarket(cfg, st, price).0.position == st.position
  {
  }

  /** Exposure beyond the limit that a sweep can reach is not safe. */
  lemma BeyondIsUnsafe(cfg: ExchangeConfig, s: Exchange, side: Side, e: MarketEvent)
    requires Inv(cfg, s) && WellFormed(s.orders) && EventAccepted(cfg, s, e)
    requires Sweepable(cfg, s.books.ledger, s.orders, side, e)
    requires Magnitude(s.books.ledger.position + SignedQuantity(side, Exposure(s.orders, side))) > cfg.risk.maxPosition
    ensures !StaysSafe(cfg, s)
  {
    hide Inv, Sweepable, Exposure, Step, Run;
    SweepReachesTheBound(cfg, s, side, e);
    var more := [Event(e)];
    assert NoSubmissions(cfg, Step(cfg, s, more[0]), []);
    assert NoSubmissions(cfg, s, more);
  }

  // ----- entry -----

  /** Activation on entry rejects the order: it is due on the current market, and either it cannot be
      priced, or it is post-only and would cross, or the fill it asks for is refused. */
  predicate RejectedOnEntry(cfg: ExchangeConfig, s: Exchange, request: OrderRequest, decisionTime: int)
    requires cfg.quantityStep > 0 && s.market.Some? && (request.orderType != Market ==> request.limitPrice.Some?)
  {
    var e, o := s.market.value, NewOrder(cfg, s, request, decisionTime);
    && cfg.acknowledgementLatency == 0 && e.receiveTime >= decisionTime
    && Takes(o, e)
    && var price := FillPrice(cfg, o, Activating, e);
       request.orderType == PostOnly || price.None?
       || DryFill(cfg, s.books.ledger, o.request, o.remaining, price.value, false).None?
  }

  /** The order is not activated on entry: there is a latency, or the market is older than it. */
  predicate WaitsOnEntry(cfg: ExchangeConfig, s: Exchange, decisionTime: int) {
    cfg.acknowledgementLatency > 0 || (s.market.Some? && s.market.value.receiveTime < decisionTime)
  }

  lemma WaitingEntry(cfg: ExchangeConfig, s: Exchange, request: OrderRequest, decisionTime: int)
    requires SubmitProblem(cfg, s, request, decisionTime) == NoProblem && WaitsOnEntry(cfg, s, decisionTime)
    ensures cfg.quantityStep > 0
    ensures Entered(cfg, s, request, decisionTime) == (s.books, NewOrder(cfg, s, request, decisionTime))
    ensures NewOrder(cfg, s, request, decisionTime).status == Pending
  {
    hide Evaluate, CheckedWideNotional, NormalizedQuantity, FillOrder;
  }

  /** What an accepted submission comes with. */
  lemma AcceptedSubmission(cfg: ExchangeConfig, s: Exchange, request: OrderRequest, decisionTime: int)
    requires SubmitProblem(cfg, s, request, decisionTime) == NoProblem
    ensures ValidConfig(cfg) && cfg.quantityStep > 0 && s.market.Some?
    ensures request.orderType != Market ==> request.limitPrice.Some?
  {
    hide Evaluate, CheckedWideNotional, NormalizedQuantity;
  }

  lemma RejectionOnEntry(cfg: ExchangeConfig, s: Exchange, request: OrderRequest, decisionTime: int)
    requires SubmitProblem(cfg, s, request, decisionTime) == NoProblem
    ensures cfg.quantityStep > 0 && s.market.Some? && (request.orderType != Market ==> request.limitPrice.Some?)
    ensures Entered(cfg, s, request, decisionTime).1.status == Rejected
       <==> RejectedOnEntry(cfg, s, request, decisionTime)
  {
    hide SubmitProblem, NormalizedQuantity, FillOrder, DryFill, SlippedPrice;
    AcceptedSubmission(cfg, s, request, decisionTime);
    NewOrderIsGood(cfg, s, request, decisionTime);
    var o, e := NewOrder(cfg, s, request, decisionTime), s.market.value;
    var price := FillPrice(cfg, o, Activating, e);
    if price.Some? {
      FillOrderResult(cfg, s.books, o, o.remaining, price.value, false, e);
    }
  }

  /** What entry makes of the order: rejected, it leaves no trace on the position; otherwise what it
      filled and what it can still fill make up the rounded quantity. */
  lemma EntryOutcome(cfg: ExchangeConfig, s: Exchange, request: OrderRequest, decisionTime: int)
    requires Inv(cfg, s) && SubmitProblem(cfg, s, request, decisionTime) == NoProblem
    ensures var (b', o') := Entered(cfg, s, request, decisionTime);
            && cfg.quantityStep > 0
            && (o'.status == Rejected ==> b' == s.books && LiveQuantity(o') == 0)
            && (o'.status != Rejected ==>
                  b'.ledger.position + SignedQuantity(request.side, LiveQuantity(o'))
                  == s.books.ledger.position + SignedQuantity(request.side, NormalizedQuantity(cfg, request.quantity)))
  {
    hide BooksInv, SubmitProblem, NormalizedQuantity, ApplyFill, FillFee, SlippedPrice, Balanced;
    NewOrderIsGood(cfg, s, request, decisionTime);
    var (b', o') := Entered(cfg, s, request, decisionTime);
    EnteredOrder(cfg, s, request, decisionTime);
    if b' != s.books {
      var f := b'.fills[|s.books.fills|];
      BooksBalanced(cfg, s.books, s.orders);
      FillKeepsBalance(cfg.ledger, s.books.ledger, SignedQuantity(f.side, f.quantity), f.price, f.fee);
    }
  }

  /** The exact condition for the position limit, in every reachable state whose live orders are within
      it.  Take an accepted order, what activation on the current market makes of it, and any event
      that then sweeps its side.  The position stays within the limit whatever events and cancels
      follow if and only if the order is covered or is rejected on entry. */
  lemma CoverOnEntryIsExact(cfg: ExchangeConfig, actions: seq<Action>, request: OrderRequest, decisionTime: int, e: MarketEvent)
    requires var s := Reached(cfg, actions);
             && SubmitProblem(cfg, s, request, decisionTime) == NoProblem && WithinLimit(cfg, ReachIn(s))
             && EventAccepted(cfg, s, e)
             && var (b, o) := Entered(cfg, s, request, decisionTime);
             Sweepable(cfg, b.ledger, s.orders + [o], request.side, e)
    ensures var s := Reached(cfg, actions);
            && WellFormed(s.orders)
            && cfg.quantityStep > 0 && s.market.Some? && (request.orderType != Market ==> request.limitPrice.Some?)
            && (StaysSafe(cfg, Submit(cfg, s, request, decisionTime).0)
                <==> Covered(cfg, s, request) || RejectedOnEntry(cfg, s, request, decisionTime))
  {
    hide Run, Inv, SubmitProblem, Sweepable, StaysSafe, NormalizedQuantity, Entered, NoSubmissions, RejectedOnEntry;
    ReachedInv(cfg, actions);
    var s := Reached(cfg, actions);
    SubmitKeepsInv(cfg, s, request, decisionTime);
    EntryOutcome(cfg, s, request, decisionTime);
    RejectionOnEntry(cfg, s, request, decisionTime);
    var s1 := Submit(cfg, s, request, decisionTime).0;
    var (b, o) := Entered(cfg, s, request, decisionTime);
    EntryReach(b, s.orders, o);
    if Covered(cfg, s, request) {
      CoveredIsSafe(cfg, s, request, decisionTime);
    } else if o.status == Rejected {
      WithinIsSafe(cfg, s1);
    } else {
      BeyondIsUnsafe(cfg, s1, request.side, e);
    }
  }

  /** In particular an order of any type that waits on entry enters as it is, and is safe if and only if
      it is covered.  All of this can be checked before submitting. */
  lemma CoverIsExact(cfg: ExchangeConfig, actions: seq<Action>, request: OrderRequest, decisionTime: int, e: MarketEvent)
    requires var s := Reached(cfg, actions);
             && SubmitProblem(cfg, s, request, decisionTime) == NoProblem && WaitsOnEntry(cfg, s, decisionTime)
             && cfg.quantityStep > 0 && WithinLimit(cfg, ReachIn(s)) && EventAccepted(cfg, s, e)
             && Sweepable(cfg, s.books.ledger, s.orders + [NewOrder(cfg, s, request, decisionTime)], request.side, e)
    ensures var s := Reached(cfg, actions);
            WellFormed(s.orders) &&
            (StaysSafe(cfg, Submit(cfg, s, request, decisionTime).0) <==> Covered(cfg, s, request))
  {
    hide Run, Inv, SubmitProblem, Sweepable, StaysSafe, NormalizedQuantity, Submit;
    WaitingEntry(cfg, Reached(cfg, actions), request, decisionTime);
    RejectionOnEntry(cfg, Reached(cfg, actions), request, decisionTime);
    CoverOnEntryIsExact(cfg, actions, request, decisionTime, e);
  }
}
