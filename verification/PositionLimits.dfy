/** What the risk gate guarantees about the position over whole runs, and what it does not. */
module PositionLimits {
  import opened FixedPoint
  import opened Types
  import opened LedgerModel
  import opened LedgerTheorems
  import opened Risk
  import opened ExchangeModel
  import opened ExchangeInvariants
  import opened ExchangeTheorems
  import opened Idempotence

  /** The quantity an order can still fill. */
  function LiveQuantity(o: PaperOrder): int {
    if IsTerminal(o.status) then 0 else o.remaining
  }

  /** The quantity all live orders of a side can still fill. */
  function Exposure(orders: seq<PaperOrder>, side: Side): int {
    if orders == [] then 0
    else Exposure(orders[..|orders| - 1], side)
         + (if orders[|orders| - 1].request.side == side then LiveQuantity(orders[|orders| - 1]) else 0)
  }

  lemma {:induction false} ExposureUpdate(orders: seq<PaperOrder>, k: nat, o: PaperOrder, side: Side)
    requires k < |orders| && o.request == orders[k].request
    ensures Exposure(orders[k := o], side)
         == Exposure(orders, side) + (if o.request.side == side then LiveQuantity(o) - LiveQuantity(orders[k]) else 0)
  {
    var n := |orders| - 1;
    if k < n {
      ExposureUpdate(orders[..n], k, o, side);
      assert orders[k := o][..n] == orders[..n][k := o];
    } else {
      assert orders[k := o][..n] == orders[..n];
    }
  }

  lemma {:induction false} ExposureCovers(orders: seq<PaperOrder>, k: nat, side: Side)
    requires forall i :: 0 <= i < |orders| ==> LiveQuantity(orders[i]) >= 0
    ensures Exposure(orders, side) >= 0
    ensures k < |orders| && orders[k].request.side == side ==> LiveQuantity(orders[k]) <= Exposure(orders, side)
    decreases |orders|
  {
    if orders != [] {
      ExposureCovers(orders[..|orders| - 1], k, side);
    }
  }

  lemma {:induction false} NothingExposed(orders: seq<PaperOrder>, side: Side)
    requires NoneLive(orders)
    ensures Exposure(orders, side) == 0
  {
    if orders != [] {
      NothingExposed(orders[..|orders| - 1], side);
    }
  }

  predicate NoneLive(orders: seq<PaperOrder>) {
    forall k :: 0 <= k < |orders| ==> IsTerminal(orders[k].status)
  }

  /** The positions the live orders could still lead to. */
  datatype Reach = Reach(low: int, position: int, high: int)

  function ReachOf(b: Books, orders: seq<PaperOrder>): Reach {
    var position := b.ledger.position;
    Reach(position - Exposure(orders, Sell), position, position + Exposure(orders, Buy))
  }

  /** The positions still possible only ever narrow down. */
  ghost predicate Narrows(r: Reach, r': Reach) {
    r.low <= r'.low <= r'.position <= r'.high <= r.high
  }

  lemma GoodExposure(cfg: ExchangeConfig, b: Books, orders: seq<PaperOrder>)
    requires BooksInv(cfg, b, orders)
    ensures Exposure(orders, Buy) >= 0 && Exposure(orders, Sell) >= 0
  {
    forall i | 0 <= i < |orders|
      ensures LiveQuantity(orders[i]) >= 0
    {
      OrdersAreGood(cfg, b, orders, i);
    }
    ExposureCovers(orders, 0, Buy);
    ExposureCovers(orders, 0, Sell);
  }

  /** A visit to one order moves the position only within reach. */
  lemma MoveNarrows(cfg: ExchangeConfig, e: MarketEvent, b: Books, orders: seq<PaperOrder>, k: nat,
                    b': Books, o': PaperOrder)
    requires k < |orders| && BooksInv(cfg, b, orders) && Move(cfg, e, b, orders[k], b', o')
    ensures Narrows(ReachOf(b, orders), ReachOf(b', orders[k := o']))
  {
    hide BooksInv, LegalPrice, ApplyFill, TapeExplains;
    MoveKeepsBooks(cfg, e, b, orders, k, b', o');
    GoodExposure(cfg, b', orders[k := o']);
    OrdersAreGood(cfg, b, orders, k);
    ExposureUpdate(orders, k, o', Buy);
    ExposureUpdate(orders, k, o', Sell);
    if b' != b {
      BookingMovesPosition(cfg, e, b, orders, k, b', o');
    }
  }

  lemma BookingMovesPosition(cfg: ExchangeConfig, e: MarketEvent, b: Books, orders: seq<PaperOrder>, k: nat,
                             b': Books, o': PaperOrder)
    requires k < |orders| && BooksInv(cfg, b, orders) && Booking(cfg, e, b, orders[k], b', o')
    ensures var f := b'.fills[|b.fills|];
            && b'.ledger.position == b.ledger.position + SignedQuantity(f.side, f.quantity)
            && f.side == orders[k].request.side && f.quantity > 0
  {
    hide LegalPrice;
    var f := b'.fills[|b.fills|];
    FillKeepsBalance(cfg.ledger, b.ledger, SignedQuantity(f.side, f.quantity), f.price, f.fee);
  }

  lemma VisitNarrows(cfg: ExchangeConfig, phase: Phase, floor: Floor, k: nat, e: MarketEvent)
    requires k < |floor.orders| && WellFormed(floor.orders) && BooksInv(cfg, floor.books, floor.orders)
    ensures var after := VisitAt(cfg, phase, floor, k, e);
            Narrows(ReachOf(floor.books, floor.orders), ReachOf(after.books, after.orders))
  {
    hide BooksInv, Visit, ReachOf, Move;
    OrdersAreGood(cfg, floor.books, floor.orders, k);
    VisitMoves(cfg, phase, floor.books, floor.orders[k], floor.volume, e);
    var r := Visit(cfg, phase, floor.books, floor.orders[k], floor.volume, e);
    MoveNarrows(cfg, e, floor.books, floor.orders, k, r.0, r.1);
  }

  lemma {:induction false} PassNarrows(cfg: ExchangeConfig, phase: Phase, floor: Floor, n: nat, e: MarketEvent)
    requires n <= |floor.orders| && WellFormed(floor.orders) && BooksInv(cfg, floor.books, floor.orders)
    ensures var after := Pass(cfg, phase, floor, n, e);
            Narrows(ReachOf(floor.books, floor.orders), ReachOf(after.books, after.orders))
  {
    hide BooksInv, VisitAt;
    GoodExposure(cfg, floor.books, floor.orders);
    if n > 0 {
      PassNarrows(cfg, phase, floor, n - 1, e);
      PassKeepsBooks(cfg, phase, floor, n - 1, e);
      VisitNarrows(cfg, phase, Pass(cfg, phase, floor, n - 1, e), n - 1, e);
    }
  }

  function ReachIn(s: Exchange): Reach {
    ReachOf(s.books, s.orders)
  }

  lemma EventNarrows(cfg: ExchangeConfig, s: Exchange, e: MarketEvent)
    requires Inv(cfg, s) && WellFormed(s.orders)
    ensures Narrows(ReachIn(s), ReachIn(OnMarketEvent(cfg, s, e).0))
  {
    hide BooksInv, Pass, MarkToMarket;
    GoodExposure(cfg, s.books, s.orders);
    if EventAccepted(cfg, s, e) {
      EventPhases(cfg, s, e);
      PassNarrows(cfg, Activating, Opening(s, e), |s.orders|, e);
      PassNarrows(cfg, Matching, Activated(cfg, s, e), |s.orders|, e);
      PassNarrows(cfg, Cancelling, Matched(cfg, s, e), |s.orders|, e);
      MarkKeepsBooks(cfg.ledger, Processed(cfg, s, e).books.ledger, Midpoint(e));
    }
  }

  lemma CancelNarrows(cfg: ExchangeConfig, s: Exchange, clientOrderId: string, requestTime: int)
    requires Inv(cfg, s) && WellFormed(s.orders)
    ensures Narrows(ReachIn(s), ReachIn(Cancel(cfg, s, clientOrderId, requestTime).0))
  {
    hide BooksInv;
    GoodExposure(cfg, s.books, s.orders);
    if Cancellable(s, clientOrderId) {
      var k := FindOrder(s, clientOrderId).value;
      var o' := Cancel(cfg, s, clientOrderId, requestTime).0.orders[k];
      ExposureUpdate(s.orders, k, o', Buy);
      ExposureUpdate(s.orders, k, o', Sell);
    }
  }

  /** Whatever happens between two accepted submissions, the reachable positions only narrow. */
  lemma QuietStepNarrows(cfg: ExchangeConfig, s: Exchange, action: Action)
    requires Inv(cfg, s) && WellFormed(s.orders)
    requires action.SubmitOrder? ==> !Effective(cfg, s, action)
    ensures Narrows(ReachIn(s), ReachIn(Step(cfg, s, action)))
  {
    hide BooksInv, SubmitProblem, OnMarketEvent, Cancel, Entered;
    match action
    case Event(e) => EventNarrows(cfg, s, e);
    case SubmitOrder(_, _) => GoodExposure(cfg, s.books, s.orders);
    case CancelOrder(id, requestTime) => CancelNarrows(cfg, s, id, requestTime);
  }

  function Widened(r: Reach, side: Side, quantity: int): Reach {
    if side.Buy? then r.(high := r.high + quantity) else r.(low := r.low - quantity)
  }

  lemma EntryReach(b: Books, orders: seq<PaperOrder>, o: PaperOrder)
    ensures ReachOf(b, orders + [o]) == Widened(ReachOf(b, orders), o.request.side, LiveQuantity(o))
  {
    assert (orders + [o])[..|orders|] == orders;
  }

  /** An accepted submission widens the reach by at most its rounded quantity, on its own side. */
  lemma SubmitWidens(cfg: ExchangeConfig, s: Exchange, request: OrderRequest, decisionTime: int)
    requires Inv(cfg, s) && WellFormed(s.orders) && SubmitProblem(cfg, s, request, decisionTime) == NoProblem
    ensures cfg.quantityStep > 0
    ensures Narrows(Widened(ReachIn(s), request.side, NormalizedQuantity(cfg, request.quantity)),
                    ReachIn(Submit(cfg, s, request, decisionTime).0))
  {
    hide BooksInv, SubmitProblem, NormalizedQuantity, Entered, Move, GoodOrder, ReachOf, Narrows;
    NewOrderIsGood(cfg, s, request, decisionTime);
    var o := NewOrder(cfg, s, request, decisionTime);
    EnteredOrder(cfg, s, request, decisionTime);
    EntryKeepsBooks(cfg, s.books, s.orders, o);
    EntryReach(s.books, s.orders, o);
    var r := Entered(cfg, s, request, decisionTime);
    MoveNarrows(cfg, s.market.value, s.books, s.orders + [o], |s.orders|, r.0, r.1);
    assert (s.orders + [o])[|s.orders| := r.1] == s.orders + [r.1];
  }

  // ----- the position limit -----

  /** Every position still reachable is within the limit. */
  ghost predicate WithinLimit(cfg: ExchangeConfig, r: Reach) {
    -cfg.risk.maxPosition <= r.low && r.high <= cfg.risk.maxPosition
  }

  /** The order, on top of everything the live orders of its side can still fill, stays within the
      limit.  A caller can check this before submitting; the gate checks the position alone. */
  predicate Covered(cfg: ExchangeConfig, s: Exchange, request: OrderRequest) {
    cfg.quantityStep > 0 &&
    var quantity := NormalizedQuantity(cfg, request.quantity);
    if request.side.Buy? then s.books.ledger.position + Exposure(s.orders, Buy) + quantity <= cfg.risk.maxPosition
    else s.books.ledger.position - Exposure(s.orders, Sell) - quantity >= -cfg.risk.maxPosition
  }

  /** Each accepted submission is covered. */
  ghost predicate AllCovered(cfg: ExchangeConfig, s: Exchange, actions: seq<Action>)
    requires WellFormed(s.orders)
    decreases |actions|
  {
    actions == [] ||
    (&& (actions[0].SubmitOrder? && Effective(cfg, s, actions[0]) ==> Covered(cfg, s, actions[0].request))
     && AllCovered(cfg, Step(cfg, s, actions[0]), actions[1..]))
  }

  /** Each accepted submission comes when no order is live. */
  ghost predicate Serial(cfg: ExchangeConfig, s: Exchange, actions: seq<Action>)
    requires WellFormed(s.orders)
    decreases |actions|
  {
    actions == [] ||
    (&& (actions[0].SubmitOrder? && Effective(cfg, s, actions[0]) ==> NoneLive(s.orders))
     && Serial(cfg, Step(cfg, s, actions[0]), actions[1..]))
  }

  lemma RoundedDown(cfg: ExchangeConfig, quantity: int)
    requires cfg.quantityStep > 0 && quantity >= 0
    ensures 0 <= NormalizedQuantity(cfg, quantity) <= quantity
  {
    TruncDivBounds(quantity, cfg.quantityStep);
  }

  lemma AcceptedOrderRespectsGate(cfg: ExchangeConfig, s: Exchange, request: OrderRequest, decisionTime: int)
    requires SubmitProblem(cfg, s, request, decisionTime) == NoProblem
    ensures cfg.quantityStep > 0 && request.quantity > 0
    ensures !BreaksPositionLimit(cfg.risk, request, s.books.ledger) && !BreaksReduceOnly(request, s.books.ledger)
  {
    hide IsStale, BreaksOrderLimit, CheckedWideNotional, SpreadPpm, FindOrder;
  }

  lemma CoveredStaysWithin(cfg: ExchangeConfig, s: Exchange, request: OrderRequest, decisionTime: int)
    requires Inv(cfg, s) && WellFormed(s.orders) && SubmitProblem(cfg, s, request, decisionTime) == NoProblem
    requires Covered(cfg, s, request) && WithinLimit(cfg, ReachIn(s))
    ensures WithinLimit(cfg, ReachIn(Submit(cfg, s, request, decisionTime).0))
  {
    hide BooksInv, SubmitProblem, NormalizedQuantity, Submit;
    SubmitWidens(cfg, s, request, decisionTime);
  }

  /** When no other order is live, what the gate checks is cover enough. */
  lemma LoneOrderIsCovered(cfg: ExchangeConfig, s: Exchange, request: OrderRequest, decisionTime: int)
    requires Inv(cfg, s) && SubmitProblem(cfg, s, request, decisionTime) == NoProblem
    requires NoneLive(s.orders) && cfg.risk.maxPosition > 0 && WithinLimit(cfg, ReachIn(s))
    ensures Covered(cfg, s, request)
  {
    hide BooksInv, SubmitProblem, NormalizedQuantity;
    AcceptedOrderRespectsGate(cfg, s, request, decisionTime);
    RoundedDown(cfg, request.quantity);
    NothingExposed(s.orders, Buy);
    NothingExposed(s.orders, Sell);
  }

  lemma StepStaysWithin(cfg: ExchangeConfig, s: Exchange, action: Action)
    requires Inv(cfg, s) && WellFormed(s.orders) && WithinLimit(cfg, ReachIn(s))
    requires action.SubmitOrder? && Effective(cfg, s, action) ==> Covered(cfg, s, action.request)
    ensures WithinLimit(cfg, ReachIn(Step(cfg, s, action)))
  {
    hide Inv, SubmitProblem, Submit, OnMarketEvent, Cancel, Covered, ReachIn;
    if action.SubmitOrder? && Effective(cfg, s, action) {
      CoveredStaysWithin(cfg, s, action.request, action.decisionTime);
    } else {
      QuietStepNarrows(cfg, s, action);
    }
  }

  /** A run whose submissions are all covered keeps the position limit, however many orders are live. */
  lemma {:induction false} CoveredRunStaysWithin(cfg: ExchangeConfig, s: Exchange, actions: seq<Action>)
    requires Inv(cfg, s) && WellFormed(s.orders) && AllCovered(cfg, s, actions)
    requires WithinLimit(cfg, ReachIn(s))
    ensures WithinLimit(cfg, ReachIn(Run(cfg, s, actions)))
    decreases |actions|
  {
    hide Inv, Step, Effective, Covered, ReachIn, WithinLimit;
    if actions != [] {
      StepKeepsInv(cfg, s, actions[0]);
      StepStaysWithin(cfg, s, actions[0]);
      CoveredRunStaysWithin(cfg, Step(cfg, s, actions[0]), actions[1..]);
    }
  }

  /** Serial submission is covered submission. */
  lemma {:induction false} SerialIsCovered(cfg: ExchangeConfig, s: Exchange, actions: seq<Action>)
    requires Inv(cfg, s) && WellFormed(s.orders) && Serial(cfg, s, actions)
    requires cfg.risk.maxPosition > 0 && WithinLimit(cfg, ReachIn(s))
    ensures AllCovered(cfg, s, actions)
    decreases |actions|
  {
    hide Inv, Step, NoneLive, ReachIn, WithinLimit, SubmitProblem, Covered;
    if actions != [] {
      StepKeepsInv(cfg, s, actions[0]);
      if actions[0].SubmitOrder? && Effective(cfg, s, actions[0]) {
        LoneOrderIsCovered(cfg, s, actions[0].request, actions[0].decisionTime);
      }
      StepStaysWithin(cfg, s, actions[0]);
      SerialIsCovered(cfg, Step(cfg, s, actions[0]), actions[1..]);
    }
  }

  /** Serial submission keeps the position limit in every reachable state, and inside every event:
      the position after any number of visits of any phase of an event is within the limit too. */
  lemma SerialSubmissionKeepsLimit(cfg: ExchangeConfig, actions: seq<Action>, phase: Phase, e: MarketEvent, n: nat)
    requires cfg.risk.maxPosition > 0 && Serial(cfg, InitialExchange(cfg), actions)
    requires n <= |Reached(cfg, actions).orders|
    ensures WellFormed(Reached(cfg, actions).orders)
    ensures Magnitude(Reached(cfg, actions).books.ledger.position) <= cfg.risk.maxPosition
    ensures Magnitude(Pass(cfg, phase, PhaseStart(cfg, Reached(cfg, actions), phase, e), n, e).books.ledger.position)
            <= cfg.risk.maxPosition
  {
    hide Run, BooksInv, Pass, Serial, ReachOf;
    InitialInv(cfg);
    NothingExposed([], Buy);
    NothingExposed([], Sell);
    ReachedInv(cfg, actions);
    var s := Reached(cfg, actions);
    InitialReach(cfg);
    SerialIsCovered(cfg, InitialExchange(cfg), actions);
    CoveredRunStaysWithin(cfg, InitialExchange(cfg), actions);
    EventNarrowsWithin(cfg, s, phase, e, n);
    NarrowReflexive(cfg, s);
  }

  lemma InitialReach(cfg: ExchangeConfig)
    ensures ReachIn(InitialExchange(cfg)) == Reach(0, 0, 0)
  {
  }

  lemma NarrowReflexive(cfg: ExchangeConfig, s: Exchange)
    requires Inv(cfg, s)
    ensures ReachIn(s).position == s.books.ledger.position
    ensures ReachIn(s).low <= ReachIn(s).position <= ReachIn(s).high
  {
    GoodExposure(cfg, s.books, s.orders);
  }

  function PhaseStart(cfg: ExchangeConfig, s: Exchange, phase: Phase, e: MarketEvent): (r: Floor)
    requires WellFormed(s.orders)
    ensures |r.orders| == |s.orders| && WellFormed(r.orders)
  {
    match phase
    case Activating => Opening(s, e)
    case Matching => Activated(cfg, s, e)
    case Cancelling => Matched(cfg, s, e)
  }

  lemma EventNarrowsWithin(cfg: ExchangeConfig, s: Exchange, phase: Phase, e: MarketEvent, n: nat)
    requires Inv(cfg, s) && WellFormed(s.orders) && n <= |s.orders|
    ensures var floor := Pass(cfg, phase, PhaseStart(cfg, s, phase, e), n, e);
            Narrows(ReachIn(s), ReachOf(floor.books, floor.orders)) && ReachOf(floor.books, floor.orders).position == floor.books.ledger.position
  {
    hide BooksInv, Pass, Exposure;
    EventPhases(cfg, s, e);
    var all := |s.orders|;
    PassNarrows(cfg, Activating, Opening(s, e), all, e);
    PassNarrows(cfg, Matching, Activated(cfg, s, e), all, e);
    PassNarrows(cfg, phase, PhaseStart(cfg, s, phase, e), n, e);
  }

  // ----- reduce-only orders -----

  /** Every position still reachable lies between zero and p. */
  ghost predicate Shrinks(p: int, r: Reach) {
    (0 <= r.low && r.high <= p) || (p <= r.low && r.high <= 0)
  }

  /** p' lies between zero and p. */
  predicate Toward(p: int, p': int) {
    0 <= p' <= p || p <= p' <= 0
  }

  ghost predicate NoSubmissions(cfg: ExchangeConfig, s: Exchange, actions: seq<Action>)
    requires WellFormed(s.orders)
    decreases |actions|
  {
    actions == [] ||
    (&& (actions[0].SubmitOrder? ==> !Effective(cfg, s, actions[0]))
     && NoSubmissions(cfg, Step(cfg, s, actions[0]), actions[1..]))
  }

  lemma {:induction false} ShrinkingRun(cfg: ExchangeConfig, s: Exchange, actions: seq<Action>, p: int)
    requires Inv(cfg, s) && WellFormed(s.orders) && NoSubmissions(cfg, s, actions) && Shrinks(p, ReachIn(s))
    ensures Toward(p, Run(cfg, s, actions).books.ledger.position)
    decreases |actions|
  {
    hide Inv, Step, Effective, ReachIn;
    NarrowReflexive(cfg, s);
    if actions != [] {
      StepKeepsInv(cfg, s, actions[0]);
      QuietStepNarrows(cfg, s, actions[0]);
      ShrinkingRun(cfg, Step(cfg, s, actions[0]), actions[1..], p);
    }
  }

  /** A reduce-only order accepted in any reachable state in which no other order is live never grows
      or flips the position: through its whole life, whatever events and cancels follow, the position
      stays between zero and where it was at submission. */
  lemma ReduceOnlyNeverGrows(cfg: ExchangeConfig, actions: seq<Action>, request: OrderRequest, decisionTime: int,
                             more: seq<Action>)
    requires var s := Reached(cfg, actions);
             && SubmitProblem(cfg, s, request, decisionTime) == NoProblem
             && NoneLive(s.orders) && request.reduceOnly
             && NoSubmissions(cfg, Submit(cfg, s, request, decisionTime).0, more)
    ensures var s := Reached(cfg, actions);
            Toward(s.books.ledger.position,
                   Run(cfg, Submit(cfg, s, request, decisionTime).0, more).books.ledger.position)
  {
    hide Run, Inv, SubmitProblem, Submit, NoSubmissions;
    ReachedInv(cfg, actions);
    LoneReduceOnlyOrder(cfg, Reached(cfg, actions), request, decisionTime, more);
  }

  lemma LoneReduceOnlyOrder(cfg: ExchangeConfig, s: Exchange, request: OrderRequest, decisionTime: int,
                            more: seq<Action>)
    requires Inv(cfg, s) && WellFormed(s.orders) && SubmitProblem(cfg, s, request, decisionTime) == NoProblem
    requires NoneLive(s.orders) && request.reduceOnly
    requires NoSubmissions(cfg, Submit(cfg, s, request, decisionTime).0, more)
    ensures Toward(s.books.ledger.position,
                   Run(cfg, Submit(cfg, s, request, decisionTime).0, more).books.ledger.position)
  {
    hide BooksInv, SubmitProblem, NormalizedQuantity, Submit, Run, NoSubmissions;
    SubmitWidens(cfg, s, request, decisionTime);
    AcceptedOrderRespectsGate(cfg, s, request, decisionTime);
    RoundedDown(cfg, request.quantity);
    NothingExposed(s.orders, Buy);
    NothingExposed(s.orders, Sell);
    SubmitKeepsInv(cfg, s, request, decisionTime);
    ShrinkingRun(cfg, Submit(cfg, s, request, decisionTime).0, more, s.books.ledger.position);
  }
}
