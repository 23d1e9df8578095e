/** Repeats and refusals leave no trace: redelivered events, repeated order ids, refused requests. */
module Idempotence {
  import opened Types
  import opened LedgerModel
  import opened Risk
  import opened ExchangeModel
  import opened ExchangeInvariants
  import opened ExchangeTheorems

  /** The exchange accepts the action: a new event, an order that passes every check, a live cancel. */
  predicate Effective(cfg: ExchangeConfig, s: Exchange, action: Action) {
    match action
    case Event(e) => EventAccepted(cfg, s, e)
    case SubmitOrder(request, decisionTime) => SubmitProblem(cfg, s, request, decisionTime) == NoProblem
    case CancelOrder(id, _) => Cancellable(s, id)
  }

  /** A run with every refused action deleted. */
  function EffectiveOnly(cfg: ExchangeConfig, s: Exchange, actions: seq<Action>): seq<Action>
    requires WellFormed(s.orders)
    decreases |actions|
  {
    if actions == [] then []
    else
      var rest := EffectiveOnly(cfg, Step(cfg, s, actions[0]), actions[1..]);
      if Effective(cfg, s, actions[0]) then [actions[0]] + rest else rest
  }

  function RefusedEvents(cfg: ExchangeConfig, s: Exchange, actions: seq<Action>): nat
    requires WellFormed(s.orders)
    decreases |actions|
  {
    if actions == [] then 0
    else RefusedEvents(cfg, Step(cfg, s, actions[0]), actions[1..])
         + (if actions[0].Event? && !Effective(cfg, s, actions[0]) then 1 else 0)
  }

  function Ignoring(s: Exchange, n: nat): Exchange {
    s.(ignored := n)
  }

  /** The counter of ignored events never influences a step. */
  lemma StepIgnoresCounter(cfg: ExchangeConfig, s: Exchange, n: nat, action: Action)
    requires WellFormed(s.orders)
    ensures Effective(cfg, Ignoring(s, n), action) == Effective(cfg, s, action)
    ensures var s' := Step(cfg, s, action);
            Step(cfg, Ignoring(s, n), action)
            == Ignoring(s', if action.Event? && !Effective(cfg, s, action) then n + 1 else n)
  {
    hide Pass, Activate, MarkToMarket, Midpoint, ValidConfig, NormalizedQuantity, CheckedWideNotional;
    match action
    case Event(e) =>
      assert Opening(Ignoring(s, n), e) == Opening(s, e);
    case SubmitOrder(request, decisionTime) =>
      assert FindOrder(Ignoring(s, n), request.clientOrderId) == FindOrder(s, request.clientOrderId);
      if SubmitProblem(cfg, s, request, decisionTime) == NoProblem {
        assert Entered(cfg, Ignoring(s, n), request, decisionTime) == Entered(cfg, s, request, decisionTime);
      }
    case CancelOrder(id, requestTime) =>
  }

  lemma {:induction false} RunIgnoresCounter(cfg: ExchangeConfig, s: Exchange, n: nat, actions: seq<Action>)
    requires WellFormed(s.orders)
    ensures EffectiveOnly(cfg, Ignoring(s, n), actions) == EffectiveOnly(cfg, s, actions)
    ensures Ignoring(Run(cfg, Ignoring(s, n), actions), 0) == Ignoring(Run(cfg, s, actions), 0)
    decreases |actions|
  {
    hide Step, Effective;
    if actions != [] {
      StepIgnoresCounter(cfg, s, n, actions[0]);
      var next := Step(cfg, s, actions[0]);
      var m := Step(cfg, Ignoring(s, n), actions[0]).ignored;
      assert Step(cfg, Ignoring(s, n), actions[0]) == Ignoring(next, m);
      RunIgnoresCounter(cfg, next, m, actions[1..]);
    }
  }

  lemma RefusalChangesCounterOnly(cfg: ExchangeConfig, s: Exchange, action: Action)
    requires WellFormed(s.orders) && !Effective(cfg, s, action)
    ensures Step(cfg, s, action) == Ignoring(s, if action.Event? then s.ignored + 1 else s.ignored)
  {
    hide SubmitProblem;
  }

  lemma EffectiveKeepsCounter(cfg: ExchangeConfig, s: Exchange, action: Action)
    requires WellFormed(s.orders) && Effective(cfg, s, action)
    ensures Step(cfg, s, action).ignored == s.ignored
  {
    hide SubmitProblem, Entered, Processed, EventAccepted;
  }

  /** Deleting every refused event, every refused or repeated submission and every refused cancel
      from a run changes nothing but the counter, which counts exactly the refused events. */
  lemma {:induction false} RefusalsLeaveNoTrace(cfg: ExchangeConfig, s: Exchange, actions: seq<Action>)
    requires WellFormed(s.orders)
    ensures Run(cfg, s, actions)
         == Ignoring(Run(cfg, s, EffectiveOnly(cfg, s, actions)), s.ignored + RefusedEvents(cfg, s, actions))
    ensures Run(cfg, s, EffectiveOnly(cfg, s, actions)).ignored == s.ignored
    decreases |actions|
  {
    hide Step, Effective;
    if actions != [] {
      var next, rest := Step(cfg, s, actions[0]), actions[1..];
      var kept := EffectiveOnly(cfg, next, rest);
      RefusalsLeaveNoTrace(cfg, next, rest);
      if Effective(cfg, s, actions[0]) {
        EffectiveKeepsCounter(cfg, s, actions[0]);
        assert ([actions[0]] + kept)[1..] == kept;
      } else {
        RefusalChangesCounterOnly(cfg, s, actions[0]);
        RunIgnoresCounter(cfg, s, next.ignored, rest);
        RunIgnoresCounter(cfg, s, next.ignored, kept);
        EffectiveRunKeepsCounter(cfg, s, rest);
      }
    }
  }

  lemma {:induction false} EffectiveRunKeepsCounter(cfg: ExchangeConfig, s: Exchange, actions: seq<Action>)
    requires WellFormed(s.orders)
    ensures Run(cfg, s, EffectiveOnly(cfg, s, actions)).ignored == s.ignored
    decreases |actions|
  {
    hide Step, Effective;
    if actions != [] {
      var next, rest := Step(cfg, s, actions[0]), actions[1..];
      var kept := EffectiveOnly(cfg, next, rest);
      if Effective(cfg, s, actions[0]) {
        EffectiveRunKeepsCounter(cfg, next, rest);
        EffectiveKeepsCounter(cfg, s, actions[0]);
        assert ([actions[0]] + kept)[1..] == kept;
      } else {
        RefusalChangesCounterOnly(cfg, s, actions[0]);
        RunIgnoresCounter(cfg, s, next.ignored, rest);
        EffectiveRunKeepsCounter(cfg, s, rest);
      }
    }
  }

  /** Any event heard before is ignored when it is delivered again, however much later. */
  lemma RedeliveryIsIgnored(cfg: ExchangeConfig, actions: seq<Action>, q: nat)
    requires q in Heard(cfg, InitialExchange(cfg), map[], actions)
    ensures var s := Reached(cfg, actions);
            var e := Heard(cfg, InitialExchange(cfg), map[], actions)[q];
            OnMarketEvent(cfg, s, e) == (Ignoring(s, s.ignored + 1), false)
  {
    hide Run, Heard, LegallyFilled;
    EveryFillIsLegal(cfg, actions);
  }

  /** The first order with a client order id, by scanning. */
  function Scan(orders: seq<PaperOrder>, clientOrderId: string, from: nat): (k: Option<nat>)
    requires from <= |orders|
    ensures match k
            case Some(i) => from <= i < |orders| && orders[i].request.clientOrderId == clientOrderId
                            && forall j :: from <= j < i ==> orders[j].request.clientOrderId != clientOrderId
            case None => forall j :: from <= j < |orders| ==> orders[j].request.clientOrderId != clientOrderId
    decreases |orders| - from
  {
    if from == |orders| then None
    else if orders[from].request.clientOrderId == clientOrderId then Some(from)
    else Scan(orders, clientOrderId, from + 1)
  }

  /** The id index answers like a linear scan of the orders, in every reachable state, and no two
      orders share a client order id. */
  lemma IndexAgreesWithScan(cfg: ExchangeConfig, actions: seq<Action>, clientOrderId: string)
    ensures var s := Reached(cfg, actions);
            && FindOrder(s, clientOrderId) == Scan(s.orders, clientOrderId, 0)
            && forall i, j :: 0 <= i < j < |s.orders| ==>
                 s.orders[i].request.clientOrderId != s.orders[j].request.clientOrderId
  {
    hide Run, BooksInv;
    ReachedInv(cfg, actions);
    var s := Reached(cfg, actions);
    var k := Scan(s.orders, clientOrderId, 0);
    if k.Some? {
      assert s.orders[k.value].request.clientOrderId in s.index;
    }
  }

  /** The answer to a submission is true: a new or repeated id gets the number and the status of the
      one order with that id, and a refused one gets no number and leaves no order. */
  lemma SubmissionIsAnsweredTruly(cfg: ExchangeConfig, actions: seq<Action>, request: OrderRequest, decisionTime: int)
    ensures var s := Reached(cfg, actions);
            var (s', result) := Submit(cfg, s, request, decisionTime);
            var k := FindOrder(s', request.clientOrderId);
            && (k.Some? <==> result.orderId != 0)
            && (k.Some? ==> result.orderId == s'.orders[k.value].orderId && result.status == s'.orders[k.value].status)
            && (k.None? ==> result.status == Rejected)
            && (result.duplicate <==> FindOrder(s, request.clientOrderId).Some?)
            && (result.duplicate ==> s' == s)
  {
    hide Run, BooksInv, Entered, Evaluate, CheckedWideNotional;
    ReachedInv(cfg, actions);
    var s := Reached(cfg, actions);
    if FindOrder(s, request.clientOrderId).Some? {
      OrdersAreGood(cfg, s.books, s.orders, FindOrder(s, request.clientOrderId).value);
    } else if SubmitProblem(cfg, s, request, decisionTime) == NoProblem {
      SubmitKeepsInv(cfg, s, request, decisionTime);
      var s' := Submit(cfg, s, request, decisionTime).0;
      OrdersAreGood(cfg, s'.books, s'.orders, |s.orders|);
    }
  }

  /** Submitting the same id again, at any later point of any run, changes nothing and names the
      original order. */
  lemma ResubmissionNamesTheOriginal(cfg: ExchangeConfig, actions: seq<Action>, more: seq<Action>, k: nat,
                                     request: OrderRequest, decisionTime: int)
    requires k < |Reached(cfg, actions).orders|
    requires request.clientOrderId == Reached(cfg, actions).orders[k].request.clientOrderId
    ensures var s := Run(cfg, Reached(cfg, actions), more);
            var (s', result) := Submit(cfg, s, request, decisionTime);
            s' == s && result.duplicate && result.orderId == k + 1 && k < |s.orders| && result.status == s.orders[k].status
  {
    hide Run, BooksInv;
    ReachedInv(cfg, actions);
    RunKeepsInv(cfg, Reached(cfg, actions), more);
    var s := Run(cfg, Reached(cfg, actions), more);
    assert Evolves(Reached(cfg, actions).orders[k], s.orders[k]);
    OrdersAreGood(cfg, s.books, s.orders, k);
  }
}
