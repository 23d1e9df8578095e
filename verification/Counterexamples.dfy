/** Concrete runs showing where natural guarantees stop: several live orders against the position
    limit, and cancel requests or malformed sizes against the queue guarantee. */
module Counterexamples {
  import opened FixedPoint
  import opened Types
  import opened LedgerModel
  import opened Risk
  import opened ExchangeModel
  import opened ExchangeInvariants
  import opened ExchangeTheorems
  import opened QueuePosition

  function TinyLedger(): LedgerConfig {
    LedgerConfig(1000, 0, 0, 0)
  }

  /** Unit scales, no fees, no latency, and a position limit (none when it is zero). */
  function TinyConfig(limit: nat): ExchangeConfig {
    ExchangeConfig(TinyLedger(), RiskLimits(0, 0, limit, 0, 0, 0), 1, 0, 0, 0, 0, 0, 0)
  }

  function Quote(sequence: nat, bidQuantity: int): MarketEvent {
    MarketEvent(sequence, sequence, sequence, 1, 3, bidQuantity, 0, None, 0, None)
  }

  function SoldAtOne(sequence: nat, bidQuantity: int, quantity: int): MarketEvent {
    MarketEvent(sequence, sequence, sequence, 1, 3, bidQuantity, 0, Some(1), quantity, Some(Sell))
  }

  function Bid(id: string, quantity: int): OrderRequest {
    OrderRequest(id, Buy, Limit, quantity, Some(1), 0, false)
  }

  function RestingBid(id: nat, name: string, quantity: int, queue: int): PaperOrder {
    PaperOrder(id, Bid(name, quantity), Open, quantity, 0, queue, 1, None, NoReason)
  }

  lemma FirstQuote(limit: nat, bidQuantity: int)
    ensures var s := Step(TinyConfig(limit), InitialExchange(TinyConfig(limit)), Event(Quote(1, bidQuantity)));
            && s.market == Some(Quote(1, bidQuantity)) && s.orders == [] && s.index == map[]
            && s.books == Books(LedgerState(1000, 0, 0, 0, 0, 0, 0, 1000, 2), [], 1)
            && s.nextOrderId == 1
  {
    assert Pow10(0) == 1;
  }

  lemma UnitNotional(quantity: nat)
    ensures ExactNotional(TinyLedger(), quantity, 1) == quantity
    ensures ScaleUp(TinyLedger()) == 1 && ScaleDown(TinyLedger()) == 1
    ensures WideNotional(TinyLedger(), quantity, 1) == quantity
  {
    assert Pow10(0) == 1;
  }

  lemma BidPasses(limit: nat, s: Exchange, id: string, quantity: int)
    requires s.market.Some? && s.market.value == Quote(1, s.market.value.bidQuantity)
    requires s.books.ledger.position == 0 && id != "" && id !in s.index
    requires (limit == 1 && quantity == 1) || (limit == 0 && 1 <= quantity <= 2)
    ensures SubmitProblem(TinyConfig(limit), s, Bid(id, quantity), 1) == NoProblem
  {
    hide WideNotional;
    UnitNotional(quantity);
    assert NormalizedQuantity(TinyConfig(limit), quantity) == quantity;
    assert Evaluate(TinyConfig(limit).risk, TinyLedger(), Bid(id, quantity), s.market.value, s.books.ledger, 1) == Accept;
  }

  lemma BidRests(limit: nat, s: Exchange, id: string, quantity: int)
    requires WellFormed(s.orders) && s.market.Some? && s.market.value == Quote(1, s.market.value.bidQuantity)
    requires s.books.ledger.position == 0 && id != "" && id !in s.index
    requires (limit == 1 && quantity == 1) || (limit == 0 && 1 <= quantity <= 2)
    ensures Step(TinyConfig(limit), s, SubmitOrder(Bid(id, quantity), 1))
         == WithOrder(s, RestingBid(s.nextOrderId, id, quantity, s.market.value.bidQuantity))
  {
    hide SubmitProblem, FillOrder, Run;
    BidPasses(limit, s, id, quantity);
    assert NormalizedQuantity(TinyConfig(limit), quantity) == quantity;
  }

  function Bought(position: nat, mark: int): LedgerState {
    var gain := if mark == 2 then position else 0;
    LedgerState(1000, position, position, if position == 0 then 0 else 1, 0, gain, 0, 1000 + gain, mark)
  }

  lemma SettleOne(position: nat)
    requires position <= 1
    ensures Settle(TinyLedger(), position, position, 1, 1) == Some(Settlement(position + 1, position + 1, 0))
  {
    hide ExactNotional, SettleClosing;
    assert ExactNotional(TinyLedger(), 1, 1) == 1 by { UnitNotional(1); }
  }

  lemma AverageOne(position: nat)
    requires 0 < position <= 2
    ensures AverageEntry(TinyLedger(), position, position) == Some(1)
  {
    hide ScaleUp, ScaleDown;
    UnitNotional(position);
  }

  lemma MarkAtOne(st: LedgerState)
    requires 0 <= st.position == st.cost <= 2 && st.cash == 1000
    ensures RefreshMark(TinyLedger(), st, 1) == (st.(unrealized := 0, equity := 1000, lastMark := 1), Ok)
  {
    hide ExactNotional;
    UnitNotional(st.position);
  }

  lemma BuyOne(position: nat, mark: int)
    requires position <= 1 && (mark == 1 || mark == 2)
    ensures ApplyFill(TinyLedger(), Bought(position, mark), 1, 1, 0)
         == (Bought(position + 1, 1), LedgerMutation(Ok, 0, 0))
  {
    hide Settle, AverageEntry, RefreshMark;
    SettleOne(position);
    AverageOne(position + 1);
    var st := Bought(position, mark);
    var booked := st.(position := position + 1, cost := position + 1, averageEntry := 1);
    assert Booked(TinyLedger(), st, Settlement(position + 1, position + 1, 0), 0) == Some(booked);
    MarkAtOne(booked);
  }

  /** A live bid at price one buys one unit from a trade that leaves it just that, or that it has
      left to buy. */
  lemma BidFills(limit: nat, b: Books, o: PaperOrder, e: MarketEvent, volume: int, position: nat, mark: int)
    requires position <= 1 && (mark == 1 || mark == 2) && b.ledger == Bought(position, mark)
    requires o.request.side == Buy && o.request.orderType == Limit && o.request.limitPrice == Some(1)
    requires o.filled == 0 && o.activeTime <= e.receiveTime
    requires o.status == Open || o.status == CancelPending
    requires e.tradePrice == Some(1) && e.aggressor == Some(Sell)
    requires volume > 0 && Min(o.remaining, volume - Min(o.queueAhead, volume)) == 1
    ensures var r := MatchOne(TinyConfig(limit), b, o, e, volume);
            && r.0.ledger == Bought(position + 1, 1)
            && r.1.filled == 1 && r.1.status == (if o.remaining == 1 then OrderStatus.Filled else PartiallyFilled)
            && r.2 == volume - Min(o.queueAhead, volume) - 1
  {
    hide ApplyFill, WideNotional;
    BuyOne(position, mark);
    UnitNotional(1);
    assert FillFee(TinyConfig(limit), 1, 1, true) == Some(0);
  }

  /** Two bids that rest together both fill in one trade. */
  lemma TwoBidsFill(s: Exchange, e: MarketEvent, queue: int)
    requires |s.orders| == 2 && s.books.ledger == Bought(0, 2)
    requires s.orders[0] == RestingBid(1, "a", 1, queue) && s.orders[1] == RestingBid(2, "b", 1, queue)
    requires queue == 0 || queue == -5
    requires e.receiveTime >= 1 && e.tradePrice == Some(1) && e.aggressor == Some(Sell)
    requires e.tradeQuantity == if queue == 0 then 2 else 1
    ensures var floor := Matched(TinyConfig(1), s, e);
            floor.orders[0].filled == 1 && floor.orders[1].filled == 1 && floor.books.ledger.position == 2
  {
    hide MatchOne, ApplyFill;
    var cfg := TinyConfig(1);
    NothingToActivate(cfg, Opening(s, e), 2, e);
    BidFills(1, s.books, s.orders[0], e, e.tradeQuantity, 0, 2);
    assert Pass(cfg, Matching, Opening(s, e), 0, e) == Opening(s, e);
    var first := Pass(cfg, Matching, Opening(s, e), 1, e);
    assert first == VisitAt(cfg, Matching, Opening(s, e), 0, e);
    BidFills(1, first.books, first.orders[1], e, first.volume, 1, 1);
    assert Pass(cfg, Matching, Opening(s, e), 2, e) == VisitAt(cfg, Matching, first, 1, e);
  }

  /** A quote, two bids resting together, and a sell trade. */
  function TwoBids(queue: int, traded: int): seq<Action> {
    [Event(Quote(1, queue)), SubmitOrder(Bid("a", 1), 1), SubmitOrder(Bid("b", 1), 1),
     Event(SoldAtOne(2, queue, traded))]
  }

  lemma BeforeTheTrade(queue: int)
    ensures var cfg := TinyConfig(1);
            var s1 := Step(cfg, InitialExchange(cfg), Event(Quote(1, queue)));
            var s2 := WithOrder(s1, RestingBid(1, "a", 1, queue));
            var s3 := WithOrder(s2, RestingBid(2, "b", 1, queue));
            && s1.market == Some(Quote(1, queue))
            && Step(cfg, s1, SubmitOrder(Bid("a", 1), 1)) == s2
            && Step(cfg, s2, SubmitOrder(Bid("b", 1), 1)) == s3
            && s3.orders == [RestingBid(1, "a", 1, queue), RestingBid(2, "b", 1, queue)]
            && s3.books == Books(Bought(0, 2), [], 1)
  {
    hide Step;
    var cfg := TinyConfig(1);
    FirstQuote(1, queue);
    var s1 := Step(cfg, InitialExchange(cfg), Event(Quote(1, queue)));
    BidRests(1, s1, "a", 1);
    BidRests(1, WithOrder(s1, RestingBid(1, "a", 1, queue)), "b", 1);
  }

  lemma TradeStep(cfg: ExchangeConfig, s: Exchange, e: MarketEvent)
    requires WellFormed(s.orders) && EventAccepted(cfg, s, e)
    ensures var s', m := Step(cfg, s, Event(e)), Matched(cfg, s, e);
            && |s'.orders| == |s.orders|
            && s'.books.ledger.position == m.books.ledger.position
            && forall k :: 0 <= k < |s.orders| ==> s'.orders[k] == CancelIfDue(m.orders[k], e)
  {
    hide Matched, Pass;
    forall k | 0 <= k < |s.orders|
      ensures Processed(cfg, s, e).orders[k] == CancelIfDue(Matched(cfg, s, e).orders[k], e)
    {
      ProcessedOrder(cfg, s, k, e);
    }
    CancellingKeepsBooks(cfg, Matched(cfg, s, e), |s.orders|, e);
  }

  lemma AfterTwoBids(queue: int, traded: int)
    requires (queue == 0 && traded == 2) || (queue == -5 && traded == 1)
    ensures var s := Reached(TinyConfig(1), TwoBids(queue, traded));
            && |s.orders| == 2 && s.books.ledger.position == 2
            && s.orders[0].filled == 1 && s.orders[1].filled == 1
  {
    hide Step, Matched;
    var cfg, e := TinyConfig(1), SoldAtOne(2, queue, traded);
    BeforeTheTrade(queue);
    var s1 := Step(cfg, InitialExchange(cfg), Event(Quote(1, queue)));
    var s2 := WithOrder(s1, RestingBid(1, "a", 1, queue));
    var s3 := WithOrder(s2, RestingBid(2, "b", 1, queue));
    TwoBidsFill(s3, e, queue);
    assert s3.market == s1.market;
    TradeStep(cfg, s3, e);
    RunFour(cfg, InitialExchange(cfg), TwoBids(queue, traded));
  }

  lemma RunFour(cfg: ExchangeConfig, s: Exchange, actions: seq<Action>)
    requires |actions| == 4 && WellFormed(s.orders)
    ensures Run(cfg, s, actions)
         == Step(cfg, Step(cfg, Step(cfg, Step(cfg, s, actions[0]), actions[1]), actions[2]), actions[3])
  {
    hide Step;
    var two := Step(cfg, Step(cfg, s, actions[0]), actions[1]);
    assert Run(cfg, s, actions) == Run(cfg, Step(cfg, s, actions[0]), actions[1..]);
    assert Run(cfg, Step(cfg, s, actions[0]), actions[1..]) == Run(cfg, two, actions[1..][1..]);
    RunTwo(cfg, two, actions[1..][1..]);
  }

  lemma RunTwo(cfg: ExchangeConfig, s: Exchange, actions: seq<Action>)
    requires |actions| == 2 && WellFormed(s.orders)
    ensures Run(cfg, s, actions) == Step(cfg, Step(cfg, s, actions[0]), actions[1])
  {
    hide Step;
    var one := Step(cfg, s, actions[0]);
    assert Run(cfg, s, actions) == Run(cfg, one, actions[1..]);
    assert Run(cfg, one, actions[1..]) == Run(cfg, Step(cfg, one, actions[1]), actions[1..][1..]);
  }

  /** The position limit is not kept in general: the gate looks at the position and not at live
      orders, so two bids that rest together break a limit of one. */
  lemma TwoLiveOrdersBreakTheLimit()
    ensures var cfg := TinyConfig(1);
            && ValidConfig(cfg) && cfg.risk.maxPosition == 1
            && Magnitude(Reached(cfg, TwoBids(0, 2)).books.ledger.position) > cfg.risk.maxPosition
  {
    hide Run;
    AfterTwoBids(0, 2);
  }

  /** Displayed sizes that are negative let one trade fill more than was traded. */
  lemma NegativeSizesFillMoreThanTraded()
    ensures var cfg, actions := TinyConfig(1), TwoBids(-5, 1);
            var s := Reached(cfg, actions);
            && actions[3].event.tradeQuantity == 1
            && |s.orders| == 2 && s.orders[0].filled + s.orders[1].filled == 2
  {
    hide Run;
    AfterTwoBids(-5, 1);
  }

  /** A quote with some units ahead, a bid behind them, a cancel request, and a sale of one unit after
      the displayed size has gone. */
  function BidThenCancel(quantity: int, queue: int): seq<Action> {
    [Event(Quote(1, queue)), SubmitOrder(Bid("a", quantity), 1), CancelOrder("a", 1), Event(SoldAtOne(2, 0, 1))]
  }

  lemma RequeuedBidFills(s: Exchange, quantity: int, queue: int)
    requires |s.orders| == 1 && s.books.ledger == Bought(0, 2) && 1 <= quantity <= 2
    requires s.orders[0] == RestingBid(1, "a", quantity, queue).(status := CancelPending, cancelDue := Some(1))
    ensures var o := Matched(TinyConfig(0), s, SoldAtOne(2, 0, 1)).orders[0];
            o.filled == 1 && o.status == (if quantity == 1 then OrderStatus.Filled else PartiallyFilled)
  {
    hide MatchOne, ApplyFill;
    var cfg, e := TinyConfig(0), SoldAtOne(2, 0, 1);
    var start := Opening(s, e);
    assert Pass(cfg, Activating, start, 0, e) == start;
    var requeued := Pass(cfg, Activating, start, 1, e);
    assert requeued == VisitAt(cfg, Activating, start, 0, e);
    assert requeued.books == s.books && requeued.volume == 1;
    assert requeued.orders[0] == s.orders[0].(queueAhead := 0);
    assert Pass(cfg, Matching, requeued, 0, e) == requeued;
    BidFills(0, requeued.books, requeued.orders[0], e, 1, 0, 2);
    assert Pass(cfg, Matching, requeued, 1, e) == VisitAt(cfg, Matching, requeued, 0, e);
  }

  lemma AfterBidThenCancel(quantity: int, queue: int)
    requires 1 <= quantity <= 2
    ensures var cfg, actions := TinyConfig(0), BidThenCancel(quantity, queue);
            var s2, s3, s := Run(cfg, InitialExchange(cfg), actions[..2]), Reached(cfg, actions[..3]), Reached(cfg, actions);
            && s2.orders == [RestingBid(1, "a", quantity, queue)]
            && s3.orders == [RestingBid(1, "a", quantity, queue).(status := CancelPending, cancelDue := Some(1))]
            && EventAccepted(cfg, s3, actions[3].event)
            && |s.orders| == 1 && s.orders[0].filled == 1
            && s.orders[0].status == (if quantity == 1 then OrderStatus.Filled else PartiallyFilled)
  {
    hide Step, Matched;
    var cfg, actions, e := TinyConfig(0), BidThenCancel(quantity, queue), SoldAtOne(2, 0, 1);
    FirstQuote(0, queue);
    var s1 := Step(cfg, InitialExchange(cfg), Event(Quote(1, queue)));
    BidRests(0, s1, "a", quantity);
    var s2 := WithOrder(s1, RestingBid(1, "a", quantity, queue));
    CancelStep(s2, quantity, queue);
    var s3 := Step(cfg, s2, CancelOrder("a", 1));
    RequeuedBidFills(s3, quantity, queue);
    TradeStep(cfg, s3, e);
    RunFour(cfg, InitialExchange(cfg), actions);
    RunTwo(cfg, InitialExchange(cfg), actions[..2]);
    RunAppend(cfg, InitialExchange(cfg), actions[..2], CancelOrder("a", 1));
    assert actions[..3] == actions[..2] + [CancelOrder("a", 1)];
  }

  lemma CancelStep(s: Exchange, quantity: int, queue: int)
    requires s.orders == [RestingBid(1, "a", quantity, queue)] && s.index == map["a" := 0]
    ensures var s' := Step(TinyConfig(0), s, CancelOrder("a", 1));
            && s'.orders == [RestingBid(1, "a", quantity, queue).(status := CancelPending, cancelDue := Some(1))]
            && s'.books == s.books && s'.market == s.market
  {
  }

  /** The queue guarantee ends with a cancel request: every event re-activates the order, so it joins
      the queue displayed then.  Here an order behind ten units fills after one unit has traded. */
  lemma CancelRequestSkipsTheQueue()
    ensures var cfg, actions := TinyConfig(0), BidThenCancel(1, 10);
            var s := Reached(cfg, actions);
            && SizedActions(actions)
            && |s.orders| == 1 && s.orders[0].filled == 1
            && Run(cfg, InitialExchange(cfg), actions[..2]).orders == [RestingBid(1, "a", 1, 10)]
  {
    hide Run;
    AfterBidThenCancel(1, 10);
  }

  /** A due cancel request is lost: the order was asked to be cancelled and is due, the event that
      should cancel it is accepted, and it ends partially filled with its cancellation forgotten. */
  lemma DueCancelIsLost()
    ensures var cfg, actions := TinyConfig(0), BidThenCancel(2, 0);
            var before, after := Reached(cfg, actions[..3]), Reached(cfg, actions);
            && |before.orders| == |after.orders| == 1
            && before.orders[0].status == CancelPending
            && before.orders[0].cancelDue == Some(1) && 1 <= actions[3].event.receiveTime
            && EventAccepted(cfg, before, actions[3].event)
            && after.orders[0].status == PartiallyFilled && after.orders[0].filled == 1
            && after.orders[0].remaining == 1
  {
    hide Run, EventAccepted, Inv;
    AfterBidThenCancel(2, 0);
    var cfg, actions := TinyConfig(0), BidThenCancel(2, 0);
    var before, after := Reached(cfg, actions[..3]), Reached(cfg, actions);
    ReachedInv(cfg, actions);
    ReachedOrder(cfg, after, 0);
    assert actions == actions[..3] + actions[3..];
    RunConcat(cfg, InitialExchange(cfg), actions[..3], actions[3..]);
    ReachedInv(cfg, actions[..3]);
    RunKeepsInv(cfg, before, actions[3..]);
    assert Evolves(before.orders[0], after.orders[0]);
  }
}
