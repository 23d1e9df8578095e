/** The exchange object.  Its methods update orders, fills, index, market and ledger in place;
    each is proved to take the step of ExchangeModel. */
module ExchangeObject {
  import opened FixedPoint
  import opened Types
  import opened Risk
  import opened ExchangeModel
  import Ledger

  class PaperExchange {
    const config: ExchangeConfig
    const configValid: bool
    const ledger: Ledger.PerpetualLedger
    var market: Option<MarketEvent>
    var orders: seq<PaperOrder>
    var fills: seq<PaperFill>
    var orderIndex: map<string, nat>
    var nextOrderId: nat
    var nextFillId: nat
    var ignoredMarketEvents: nat

    ghost predicate Valid()
      reads this, ledger
    {
      && ledger.Valid() && ledger.config == config.ledger
      && configValid == ValidConfig(config)
      && WellFormed(orders)
      && (forall id :: id in orderIndex ==> orderIndex[id] < |orders|)
    }

    function CurrentBooks(): Books
      reads this, ledger
    {
      Books(ledger.state, fills, nextFillId)
    }

    function State(): Exchange
      reads this, ledger
    {
      Exchange(market, orders, orderIndex, CurrentBooks(), nextOrderId, ignoredMarketEvents)
    }

    constructor (config: ExchangeConfig)
      ensures Valid() && this.config == config && fresh(ledger)
      ensures State() == InitialExchange(config)
    {
      this.config := config;
      configValid := ValidConfig(config);
      ledger := new Ledger.PerpetualLedger(config.ledger);
      market, orders, fills, orderIndex := None, [], [], map[];
      nextOrderId, nextFillId, ignoredMarketEvents := 1, 1, 0;
    }

    method Reject(k: nat, reason: OrderReason)
      requires Valid() && k < |orders|
      modifies this`orders
      ensures orders == old(orders)[k := Rejecting(old(orders)[k], reason)]
      ensures WellFormed(orders)
    {
      orders := orders[k := orders[k].(status := OrderStatus.Rejected, rejectReason := reason)];
    }

    method Fill(k: nat, wanted: int, price: int, maker: bool, event: MarketEvent)
      requires Valid() && k < |orders|
      modifies this`orders, this`fills, this`nextFillId, ledger
      ensures Valid()
      ensures var (books, order) := FillOrder(config, old(CurrentBooks()), old(orders)[k], wanted, price, maker, event);
              CurrentBooks() == books && orders == old(orders)[k := order]
    {
      var order := orders[k];
      var quantity := Min(wanted, order.remaining);
      if quantity <= 0 {
        assert orders == orders[k := order];
        return;
      }
      var notional := CheckedWideNotional(config.ledger, price, quantity);
      var fee := None;
      if notional.Some? {
        fee := FeeFor(notional.value, if maker then config.makerFeePpm else config.takerFeePpm);
      }
      if fee.None? {
        Reject(k, FillArithmeticOverflow);
        return;
      }
      var mutation := ledger.Apply(SignedQuantity(order.request.side, quantity), price, fee.value);
      if mutation.error != Ok {
        Reject(k, LedgerRefused(mutation.error));
        return;
      }
      var remaining := order.remaining - quantity;
      orders := orders[k := order.(remaining := remaining,
                                   filled := order.filled + quantity,
                                   status := if remaining == 0 then OrderStatus.Filled else PartiallyFilled)];
      fills := fills + [PaperFill(nextFillId, order.orderId, order.request.clientOrderId, event.sequence,
                                  event.exchangeTime, order.request.side, quantity, price, fee.value,
                                  mutation.realized, maker)];
      nextFillId := nextFillId + 1;
    }

    method ActivateAt(k: nat, event: MarketEvent)
      requires Valid() && k < |orders|
      modifies this`orders, this`fills, this`nextFillId, ledger
      ensures Valid()
      ensures var (books, order) := Activate(config, old(CurrentBooks()), old(orders)[k], event);
              CurrentBooks() == books && orders == old(orders)[k := order]
    {
      var order := orders[k];
      assert WellFormedOrder(order);
      var side := order.request.side;
      if IsTerminal(order.status) || event.receiveTime < order.activeTime {
        assert orders == orders[k := order];
        return;
      }
      var cancellationPending := order.status == CancelPending;
      if order.request.orderType == Market {
        var price := SlippedPrice(Touch(side, event), side, config.slippagePpm);
        if price.None? {
          Reject(k, InvalidSlippedPrice);
        } else {
          Fill(k, order.remaining, price.value, false, event);
        }
        return;
      }
      var limit := order.request.limitPrice.value;
      var crosses := Crosses(side, limit, event);
      if order.request.orderType == PostOnly && crosses {
        Reject(k, PostOnlyWouldCross);
        return;
      }
      if crosses {
        Fill(k, order.remaining, Touch(side, event), false, event);
        return;
      }
      var queue := order.queueAhead;
      if side.Buy? && limit == event.bestBid {
        queue := event.bidQuantity;
      } else if side.Sell? && limit == event.bestAsk {
        queue := event.askQuantity;
      }
      orders := orders[k := order.(queueAhead := queue,
                                   status := if cancellationPending then CancelPending else Open)];
    }

    ghost function FloorNow(volume: int): Floor
      reads this, ledger
    {
      Floor(CurrentBooks(), orders, volume)
    }

    method ActivateOrders(event: MarketEvent)
      requires Valid()
      modifies this`orders, this`fills, this`nextFillId, ledger
      ensures Valid()
      ensures forall volume :: FloorNow(volume) == FullPass(config, Activating, old(FloorNow(volume)), event)
    {
      var i := 0;
      while i < |orders|
        invariant Valid() && i <= |orders| == |old(orders)|
        invariant forall volume :: FloorNow(volume) == Pass(config, Activating, old(FloorNow(volume)), i, event)
      {
        var order := orders[i];
        if (order.status == Pending || order.status == CancelPending) && event.receiveTime >= order.activeTime {
          ActivateAt(i, event);
        } else {
          assert orders == orders[i := order];
        }
        i := i + 1;
      }
    }

    method MatchTrade(event: MarketEvent)
      requires Valid()
      modifies this`orders, this`fills, this`nextFillId, ledger
      ensures Valid()
      ensures var floor := FullPass(config, Matching, old(FloorNow(TradedVolume(event))), event);
              CurrentBooks() == floor.books && orders == floor.orders
    {
      if event.tradePrice.None? || event.aggressor.None? || event.tradeQuantity <= 0 {
        NothingToMatch(config, FloorNow(0), |orders|, event);
        return;
      }
      var available := event.tradeQuantity;
      var i := 0;
      while i < |orders|
        invariant Valid() && i <= |orders| == |old(orders)|
        invariant FloorNow(available) == Pass(config, Matching, old(FloorNow(TradedVolume(event))), i, event)
      {
        ghost var before := FloorNow(available);
        if available <= 0 {
          break;
        }
        var order := orders[i];
        assert WellFormedOrder(order);
        var sideMatches := order.request.side != event.aggressor.value;
        if (order.status != Open && order.status != PartiallyFilled && order.status != CancelPending) ||
           event.receiveTime < order.activeTime || order.request.orderType == Market || !sideMatches ||
           !(if order.request.side.Buy? then event.tradePrice.value <= order.request.limitPrice.value
             else event.tradePrice.value >= order.request.limitPrice.value) {
          assert !Reaches(order, event);
          assert orders == orders[i := order];
        } else {
          assert Reaches(order, event);
          var aheadConsumed := Min(order.queueAhead, available);
          orders := orders[i := order.(queueAhead := order.queueAhead - aheadConsumed)];
          available := available - aheadConsumed;
          if available > 0 {
            var quantity := Min(order.remaining, available);
            ghost var waiting := orders;
            Fill(i, quantity, order.request.limitPrice.value, true, event);
            available := available - quantity;
            assert waiting[i := orders[i]] == before.orders[i := orders[i]];
          }
        }
        assert FloorNow(available) == VisitAt(config, Matching, before, i, event);
        i := i + 1;
      }
      if i < |orders| {
        NoVolumeLeft(config, old(FloorNow(TradedVolume(event))), i, |orders|, event);
      }
    }

    method ApplyDueCancels(event: MarketEvent)
      requires Valid()
      modifies this`orders
      ensures Valid()
      ensures forall volume :: FloorNow(volume) == FullPass(config, Cancelling, old(FloorNow(volume)), event)
    {
      var i := 0;
      while i < |orders|
        invariant Valid() && i <= |orders| == |old(orders)|
        invariant forall volume :: FloorNow(volume) == Pass(config, Cancelling, old(FloorNow(volume)), i, event)
      {
        var order := orders[i];
        if order.status == CancelPending && order.cancelDue.Some? && event.receiveTime >= order.cancelDue.value {
          orders := orders[i := order.(status := OrderStatus.Cancelled, remaining := 0)];
        } else {
          assert orders == orders[i := order];
        }
        i := i + 1;
      }
    }

    method HandleMarketEvent(event: MarketEvent) returns (accepted: bool)
      requires Valid()
      modifies this, ledger
      ensures Valid()
      ensures (State(), accepted) == OnMarketEvent(config, old(State()), event)
    {
      if !configValid || event.sequence == 0 ||
         (market.Some? && event.sequence <= market.value.sequence) ||
         event.exchangeTime <= 0 || event.receiveTime < event.exchangeTime ||
         event.bestBid <= 0 || event.bestAsk < event.bestBid {
        ignoredMarketEvents := ignoredMarketEvents + 1;
        return false;
      }
      ghost var volume := TradedVolume(event);
      market := Some(event);
      ActivateOrders(event);
      assert FloorNow(volume) == Activated(config, old(State()), event);
      MatchTrade(event);
      ghost var left := Matched(config, old(State()), event).volume;
      assert FloorNow(left) == Matched(config, old(State()), event);
      ApplyDueCancels(event);
      assert FloorNow(left) == Processed(config, old(State()), event);
      var _ := ledger.Mark(Midpoint(event));
      accepted := true;
    }

    method SubmitOrder(request: OrderRequest, decisionTime: int) returns (result: SubmitResult)
      requires Valid()
      modifies this, ledger
      ensures Valid()
      ensures (State(), result) == Submit(config, old(State()), request, decisionTime)
    {
      hide Evaluate, CheckedWideNotional, Activate, NormalizedQuantity;
      if request.clientOrderId in orderIndex {
        var existing := orders[orderIndex[request.clientOrderId]];
        return SubmitResult(existing.orderId, existing.status, true, DuplicateClientOrderId);
      }
      if !configValid {
        return SubmitRefused(BadConfiguration);
      }
      if market.None? {
        return SubmitRefused(MarketUnavailable);
      }
      if request.clientOrderId == "" {
        return SubmitRefused(EmptyClientOrderId);
      }
      if request.orderType != Market && (request.limitPrice.None? || request.limitPrice.value <= 0) {
        return SubmitRefused(InvalidLimitPrice);
      }
      var risk := Evaluate(config.risk, config.ledger, request, market.value, ledger.state, decisionTime);
      if risk != Accept {
        return SubmitRefused(RiskRefused(risk));
      }
      var quantity := NormalizedQuantity(config, request.quantity);
      if quantity <= 0 {
        return SubmitRefused(QuantityBelowStep);
      }
      var normalized := request.(quantity := quantity);
      var notional := CheckedWideNotional(config.ledger, ReferencePrice(normalized, market.value), quantity);
      if notional.None? {
        return SubmitRefused(NotionalOverflow);
      }
      if notional.value < config.minimumNotional {
        return SubmitRefused(MinimumNotional);
      }
      assert SubmitProblem(config, State(), request, decisionTime) == NoProblem;
      var order := PaperOrder(nextOrderId, normalized, Pending, quantity, 0, 0,
                              decisionTime + config.acknowledgementLatency, None, NoReason);
      var k := |orders|;
      nextOrderId := nextOrderId + 1;
      orderIndex := orderIndex[request.clientOrderId := k];
      orders := orders + [order];
      if config.acknowledgementLatency == 0 {
        ActivateAt(k, market.value);
      }
      var stored := orders[k];
      assert orders == old(orders) + [stored];
      result := SubmitResult(stored.orderId, stored.status, false,
                             if stored.rejectReason == NoReason then NoProblem else OrderProblem(stored.rejectReason));
    }

    method RequestCancel(clientOrderId: string, requestTime: int) returns (requested: bool)
      requires Valid()
      modifies this`orders
      ensures Valid()
      ensures (State(), requested) == Cancel(config, old(State()), clientOrderId, requestTime)
    {
      if clientOrderId !in orderIndex {
        return false;
      }
      var k := orderIndex[clientOrderId];
      if IsTerminal(orders[k].status) || orders[k].status == CancelPending {
        return false;
      }
      orders := orders[k := orders[k].(status := CancelPending,
                                       cancelDue := Some(requestTime + config.cancellationLatency))];
      requested := true;
    }
  }

  /** Once the volume is used up the rest of the pass does nothing. */
  lemma {:induction false} NoVolumeLeft(cfg: ExchangeConfig, floor: Floor, i: nat, n: nat, event: MarketEvent)
    requires i <= n <= |floor.orders| && WellFormed(floor.orders)
    requires Pass(cfg, Matching, floor, i, event).volume <= 0
    ensures Pass(cfg, Matching, floor, n, event) == Pass(cfg, Matching, floor, i, event)
  {
    if i < n {
      NoVolumeLeft(cfg, floor, i, n - 1, event);
      var used := Pass(cfg, Matching, floor, i, event);
      assert used.orders[n - 1 := used.orders[n - 1]] == used.orders;
    }
  }
}
