/** What every run of the exchange keeps: order lifecycle, the tape of fills, the index. */
module ExchangeInvariants {
  import opened FixedPoint
  import opened Types
  import opened LedgerModel
  import opened LedgerTheorems
  import opened Risk
  import opened ExchangeModel

  // ----- one order -----

  ghost predicate GoodOrder(o: PaperOrder) {
    && 0 < o.request.quantity && 0 <= o.filled
    && (o.request.orderType != Market ==> o.request.limitPrice.Some? && o.request.limitPrice.value > 0)
    && (if o.status == Cancelled then o.remaining == 0 && o.filled < o.request.quantity
        else 0 <= o.remaining && o.filled + o.remaining == o.request.quantity)
    && (o.status == Filled <==> o.filled == o.request.quantity)
    && (o.status == Pending || o.status == Open ==> o.filled == 0)
    && (o.status == Open ==> o.request.orderType != Market)
    && (o.request.orderType == Market && o.filled > 0 ==> o.status == Filled)
    && (o.status == PartiallyFilled ==> 0 < o.filled)
    && (o.status == CancelPending ==> o.cancelDue.Some?)
  }

  /** What any fill of an order looks like on the event that caused it. */
  ghost predicate LegalFill(cfg: ExchangeConfig, o: PaperOrder, f: PaperFill, e: MarketEvent) {
    && f.orderId == o.orderId && f.clientOrderId == o.request.clientOrderId && f.side == o.request.side
    && f.marketSequence == e.sequence && f.exchangeTime == e.exchangeTime
    && e.receiveTime >= o.activeTime
    && 0 < f.quantity && 0 < f.price && 0 <= f.fee
    && f.fee == CeilPpm(ExactNotional(cfg.ledger, f.quantity, f.price)
                        * (if f.maker then cfg.makerFeePpm else cfg.takerFeePpm))
    && LegalPrice(cfg, o.request, f, e)
  }

  ghost predicate LegalPrice(cfg: ExchangeConfig, request: OrderRequest, f: PaperFill, e: MarketEvent) {
    var side := request.side;
    match request.orderType
    case Market =>
      !f.maker && f.quantity == request.quantity
      && SlippedPrice(Touch(side, e), side, cfg.slippagePpm) == Some(f.price)
    case _ =>
      request.limitPrice.Some?
      && (if side.Buy? then f.price <= request.limitPrice.value else f.price >= request.limitPrice.value)
      && (if f.maker then f.price == request.limitPrice.value && TradeOpposes(request, e)
          else request.orderType == Limit && f.price == Touch(side, e))
  }

  /** The order is the same order, later. */
  ghost predicate Evolves(o: PaperOrder, o': PaperOrder) {
    && o'.orderId == o.orderId && o'.request == o.request && o'.activeTime == o.activeTime
    && (IsTerminal(o.status) ==> o' == o)
    && o.filled <= o'.filled
    && (o'.status == Pending ==> o' == o)
  }

  /** One visit to one order: it evolves, and either nothing is booked or exactly one legal fill is. */
  ghost predicate Move(cfg: ExchangeConfig, e: MarketEvent, b: Books, o: PaperOrder, b': Books, o': PaperOrder) {
    && Evolves(o, o') && GoodOrder(o')
    && (o.cancelDue == o'.cancelDue)
    && (if b' == b then o'.filled == o.filled && 0 <= o'.remaining <= o.remaining else Booking(cfg, e, b, o, b', o'))
  }

  ghost predicate Booking(cfg: ExchangeConfig, e: MarketEvent, b: Books, o: PaperOrder, b': Books, o': PaperOrder) {
    && |b'.fills| == |b.fills| + 1 && b'.fills == b.fills + [b'.fills[|b.fills|]]
    && b'.nextFillId == b.nextFillId + 1
    && var f := b'.fills[|b.fills|];
    && f.fillId == b.nextFillId && LegalFill(cfg, o, f, e)
    && o'.filled == o.filled + f.quantity && o'.remaining == o.remaining - f.quantity
    && FillOnLedger(cfg, b.ledger, f, b'.ledger)
  }

  ghost predicate FillOnLedger(cfg: ExchangeConfig, st: LedgerState, f: PaperFill, st': LedgerState) {
    var (ledger, mutation) := ApplyFill(cfg.ledger, st, SignedQuantity(f.side, f.quantity), f.price, f.fee);
    mutation.error == Ok && ledger == st' && mutation.realized == f.realized
  }

  /** A fill that reaches the ledger was priced with the exact notional, whatever the scales. */
  lemma FeeIsExact(cfg: ExchangeConfig, st: LedgerState, quantity: int, price: int, maker: bool, side: Side)
    requires quantity > 0 && FillFee(cfg, quantity, price, maker).Some?
    requires FillSucceeds(cfg.ledger, st, SignedQuantity(side, quantity), price, FillFee(cfg, quantity, price, maker).value)
    ensures FillFee(cfg, quantity, price, maker).value
         == CeilPpm(ExactNotional(cfg.ledger, quantity, price) * (if maker then cfg.makerFeePpm else cfg.takerFeePpm))
  {
    var signed := SignedQuantity(side, quantity);
    SuccessfulFillFits(cfg.ledger, st, signed, price, FillFee(cfg, quantity, price, maker).value);
    NotionalOfMagnitude(cfg.ledger, signed, price);
    RepresentableNotionalsAgree(cfg.ledger, signed, price);
    assert WideNotional(cfg.ledger, quantity, price) == WideNotional(cfg.ledger, signed, price);
  }

  lemma FillMoves(cfg: ExchangeConfig, b: Books, o: PaperOrder, wanted: int, price: int, maker: bool, e: MarketEvent)
    requires GoodOrder(o) && !IsTerminal(o.status) && wanted > 0
    requires e.receiveTime >= o.activeTime
    requires o.request.orderType == Market ==> wanted == o.remaining && o.filled == 0
    requires forall f: PaperFill :: f.quantity == Min(wanted, o.remaining) && f.price == price && f.maker == maker
                                    ==> LegalPrice(cfg, o.request, f, e)
    ensures var (b', o') := FillOrder(cfg, b, o, wanted, price, maker, e); Move(cfg, e, b, o, b', o')
    ensures FillOrder(cfg, b, o, wanted, price, maker, e).1.status != Pending
    ensures FillOrder(cfg, b, o, wanted, price, maker, e).1.queueAhead == o.queueAhead
  {
    var quantity := Min(wanted, o.remaining);
    var fee := FillFee(cfg, quantity, price, maker);
    if fee.Some? {
      var signed := SignedQuantity(o.request.side, quantity);
      if FillSucceeds(cfg.ledger, b.ledger, signed, price, fee.value) {
        FeeIsExact(cfg, b.ledger, quantity, price, maker, o.request.side);
      }
    }
  }

  lemma ActivateMoves(cfg: ExchangeConfig, b: Books, o: PaperOrder, e: MarketEvent)
    requires GoodOrder(o) && (o.status == Pending || o.status == CancelPending)
    ensures var (b', o') := Activate(cfg, b, o, e);
            Move(cfg, e, b, o, b', o') && (e.receiveTime >= o.activeTime ==> o'.status != Pending)
  {
    var side := o.request.side;
    if e.receiveTime >= o.activeTime {
      if o.request.orderType == Market {
        var price := SlippedPrice(Touch(side, e), side, cfg.slippagePpm);
        if price.Some? {
          FillMoves(cfg, b, o, o.remaining, price.value, false, e);
        }
      } else if Crosses(side, o.request.limitPrice.value, e) && o.request.orderType == Limit {
        FillMoves(cfg, b, o, o.remaining, Touch(side, e), false, e);
      }
    }
  }

  lemma MatchMoves(cfg: ExchangeConfig, b: Books, o: PaperOrder, e: MarketEvent, volume: int)
    requires GoodOrder(o)
    ensures var (b', o', left) := MatchOne(cfg, b, o, e, volume); Move(cfg, e, b, o, b', o')
  {
    if volume > 0 && Reaches(o, e) {
      var ahead := Min(o.queueAhead, volume);
      var waiting := o.(queueAhead := o.queueAhead - ahead);
      if volume - ahead > 0 {
        FillMoves(cfg, b, waiting, Min(o.remaining, volume - ahead), o.request.limitPrice.value, true, e);
      }
    }
  }

  lemma VisitMoves(cfg: ExchangeConfig, phase: Phase, b: Books, o: PaperOrder, volume: int, e: MarketEvent)
    requires GoodOrder(o)
    ensures var (b', o', left) := Visit(cfg, phase, b, o, volume, e); Move(cfg, e, b, o, b', o')
  {
    match phase
    case Activating => if CanActivate(o, e) { ActivateMoves(cfg, b, o, e); }
    case Matching => MatchMoves(cfg, b, o, e, volume);
    case Cancelling =>
  }

  // ----- the books against the orders -----

  /** The quantity of an order's fills on the tape. */
  function FilledBy(fills: seq<PaperFill>, orderId: nat): int {
    if fills == [] then 0
    else FilledBy(fills[..|fills| - 1], orderId)
         + (if fills[|fills| - 1].orderId == orderId then fills[|fills| - 1].quantity else 0)
  }

  /** The signed quantity all orders have filled. */
  function SignedFilled(orders: seq<PaperOrder>): int {
    if orders == [] then 0
    else SignedFilled(orders[..|orders| - 1])
         + SignedQuantity(orders[|orders| - 1].request.side, orders[|orders| - 1].filled)
  }

  /** The ledger obtained by applying a tape of fills to the initial ledger, if each fill is accepted
      and yields the profit the tape records. */
  function TapeLedger(cfg: ExchangeConfig, fills: seq<PaperFill>): Option<LedgerState> {
    if fills == [] then Some(InitialLedger(cfg.ledger))
    else
      var before := TapeLedger(cfg, fills[..|fills| - 1]);
      var f := fills[|fills| - 1];
      if before.None? then None
      else
        var (ledger, mutation) :=
          ApplyFill(cfg.ledger, before.value, SignedQuantity(f.side, f.quantity), f.price, f.fee);
        if mutation == LedgerMutation(Ok, f.realized, f.fee) then Some(ledger) else None
  }

  ghost predicate TapeExplains(cfg: ExchangeConfig, b: Books) {
    TapeLedger(cfg, b.fills).Some? && SameBooks(TapeLedger(cfg, b.fills).value, b.ledger)
  }

  ghost predicate NumberedOrders(orders: seq<PaperOrder>) {
    forall k :: 0 <= k < |orders| ==> orders[k].orderId == k + 1 && GoodOrder(orders[k])
  }

  ghost predicate FillsAddUp(b: Books, orders: seq<PaperOrder>) {
    && (forall k :: 0 <= k < |orders| ==> FilledBy(b.fills, k + 1) == orders[k].filled)
    && (forall i :: 0 <= i < |b.fills| ==> b.fills[i].fillId == i + 1 && 1 <= b.fills[i].orderId <= |orders|)
  }

  ghost predicate BooksInv(cfg: ExchangeConfig, b: Books, orders: seq<PaperOrder>) {
    && NumberedOrders(orders) && FillsAddUp(b, orders)
    && b.nextFillId == |b.fills| + 1
    && Balanced(cfg.ledger, b.ledger)
    && b.ledger.position == SignedFilled(orders)
    && TapeExplains(cfg, b)
  }

  lemma {:induction false} SignedFilledUpdate(orders: seq<PaperOrder>, k: nat, o: PaperOrder)
    requires k < |orders| && o.request == orders[k].request
    ensures SignedFilled(orders[k := o])
         == SignedFilled(orders) + SignedQuantity(o.request.side, o.filled - orders[k].filled)
  {
    var n := |orders| - 1;
    if k < n {
      SignedFilledUpdate(orders[..n], k, o);
      assert orders[k := o][..n] == orders[..n][k := o];
    } else {
      assert orders[k := o][..n] == orders[..n];
    }
  }

  lemma BookingKeepsTape(cfg: ExchangeConfig, b: Books, f: PaperFill, ledger: LedgerState)
    requires TapeExplains(cfg, b) && FillOnLedger(cfg, b.ledger, f, ledger)
    ensures TapeExplains(cfg, Books(ledger, b.fills + [f], b.nextFillId + 1))
  {
    var fills := b.fills + [f];
    assert fills[..|fills| - 1] == b.fills;
    FillReadsBooksOnly(cfg.ledger, TapeLedger(cfg, b.fills).value, b.ledger,
                       SignedQuantity(f.side, f.quantity), f.price, f.fee);
    FillReportsFee(cfg.ledger, b.ledger, SignedQuantity(f.side, f.quantity), f.price, f.fee);
  }

  lemma FillReportsFee(cfg: LedgerConfig, st: LedgerState, quantity: int, price: int, fee: int)
    requires FillSucceeds(cfg, st, quantity, price, fee)
    ensures ApplyFill(cfg, st, quantity, price, fee).1.fee == fee
  {
  }

  lemma BookingKeepsSums(b: Books, orders: seq<PaperOrder>, k: nat, f: PaperFill, o: PaperOrder)
    requires k < |orders| && FillsAddUp(b, orders)
    requires f.orderId == k + 1 && f.fillId == |b.fills| + 1 && o.filled == orders[k].filled + f.quantity
    ensures forall ledger, next :: FillsAddUp(Books(ledger, b.fills + [f], next), orders[k := o])
  {
    var fills := b.fills + [f];
    assert fills[..|fills| - 1] == b.fills;
  }

  /** A move of one order keeps the books and the orders in agreement. */
  lemma MoveKeepsBooks(cfg: ExchangeConfig, e: MarketEvent, b: Books, orders: seq<PaperOrder>, k: nat,
                       b': Books, o': PaperOrder)
    requires k < |orders| && BooksInv(cfg, b, orders) && Move(cfg, e, b, orders[k], b', o')
    ensures BooksInv(cfg, b', orders[k := o'])
  {
    SignedFilledUpdate(orders, k, o');
    if b' != b {
      var f := b'.fills[|b.fills|];
      BookingKeepsTape(cfg, b, f, b'.ledger);
      BookingKeepsSums(b, orders, k, f, o');
      FillKeepsBalance(cfg.ledger, b.ledger, SignedQuantity(f.side, f.quantity), f.price, f.fee);
    }
  }

  lemma VisitKeepsBooks(cfg: ExchangeConfig, phase: Phase, floor: Floor, k: nat, e: MarketEvent)
    requires k < |floor.orders| && WellFormed(floor.orders) && BooksInv(cfg, floor.books, floor.orders)
    ensures var after := VisitAt(cfg, phase, floor, k, e); BooksInv(cfg, after.books, after.orders)
  {
    var order := floor.orders[k];
    VisitMoves(cfg, phase, floor.books, order, floor.volume, e);
    var r := Visit(cfg, phase, floor.books, order, floor.volume, e);
    MoveKeepsBooks(cfg, e, floor.books, floor.orders, k, r.0, r.1);
  }

  lemma {:induction false} PassKeepsBooks(cfg: ExchangeConfig, phase: Phase, floor: Floor, n: nat, e: MarketEvent)
    requires n <= |floor.orders| && WellFormed(floor.orders) && BooksInv(cfg, floor.books, floor.orders)
    ensures var after := Pass(cfg, phase, floor, n, e); BooksInv(cfg, after.books, after.orders)
  {
    hide VisitAt, BooksInv;
    if n > 0 {
      PassKeepsBooks(cfg, phase, floor, n - 1, e);
      VisitKeepsBooks(cfg, phase, Pass(cfg, phase, floor, n - 1, e), n - 1, e);
    }
  }

  // ----- orders over time -----

  ghost predicate AllEvolve(orders: seq<PaperOrder>, orders': seq<PaperOrder>) {
    |orders| <= |orders'| && forall k :: 0 <= k < |orders| ==> Evolves(orders[k], orders'[k])
  }

  /** A pass changes the first n orders only, each of them evolves, and the tape only grows. */
  lemma {:induction false} PassEvolves(cfg: ExchangeConfig, phase: Phase, floor: Floor, n: nat, e: MarketEvent)
    requires n <= |floor.orders| && WellFormed(floor.orders) && BooksInv(cfg, floor.books, floor.orders)
    ensures var after := Pass(cfg, phase, floor, n, e);
            && AllEvolve(floor.orders, after.orders)
            && after.orders[n..] == floor.orders[n..]
            && floor.books.fills <= after.books.fills
  {
    hide VisitAt, BooksInv;
    if n > 0 {
      PassEvolves(cfg, phase, floor, n - 1, e);
      PassKeepsBooks(cfg, phase, floor, n - 1, e);
      var before := Pass(cfg, phase, floor, n - 1, e);
      VisitEvolves(cfg, phase, before, n - 1, e);
      var after := Pass(cfg, phase, floor, n, e);
      assert after.orders[n..] == before.orders[n - 1..][1..];
      assert floor.orders[n..] == floor.orders[n - 1..][1..];
    }
  }

  lemma VisitEvolves(cfg: ExchangeConfig, phase: Phase, floor: Floor, k: nat, e: MarketEvent)
    requires k < |floor.orders| && WellFormed(floor.orders) && BooksInv(cfg, floor.books, floor.orders)
    ensures var after := VisitAt(cfg, phase, floor, k, e);
            && (forall i :: 0 <= i < |floor.orders| && i != k ==> after.orders[i] == floor.orders[i])
            && Evolves(floor.orders[k], after.orders[k])
            && floor.books.fills <= after.books.fills
            && Move(cfg, e, floor.books, floor.orders[k], after.books, after.orders[k])
  {
    VisitMoves(cfg, phase, floor.books, floor.orders[k], floor.volume, e);
  }

  ghost predicate Indexed(index: map<string, nat>, orders: seq<PaperOrder>) {
    && (forall id :: id in index ==> index[id] < |orders| && orders[index[id]].request.clientOrderId == id)
    && (forall k :: 0 <= k < |orders| ==>
          orders[k].request.clientOrderId in index && index[orders[k].request.clientOrderId] == k)
  }

  /** The invariant of the exchange. */
  ghost predicate Inv(cfg: ExchangeConfig, s: Exchange) {
    && BooksInv(cfg, s.books, s.orders)
    && s.nextOrderId == |s.orders| + 1
    && Indexed(s.index, s.orders)
  }

  lemma InitialInv(cfg: ExchangeConfig)
    ensures Inv(cfg, InitialExchange(cfg))
  {
    InitialBalanced(cfg.ledger);
  }

  /** The three phases of an accepted event. */
  lemma EventPhases(cfg: ExchangeConfig, s: Exchange, e: MarketEvent)
    requires WellFormed(s.orders) && BooksInv(cfg, s.books, s.orders)
    ensures var a, m, c := Activated(cfg, s, e), Matched(cfg, s, e), Processed(cfg, s, e);
            && BooksInv(cfg, a.books, a.orders) && BooksInv(cfg, m.books, m.orders) && BooksInv(cfg, c.books, c.orders)
            && AllEvolve(s.orders, a.orders) && AllEvolve(a.orders, m.orders) && AllEvolve(m.orders, c.orders)
            && s.books.fills <= a.books.fills <= m.books.fills <= c.books.fills
  {
    hide Pass, BooksInv;
    var n := |s.orders|;
    PassKeepsBooks(cfg, Activating, Opening(s, e), n, e);
    PassEvolves(cfg, Activating, Opening(s, e), n, e);
    PassKeepsBooks(cfg, Matching, Activated(cfg, s, e), n, e);
    PassEvolves(cfg, Matching, Activated(cfg, s, e), n, e);
    PassKeepsBooks(cfg, Cancelling, Matched(cfg, s, e), n, e);
    PassEvolves(cfg, Cancelling, Matched(cfg, s, e), n, e);
  }

  lemma EvolvesTrans(a: seq<PaperOrder>, b: seq<PaperOrder>, c: seq<PaperOrder>)
    requires AllEvolve(a, b) && AllEvolve(b, c)
    ensures AllEvolve(a, c)
  {
    forall k | 0 <= k < |a|
      ensures Evolves(a[k], c[k])
    {
      assert Evolves(a[k], b[k]) && Evolves(b[k], c[k]);
    }
  }

  lemma MarkingKeepsBooks(cfg: ExchangeConfig, b: Books, orders: seq<PaperOrder>, price: int)
    requires BooksInv(cfg, b, orders)
    ensures BooksInv(cfg, b.(ledger := MarkToMarket(cfg.ledger, b.ledger, price).0), orders)
  {
    MarkKeepsBalance(cfg.ledger, b.ledger, price);
    MarkKeepsBooks(cfg.ledger, b.ledger, price);
  }

  lemma EventKeepsInv(cfg: ExchangeConfig, s: Exchange, e: MarketEvent)
    requires Inv(cfg, s) && WellFormed(s.orders)
    ensures var s' := OnMarketEvent(cfg, s, e).0;
            Inv(cfg, s') && AllEvolve(s.orders, s'.orders) && s.books.fills <= s'.books.fills
  {
    hide Processed, Activated, Matched, BooksInv, MarkToMarket;
    if EventAccepted(cfg, s, e) {
      EventPhases(cfg, s, e);
      var a, m, c := Activated(cfg, s, e), Matched(cfg, s, e), Processed(cfg, s, e);
      EvolvesTrans(s.orders, a.orders, m.orders);
      EvolvesTrans(s.orders, m.orders, c.orders);
      MarkingKeepsBooks(cfg, c.books, c.orders, Midpoint(e));
      IndexSurvives(s.index, s.orders, c.orders);
    }
  }

  lemma IndexSurvives(index: map<string, nat>, orders: seq<PaperOrder>, orders': seq<PaperOrder>)
    requires Indexed(index, orders) && |orders'| == |orders|
    requires forall k :: 0 <= k < |orders| ==> orders'[k].request == orders[k].request
    ensures Indexed(index, orders')
  {
  }

  lemma {:induction false} NothingFilledBy(fills: seq<PaperFill>, orderId: nat)
    requires forall i :: 0 <= i < |fills| ==> fills[i].orderId != orderId
    ensures FilledBy(fills, orderId) == 0
  {
    if fills != [] {
      NothingFilledBy(fills[..|fills| - 1], orderId);
    }
  }

  lemma EntryKeepsBooks(cfg: ExchangeConfig, b: Books, orders: seq<PaperOrder>, o: PaperOrder)
    requires BooksInv(cfg, b, orders)
    requires GoodOrder(o) && o.filled == 0 && o.orderId == |orders| + 1
    ensures BooksInv(cfg, b, orders + [o])
  {
    NothingFilledBy(b.fills, o.orderId);
    assert (orders + [o])[..|orders|] == orders;
  }

  /** Where a submission succeeds, the new order is good and still pending before activation. */
  lemma NewOrderIsGood(cfg: ExchangeConfig, s: Exchange, request: OrderRequest, decisionTime: int)
    requires SubmitProblem(cfg, s, request, decisionTime) == NoProblem
    ensures cfg.quantityStep > 0 && GoodOrder(NewOrder(cfg, s, request, decisionTime))
    ensures s.market.Some? && FindOrder(s, request.clientOrderId).None?
  {
    hide Evaluate, CheckedWideNotional;
  }

  lemma EnteredOrder(cfg: ExchangeConfig, s: Exchange, request: OrderRequest, decisionTime: int)
    requires Inv(cfg, s) && SubmitProblem(cfg, s, request, decisionTime) == NoProblem
    ensures var (b', o') := Entered(cfg, s, request, decisionTime);
            && s.market.Some? && cfg.quantityStep > 0
            && Move(cfg, s.market.value, s.books, NewOrder(cfg, s, request, decisionTime), b', o')
            && BooksInv(cfg, b', s.orders + [o'])
            && s.books.fills <= b'.fills
  {
    hide BooksInv, Activate, SubmitProblem, NormalizedQuantity;
    NewOrderIsGood(cfg, s, request, decisionTime);
    var o := NewOrder(cfg, s, request, decisionTime);
    assert GoodOrder(o);
    EntryKeepsBooks(cfg, s.books, s.orders, o);
    ActivateMoves(cfg, s.books, o, s.market.value);
    var (b', o') := Entered(cfg, s, request, decisionTime);
    MoveKeepsBooks(cfg, s.market.value, s.books, s.orders + [o], |s.orders|, b', o');
    assert (s.orders + [o])[|s.orders| := o'] == s.orders + [o'];
  }

  lemma SubmitKeepsInv(cfg: ExchangeConfig, s: Exchange, request: OrderRequest, decisionTime: int)
    requires Inv(cfg, s) && WellFormed(s.orders)
    ensures var s' := Submit(cfg, s, request, decisionTime).0;
            Inv(cfg, s') && AllEvolve(s.orders, s'.orders) && s.books.fills <= s'.books.fills
  {
    hide BooksInv, Entered, SubmitProblem;
    if SubmitProblem(cfg, s, request, decisionTime) == NoProblem {
      EnteredOrder(cfg, s, request, decisionTime);
      NewOrderIsGood(cfg, s, request, decisionTime);
      assert request.clientOrderId !in s.index;
    }
  }

  lemma RelabelKeepsBooks(cfg: ExchangeConfig, b: Books, orders: seq<PaperOrder>, k: nat, o: PaperOrder)
    requires k < |orders| && BooksInv(cfg, b, orders) && GoodOrder(o)
    requires o.request == orders[k].request && o.orderId == orders[k].orderId && o.filled == orders[k].filled
    ensures BooksInv(cfg, b, orders[k := o])
  {
    hide Balanced, TapeExplains;
    SignedFilledUpdate(orders, k, o);
  }

  lemma CancelKeepsInv(cfg: ExchangeConfig, s: Exchange, clientOrderId: string, requestTime: int)
    requires Inv(cfg, s) && WellFormed(s.orders)
    ensures var s' := Cancel(cfg, s, clientOrderId, requestTime).0;
            Inv(cfg, s') && AllEvolve(s.orders, s'.orders) && s.books.fills <= s'.books.fills
  {
    hide BooksInv;
    if Cancellable(s, clientOrderId) {
      var k := FindOrder(s, clientOrderId).value;
      var o' := Cancel(cfg, s, clientOrderId, requestTime).0.orders[k];
      assert GoodOrder(o') by { assert BooksInv(cfg, s.books, s.orders); OrdersAreGood(cfg, s.books, s.orders, k); }
      RelabelKeepsBooks(cfg, s.books, s.orders, k, o');
    }
  }

  lemma OrdersAreGood(cfg: ExchangeConfig, b: Books, orders: seq<PaperOrder>, k: nat)
    requires k < |orders| && BooksInv(cfg, b, orders)
    ensures GoodOrder(orders[k]) && orders[k].orderId == k + 1
  {
  }

  lemma BooksBalanced(cfg: ExchangeConfig, b: Books, orders: seq<PaperOrder>)
    requires BooksInv(cfg, b, orders)
    ensures Balanced(cfg.ledger, b.ledger)
  {
  }

  lemma StepKeepsInv(cfg: ExchangeConfig, s: Exchange, action: Action)
    requires Inv(cfg, s) && WellFormed(s.orders)
    ensures var s' := Step(cfg, s, action);
            Inv(cfg, s') && AllEvolve(s.orders, s'.orders) && s.books.fills <= s'.books.fills
  {
    hide Inv, OnMarketEvent, Submit, Cancel;
    match action
    case Event(e) => EventKeepsInv(cfg, s, e);
    case SubmitOrder(request, decisionTime) => SubmitKeepsInv(cfg, s, request, decisionTime);
    case CancelOrder(id, requestTime) => CancelKeepsInv(cfg, s, id, requestTime);
  }

  /** Every run keeps the invariant, orders only evolve (a terminal order never changes again), and
      the tape is append-only. */
  lemma {:induction false} RunKeepsInv(cfg: ExchangeConfig, s: Exchange, actions: seq<Action>)
    requires Inv(cfg, s) && WellFormed(s.orders)
    ensures var s' := Run(cfg, s, actions);
            Inv(cfg, s') && AllEvolve(s.orders, s'.orders) && s.books.fills <= s'.books.fills
    decreases |actions|
  {
    hide Inv, Step;
    if actions != [] {
      var next := Step(cfg, s, actions[0]);
      StepKeepsInv(cfg, s, actions[0]);
      RunKeepsInv(cfg, next, actions[1..]);
      EvolvesTrans(s.orders, next.orders, Run(cfg, s, actions).orders);
    }
  }
}
