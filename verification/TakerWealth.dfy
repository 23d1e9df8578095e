/** Trading against the book creates no wealth. */
module TakerWealth {
  import opened FixedPoint
  import opened Types
  import opened LedgerModel
  import opened LedgerTheorems
  import opened ExchangeModel
  import opened ExchangeInvariants
  import opened ExchangeTheorems
  import opened Risk
  import opened QueuePosition

  lemma CeilPpmCovers(product: int)
    requires product >= 0
    ensures CeilPpm(product) >= 0
    ensures PARTS_PER_MILLION * (CeilPpm(product) - 1) < product || product == 0
    ensures product <= PARTS_PER_MILLION * CeilPpm(product)
  {
  }

  lemma SlippedAway(price: int, side: Side, ppm: nat)
    requires price >= 0 && SlippedPrice(price, side, ppm).Some?
    ensures var p := SlippedPrice(price, side, ppm).value;
            var slip := if side.Buy? then p - price else price - p;
            && 0 <= slip && price * ppm <= PARTS_PER_MILLION * slip
            && (PARTS_PER_MILLION * (slip - 1) < price * ppm || slip == 0)
  {
    MulMono(price, 0, ppm);
    CeilPpmCovers(price * ppm);
  }

  /** A taker pays the far side of the book or worse, so never less than the midpoint. */
  lemma TakerPaysTheSpread(cfg: ExchangeConfig, request: OrderRequest, f: PaperFill, e: MarketEvent)
    requires LegalPrice(cfg, request, f, e) && !f.maker && 0 < e.bestBid <= e.bestAsk
    ensures if request.side.Buy? then Midpoint(e) <= e.bestAsk <= f.price else f.price <= e.bestBid <= Midpoint(e)
  {
    if request.orderType == Market {
      SlippedAway(Touch(request.side, e), request.side, cfg.slippagePpm);
    }
  }

  /** Equity at a mark before any fee was charged. */
  function GrossEquity(cfg: ExchangeConfig, b: Books, mark: int): int {
    EquityAt(cfg.ledger, b.ledger, mark) + b.ledger.fees
  }

  lemma ActivationsTake(cfg: ExchangeConfig, b: Books, o: PaperOrder, e: MarketEvent)
    requires GoodOrder(o) && (o.status == Pending || o.status == CancelPending)
    ensures var b' := Activate(cfg, b, o, e).0;
            b' == b || (|b'.fills| == |b.fills| + 1 && !b'.fills[|b.fills|].maker)
  {
    hide ApplyFill, FillFee, SlippedPrice;
  }

  /** One taker fill raises equity at the event's midpoint by at most one unit, before the fee. */
  lemma TakingGainsNothing(cfg: ExchangeConfig, b: Books, o: PaperOrder, e: MarketEvent)
    requires GoodOrder(o) && (o.status == Pending || o.status == CancelPending)
    requires Balanced(cfg.ledger, b.ledger) && 0 < e.bestBid <= e.bestAsk
    ensures var b' := Activate(cfg, b, o, e).0;
            GrossEquity(cfg, b', Midpoint(e)) <= GrossEquity(cfg, b, Midpoint(e)) + |b'.fills| - |b.fills|
  {
    hide Activate, ApplyFill, LegalPrice, EquityAt;
    ActivateMoves(cfg, b, o, e);
    ActivationsTake(cfg, b, o, e);
    var r := Activate(cfg, b, o, e);
    if r.0 != b {
      assert Booking(cfg, e, b, o, r.0, r.1);
      var f := r.0.fills[|b.fills|];
      TakerPaysTheSpread(cfg, o.request, f, e);
      var signed := SignedQuantity(f.side, f.quantity);
      FillKeepsBalance(cfg.ledger, b.ledger, signed, f.price, f.fee);
      FillBeyondMarkGainsNothing(cfg.ledger, b.ledger, signed, f.price, f.fee, Midpoint(e));
    }
  }

  lemma {:induction false} ActivatingGainsNothing(cfg: ExchangeConfig, floor: Floor, n: nat, e: MarketEvent)
    requires n <= |floor.orders| && WellFormed(floor.orders) && BooksInv(cfg, floor.books, floor.orders)
    requires 0 < e.bestBid <= e.bestAsk
    ensures var after := Pass(cfg, Activating, floor, n, e).books;
            GrossEquity(cfg, after, Midpoint(e))
            <= GrossEquity(cfg, floor.books, Midpoint(e)) + |after.fills| - |floor.books.fills|
  {
    hide BooksInv, Activate, GrossEquity;
    if n > 0 {
      var before := Pass(cfg, Activating, floor, n - 1, e);
      var o := before.orders[n - 1];
      ActivatingGainsNothing(cfg, floor, n - 1, e);
      PassKeepsBooks(cfg, Activating, floor, n - 1, e);
      OrdersAreGood(cfg, before.books, before.orders, n - 1);
      BooksBalanced(cfg, before.books, before.orders);
      if CanActivate(o, e) {
        TakingGainsNothing(cfg, before.books, o, e);
      }
    }
  }

  lemma ActivationsCreateNoWealth(cfg: ExchangeConfig, s: Exchange, e: MarketEvent)
    requires Inv(cfg, s) && WellFormed(s.orders) && EventAccepted(cfg, s, e)
    ensures var before, after := s.books, Activated(cfg, s, e).books;
            EquityAt(cfg.ledger, after.ledger, Midpoint(e))
            <= EquityAt(cfg.ledger, before.ledger, Midpoint(e)) - (after.ledger.fees - before.ledger.fees)
               + (|after.fills| - |before.fills|)
  {
    hide BooksInv, Pass, EquityAt;
    ActivatingGainsNothing(cfg, Opening(s, e), |s.orders|, e);
  }

  /** In every reachable state, however many orders an accepted event lets trade against the book,
      together they raise equity at its midpoint by at most one rounding unit per fill, less fees. */
  lemma TakingTheBookCreatesNoWealth(cfg: ExchangeConfig, actions: seq<Action>, e: MarketEvent)
    requires EventAccepted(cfg, Reached(cfg, actions), e)
    ensures WellFormed(Reached(cfg, actions).orders)
    ensures var before, after := Reached(cfg, actions).books, Activated(cfg, Reached(cfg, actions), e).books;
            EquityAt(cfg.ledger, after.ledger, Midpoint(e))
            <= EquityAt(cfg.ledger, before.ledger, Midpoint(e)) - (after.ledger.fees - before.ledger.fees)
               + (|after.fills| - |before.fills|)
  {
    hide Run, Inv, EquityAt, Activated, EventAccepted;
    ReachedInv(cfg, actions);
    ActivationsCreateNoWealth(cfg, Reached(cfg, actions), e);
  }

  /** The same in the reported equity: an accepted event without a trade, whose midpoint leaves a
      representable equity after the activations, leaves equity at most its old value at the new
      midpoint, less fees, plus one unit per fill. */
  lemma QuietEventCreatesNoWealth(cfg: ExchangeConfig, actions: seq<Action>, e: MarketEvent)
    requires EventAccepted(cfg, Reached(cfg, actions), e) && TradedVolume(e) == 0
    requires WellFormed(Reached(cfg, actions).orders)
    requires Markable(cfg.ledger, Activated(cfg, Reached(cfg, actions), e).books.ledger, Midpoint(e))
    ensures var before, after := Reached(cfg, actions).books, Reached(cfg, actions + [Event(e)]).books;
            after.ledger.equity
            <= EquityAt(cfg.ledger, before.ledger, Midpoint(e)) - (after.ledger.fees - before.ledger.fees)
               + (|after.fills| - |before.fills|)
  {
    hide Run, BooksInv, EquityAt, Pass, ExactNotional, EventAccepted;
    ReachedInv(cfg, actions);
    var s := Reached(cfg, actions);
    RunAppend(cfg, InitialExchange(cfg), actions, Event(e));
    ActivationsCreateNoWealth(cfg, s, e);
    EventKeepsInv(cfg, s, e);
    BooksBalanced(cfg, OnMarketEvent(cfg, s, e).0.books, OnMarketEvent(cfg, s, e).0.orders);
    NothingMatches(cfg, s, e);
    EventMarks(cfg, s, e);
    MarkKeepsBooks(cfg.ledger, Processed(cfg, s, e).books.ledger, Midpoint(e));
    SameBooksSameEquity(cfg.ledger, Activated(cfg, s, e).books.ledger, OnMarketEvent(cfg, s, e).0.books.ledger, Midpoint(e));
    EquityIsAtLastMark(cfg.ledger, OnMarketEvent(cfg, s, e).0.books.ledger);
  }

  lemma EventMarks(cfg: ExchangeConfig, s: Exchange, e: MarketEvent)
    requires WellFormed(s.orders) && EventAccepted(cfg, s, e)
    requires Markable(cfg.ledger, Processed(cfg, s, e).books.ledger, Midpoint(e))
    ensures OnMarketEvent(cfg, s, e).0.books.ledger.lastMark == Midpoint(e)
  {
    hide Markable, Processed, MarkedUnrealized;
  }

  lemma NothingMatches(cfg: ExchangeConfig, s: Exchange, e: MarketEvent)
    requires WellFormed(s.orders) && TradedVolume(e) == 0
    ensures Processed(cfg, s, e).books == Activated(cfg, s, e).books
  {
    hide Pass;
    ActivatingKeepsVolume(cfg, Opening(s, e), |s.orders|, e);
    NothingToMatch(cfg, Activated(cfg, s, e), |s.orders|, e);
    CancellingKeepsBooks(cfg, Matched(cfg, s, e), |s.orders|, e);
  }

  lemma SameBooksSameEquity(cfg: LedgerConfig, a: LedgerState, b: LedgerState, mark: int)
    requires SameBooks(a, b)
    ensures EquityAt(cfg, a, mark) == EquityAt(cfg, b, mark)
  {
  }

  lemma EquityIsAtLastMark(cfg: LedgerConfig, st: LedgerState)
    requires Balanced(cfg, st)
    ensures st.equity == EquityAt(cfg, st, st.lastMark)
  {
  }

  lemma EntryCreatesNoWealth(cfg: ExchangeConfig, s: Exchange, request: OrderRequest, decisionTime: int)
    requires Inv(cfg, s) && WellFormed(s.orders) && SubmitProblem(cfg, s, request, decisionTime) == NoProblem
    ensures var before, after := s.books, Submit(cfg, s, request, decisionTime).0.books;
            && s.market.Some?
            && EquityAt(cfg.ledger, after.ledger, Midpoint(s.market.value))
               <= EquityAt(cfg.ledger, before.ledger, Midpoint(s.market.value))
                  - (after.ledger.fees - before.ledger.fees) + (|after.fills| - |before.fills|)
  {
    hide BooksInv, SubmitProblem, Activate, EquityAt, NormalizedQuantity;
    NewOrderIsGood(cfg, s, request, decisionTime);
    AcceptedOnTwoSidedMarket(cfg, s, request, decisionTime);
    BooksBalanced(cfg, s.books, s.orders);
    TakingGainsNothing(cfg, s.books, NewOrder(cfg, s, request, decisionTime), s.market.value);
  }

  lemma AcceptedOnTwoSidedMarket(cfg: ExchangeConfig, s: Exchange, request: OrderRequest, decisionTime: int)
    requires SubmitProblem(cfg, s, request, decisionTime) == NoProblem
    ensures s.market.Some? && 0 < s.market.value.bestBid <= s.market.value.bestAsk
  {
    hide CheckedWideNotional, FindOrder, BreaksOrderLimit, SpreadPpm;
  }

  /** The same for an order that is activated on entry, against the current market. */
  lemma EnteringTheBookCreatesNoWealth(cfg: ExchangeConfig, actions: seq<Action>, request: OrderRequest, decisionTime: int)
    requires SubmitProblem(cfg, Reached(cfg, actions), request, decisionTime) == NoProblem
    ensures var s := Reached(cfg, actions);
            var before, after := s.books, Submit(cfg, s, request, decisionTime).0.books;
            && s.market.Some?
            && EquityAt(cfg.ledger, after.ledger, Midpoint(s.market.value))
               <= EquityAt(cfg.ledger, before.ledger, Midpoint(s.market.value))
                  - (after.ledger.fees - before.ledger.fees) + (|after.fills| - |before.fills|)
  {
    hide Run, Inv, EquityAt, Submit, SubmitProblem;
    ReachedInv(cfg, actions);
    EntryCreatesNoWealth(cfg, Reached(cfg, actions), request, decisionTime);
  }
}
