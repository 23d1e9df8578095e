/** Whole-run guarantees of the exchange: lifecycle, tape, legality, cancellation, index. */
module ExchangeTheorems {
  import opened FixedPoint
  import opened Types
  import opened LedgerModel
  import opened LedgerTheorems
  import opened ExchangeModel
  import opened ExchangeInvariants

  function Reached(cfg: ExchangeConfig, actions: seq<Action>): Exchange {
    Run(cfg, InitialExchange(cfg), actions)
  }

  lemma ReachedInv(cfg: ExchangeConfig, actions: seq<Action>)
    ensures Inv(cfg, Reached(cfg, actions)) && WellFormed(Reached(cfg, actions).orders)
  {
    InitialInv(cfg);
    RunKeepsInv(cfg, InitialExchange(cfg), actions);
  }

  lemma {:induction false} RunConcat(cfg: ExchangeConfig, s: Exchange, first: seq<Action>, second: seq<Action>)
    requires WellFormed(s.orders)
    ensures Run(cfg, s, first + second) == Run(cfg, Run(cfg, s, first), second)
    decreases |first|
  {
    hide Step;
    if first == [] {
      assert first + second == second;
    } else {
      assert (first + second)[1..] == first[1..] + second;
      RunConcat(cfg, Step(cfg, s, first[0]), first[1..], second);
    }
  }

  lemma {:induction false} RunAppend(cfg: ExchangeConfig, s: Exchange, actions: seq<Action>, last: Action)
    requires WellFormed(s.orders)
    ensures Run(cfg, s, actions + [last]) == Step(cfg, Run(cfg, s, actions), last)
    decreases |actions|
  {
    hide Step;
    if actions == [] {
      assert Run(cfg, Step(cfg, s, last), []) == Step(cfg, s, last);
    } else {
      assert (actions + [last])[1..] == actions[1..] + [last];
      RunAppend(cfg, Step(cfg, s, actions[0]), actions[1..], last);
    }
  }

  // ----- the tape determines the ledger -----

  /** In every reachable state the tape of fills, applied to the initial ledger, is accepted fill by
      fill and reproduces every booked balance, whatever marks and refused fills came between; and
      the position is the signed sum of what the orders have filled. */
  lemma TapeDeterminesLedger(cfg: ExchangeConfig, actions: seq<Action>)
    ensures var s := Reached(cfg, actions);
            && TapeLedger(cfg, s.books.fills).Some?
            && SameBooks(TapeLedger(cfg, s.books.fills).value, s.books.ledger)
            && s.books.ledger.position == SignedFilled(s.orders)
  {
    ReachedInv(cfg, actions);
  }

  /** The tape as operations of a ledger. */
  function TapeOps(fills: seq<PaperFill>): seq<LedgerOp> {
    if fills == [] then []
    else var f := fills[|fills| - 1];
         TapeOps(fills[..|fills| - 1]) + [FillOp(SignedQuantity(f.side, f.quantity), f.price, f.fee)]
  }

  lemma {:induction false} RunLedgerAppend(cfg: LedgerConfig, st: LedgerState, ops: seq<LedgerOp>, op: LedgerOp)
    ensures RunLedger(cfg, st, ops + [op]) == StepLedger(cfg, RunLedger(cfg, st, ops), op)
    ensures RunTotals(cfg, st, ops + [op]) == Plus(RunTotals(cfg, st, ops), FillTotals(cfg, RunLedger(cfg, st, ops), op))
    decreases |ops|
  {
    hide StepLedger, FillTotals;
    if ops == [] {
      assert RunLedger(cfg, st, [op]) == RunLedger(cfg, StepLedger(cfg, st, op), []);
      assert RunTotals(cfg, st, [op]) == Plus(FillTotals(cfg, st, op), RunTotals(cfg, StepLedger(cfg, st, op), []));
    } else {
      assert (ops + [op])[1..] == ops[1..] + [op];
      RunLedgerAppend(cfg, StepLedger(cfg, st, ops[0]), ops[1..], op);
    }
  }

  lemma {:induction false} TapeIsALedgerRun(cfg: ExchangeConfig, fills: seq<PaperFill>)
    requires TapeLedger(cfg, fills).Some?
    ensures RunLedger(cfg.ledger, InitialLedger(cfg.ledger), TapeOps(fills)) == TapeLedger(cfg, fills).value
    ensures RunTotals(cfg.ledger, InitialLedger(cfg.ledger), TapeOps(fills)).fills == |fills|
  {
    hide ApplyFill;
    if fills != [] {
      var before, f := fills[..|fills| - 1], fills[|fills| - 1];
      TapeIsALedgerRun(cfg, before);
      RunLedgerAppend(cfg.ledger, InitialLedger(cfg.ledger), TapeOps(before),
                      FillOp(SignedQuantity(f.side, f.quantity), f.price, f.fee));
    }
  }

  /** The equity an exchange reports after any run stays within one unit per truncated notional of
      the exact wealth of its own tape. */
  lemma ExchangeEquityTracksExactWealth(cfg: ExchangeConfig, actions: seq<Action>)
    ensures var s := Reached(cfg, actions);
            var l := s.books.ledger;
            var t := RunTotals(cfg.ledger, InitialLedger(cfg.ledger), TapeOps(s.books.fills));
            && t.fills == |s.books.fills|
            && l.position == t.quantity && l.fees == t.fees && l.realized - l.cost == -t.flow
            && Magnitude(ScaleDown(cfg.ledger) * l.equity - ScaledWealth(cfg.ledger, t, l.lastMark))
               <= (t.fills + t.reversals + 1) * (ScaleDown(cfg.ledger) - 1)
  {
    hide ExactNotional, ScaleUp, ScaleDown, RunLedger, RunTotals, TapeLedger, Run, TapeOps;
    ReachedInv(cfg, actions);
    var s := Reached(cfg, actions);
    var ops := TapeOps(s.books.fills);
    TapeIsALedgerRun(cfg, s.books.fills);
    InitialBalanced(cfg.ledger);
    RunConserves(cfg.ledger, InitialLedger(cfg.ledger), ops);
    BalancedEquity(cfg.ledger, s.books.ledger, RunTotals(cfg.ledger, InitialLedger(cfg.ledger), ops));
  }

  // ----- reported profits -----

  function RealizedOnTape(fills: seq<PaperFill>): int {
    if fills == [] then 0 else RealizedOnTape(fills[..|fills| - 1]) + fills[|fills| - 1].realized
  }

  /** How many fills of a tape made the one profit that 64 bits cannot hold. */
  function OverflowingProfits(cfg: ExchangeConfig, fills: seq<PaperFill>): nat
    requires TapeLedger(cfg, fills).Some?
  {
    if fills == [] then 0
    else
      var before, f := fills[..|fills| - 1], fills[|fills| - 1];
      var st := TapeLedger(cfg, before).value;
      OverflowingProfits(cfg, before)
      + (if ProfitOverflows(cfg.ledger, st, SignedQuantity(f.side, f.quantity), f.price) then 1 else 0)
  }

  lemma FillStaysNarrow(cfg: LedgerConfig, st: LedgerState, quantity: int, price: int, fee: int)
    requires FillSucceeds(cfg, st, quantity, price, fee)
    ensures var st' := ApplyFill(cfg, st, quantity, price, fee).0; Fits(st'.position) && Fits(st'.cost)
  {
    hide ExactNotional, AllocatedCost, AverageEntry, Markable;
    NotionalFloor(cfg, st.position + quantity, price);
  }

  lemma {:induction false} TapeProfits(cfg: ExchangeConfig, fills: seq<PaperFill>)
    requires TapeLedger(cfg, fills).Some?
    ensures var st := TapeLedger(cfg, fills).value;
            && Balanced(cfg.ledger, st) && Fits(st.position) && Fits(st.cost)
            && st.realized == RealizedOnTape(fills) + 0x1_0000_0000_0000_0000 * OverflowingProfits(cfg, fills)
  {
    hide ApplyFill, Balanced, ProfitOverflows;
    if fills == [] {
      InitialBalanced(cfg.ledger);
    } else {
      var before, f := fills[..|fills| - 1], fills[|fills| - 1];
      TapeProfits(cfg, before);
      var st, signed := TapeLedger(cfg, before).value, SignedQuantity(f.side, f.quantity);
      FillKeepsBalance(cfg.ledger, st, signed, f.price, f.fee);
      FillStaysNarrow(cfg.ledger, st, signed, f.price, f.fee);
      ReportedProfit(cfg.ledger, st, signed, f.price, f.fee);
    }
  }

  /** In every reachable state the booked profit is the sum of the profits reported on the tape, and 2^64
      more for each fill whose profit did not fit in 64 bits. */
  lemma ReportedProfitsAddUp(cfg: ExchangeConfig, actions: seq<Action>)
    ensures var b := Reached(cfg, actions).books;
            && TapeLedger(cfg, b.fills).Some?
            && b.ledger.realized
               == RealizedOnTape(b.fills) + 0x1_0000_0000_0000_0000 * OverflowingProfits(cfg, b.fills)
  {
    hide Run, TapeLedger, Balanced;
    ReachedInv(cfg, actions);
    TapeProfits(cfg, Reached(cfg, actions).books.fills);
  }

  ghost predicate NarrowPrices(fills: seq<PaperFill>) {
    forall i :: 0 <= i < |fills| ==> fills[i].price <= INT64_MAX
  }

  lemma {:induction false} TapeNeverOverflows(cfg: ExchangeConfig, fills: seq<PaperFill>)
    requires TapeLedger(cfg, fills).Some? && NarrowPrices(fills)
    requires ScaleDown(cfg.ledger) * ScaleDown(cfg.ledger) <= INT64_MAX
    ensures var st := TapeLedger(cfg, fills).value; CostWithinUnits(cfg.ledger, st.position, st.cost)
    ensures OverflowingProfits(cfg, fills) == 0
  {
    hide ApplyFill, Balanced, ProfitOverflows, UnitCost;
    if fills != [] {
      var before, f := fills[..|fills| - 1], fills[|fills| - 1];
      TapeNeverOverflows(cfg, before);
      TapeProfits(cfg, before);
      var st, signed := TapeLedger(cfg, before).value, SignedQuantity(f.side, f.quantity);
      SuccessfulFillFits(cfg.ledger, st, signed, f.price, f.fee);
      FillKeepsUnits(cfg.ledger, st, signed, f.price, f.fee);
      SmallScaleNeverOverflows(cfg.ledger, st, signed, f.price);
    }
  }

  /** Where notionals are scaled down by at most the square root of the 64-bit range and prices fit in 64
      bits, the profits on the tape of every reachable state add up to the booked profit. */
  lemma ReportedProfitsAreExact(cfg: ExchangeConfig, actions: seq<Action>)
    requires ScaleDown(cfg.ledger) * ScaleDown(cfg.ledger) <= INT64_MAX
    requires NarrowPrices(Reached(cfg, actions).books.fills)
    ensures Reached(cfg, actions).books.ledger.realized == RealizedOnTape(Reached(cfg, actions).books.fills)
  {
    hide Run, TapeLedger, ScaleDown;
    ReportedProfitsAddUp(cfg, actions);
    TapeNeverOverflows(cfg, Reached(cfg, actions).books.fills);
  }

  // ----- lifecycle -----

  /** In every reachable state: filled and remaining make up the quantity unless the order was
      cancelled, an order is filled exactly when its whole quantity is, and its fills on the tape add
      up to what it has filled. */
  lemma Lifecycle(cfg: ExchangeConfig, actions: seq<Action>, k: nat)
    requires k < |Reached(cfg, actions).orders|
    ensures var s := Reached(cfg, actions);
            var o := s.orders[k];
            && (o.status != Cancelled ==> o.filled + o.remaining == o.request.quantity)
            && (o.status == Cancelled ==> o.remaining == 0 && o.filled < o.request.quantity)
            && (o.status == Filled <==> o.filled == o.request.quantity)
            && 0 <= o.filled <= o.request.quantity && 0 <= o.remaining
            && FilledBy(s.books.fills, o.orderId) == o.filled
  {
    ReachedInv(cfg, actions);
  }

  /** A terminal order is final: no continuation of a run changes it. */
  lemma TerminalIsFinal(cfg: ExchangeConfig, actions: seq<Action>, more: seq<Action>, k: nat)
    requires k < |Reached(cfg, actions).orders| && IsTerminal(Reached(cfg, actions).orders[k].status)
    ensures var s := Run(cfg, Reached(cfg, actions), more);
            k < |s.orders| && s.orders[k] == Reached(cfg, actions).orders[k]
  {
    hide Run, Inv;
    ReachedInv(cfg, actions);
    RunKeepsInv(cfg, Reached(cfg, actions), more);
    assert Evolves(Reached(cfg, actions).orders[k], Run(cfg, Reached(cfg, actions), more).orders[k]);
  }

  // ----- fill legality -----

  /** The accepted events of a run, by sequence number. */
  function Heard(cfg: ExchangeConfig, s: Exchange, h: map<nat, MarketEvent>, actions: seq<Action>)
    : map<nat, MarketEvent>
    requires WellFormed(s.orders)
    decreases |actions|
  {
    if actions == [] then h
    else Heard(cfg, Step(cfg, s, actions[0]), Hear(cfg, s, h, actions[0]), actions[1..])
  }

  function Hear(cfg: ExchangeConfig, s: Exchange, h: map<nat, MarketEvent>, action: Action): map<nat, MarketEvent> {
    if action.Event? && EventAccepted(cfg, s, action.event) then h[action.event.sequence := action.event] else h
  }

  ghost predicate HistoryUpTo(h: map<nat, MarketEvent>, market: Option<MarketEvent>) {
    && (market.Some? ==> market.value.sequence in h && h[market.value.sequence] == market.value)
    && (forall q :: q in h ==> h[q].sequence == q && market.Some? && q <= market.value.sequence)
  }

  ghost predicate LegalFills(cfg: ExchangeConfig, orders: seq<PaperOrder>, fills: seq<PaperFill>, from: nat,
                             e: MarketEvent)
  {
    forall i :: from <= i < |fills| ==>
      1 <= fills[i].orderId <= |orders| && LegalFill(cfg, orders[fills[i].orderId - 1], fills[i], e)
  }

  /** Every fill on the tape is legal for its order on the accepted event it names. */
  ghost predicate LegalTape(cfg: ExchangeConfig, s: Exchange, h: map<nat, MarketEvent>) {
    && HistoryUpTo(h, s.market)
    && forall i :: 0 <= i < |s.books.fills| ==> LegallyFilled(cfg, s.orders, s.books.fills[i], h)
  }

  ghost predicate LegallyFilled(cfg: ExchangeConfig, orders: seq<PaperOrder>, f: PaperFill, h: map<nat, MarketEvent>) {
    && 1 <= f.orderId <= |orders| && f.marketSequence in h
    && LegalFill(cfg, orders[f.orderId - 1], f, h[f.marketSequence])
  }

  lemma LegalFillsLater(cfg: ExchangeConfig, orders: seq<PaperOrder>, orders': seq<PaperOrder>,
                        fills: seq<PaperFill>, from: nat, e: MarketEvent)
    requires LegalFills(cfg, orders, fills, from, e) && AllEvolve(orders, orders')
    ensures LegalFills(cfg, orders', fills, from, e)
  {
    forall i | from <= i < |fills|
      ensures LegalFill(cfg, orders'[fills[i].orderId - 1], fills[i], e)
    {
      assert Evolves(orders[fills[i].orderId - 1], orders'[fills[i].orderId - 1]);
    }
  }

  lemma {:induction false} PassFillsLegally(cfg: ExchangeConfig, phase: Phase, floor: Floor, n: nat, e: MarketEvent)
    requires n <= |floor.orders| && WellFormed(floor.orders) && BooksInv(cfg, floor.books, floor.orders)
    ensures var after := Pass(cfg, phase, floor, n, e);
            LegalFills(cfg, after.orders, after.books.fills, |floor.books.fills|, e)
  {
    hide VisitAt, BooksInv, Booking;
    if n > 0 {
      var before, after := Pass(cfg, phase, floor, n - 1, e), Pass(cfg, phase, floor, n, e);
      PassFillsLegally(cfg, phase, floor, n - 1, e);
      PassKeepsBooks(cfg, phase, floor, n - 1, e);
      VisitFillsLegally(cfg, phase, before, n - 1, e);
      LegalFillsLater(cfg, before.orders, after.orders, before.books.fills, |floor.books.fills|, e);
    }
  }

  lemma VisitFillsLegally(cfg: ExchangeConfig, phase: Phase, floor: Floor, k: nat, e: MarketEvent)
    requires k < |floor.orders| && WellFormed(floor.orders) && BooksInv(cfg, floor.books, floor.orders)
    ensures var after := VisitAt(cfg, phase, floor, k, e);
            && AllEvolve(floor.orders, after.orders)
            && floor.books.fills <= after.books.fills
            && LegalFills(cfg, after.orders, after.books.fills, |floor.books.fills|, e)
  {
    hide VisitAt, BooksInv, LegalPrice;
    VisitEvolves(cfg, phase, floor, k, e);
    OrdersAreGood(cfg, floor.books, floor.orders, k);
  }

  lemma EventFillsLegally(cfg: ExchangeConfig, s: Exchange, e: MarketEvent)
    requires WellFormed(s.orders) && BooksInv(cfg, s.books, s.orders)
    ensures var c := Processed(cfg, s, e);
            AllEvolve(s.orders, c.orders) && LegalFills(cfg, c.orders, c.books.fills, |s.books.fills|, e)
  {
    hide Pass, BooksInv, LegalFill;
    var a, m, c := Activated(cfg, s, e), Matched(cfg, s, e), Processed(cfg, s, e);
    var n := |s.orders|;
    EventPhases(cfg, s, e);
    PassFillsLegally(cfg, Activating, Opening(s, e), n, e);
    PassFillsLegally(cfg, Matching, a, n, e);
    PassFillsLegally(cfg, Cancelling, m, n, e);
    LegalFillsLater(cfg, a.orders, m.orders, a.books.fills, |s.books.fills|, e);
    LegalFillsLater(cfg, m.orders, c.orders, m.books.fills, |s.books.fills|, e);
    EvolvesTrans(s.orders, a.orders, m.orders);
    EvolvesTrans(s.orders, m.orders, c.orders);
  }

  lemma EvolvedStaysLegal(cfg: ExchangeConfig, orders: seq<PaperOrder>, orders': seq<PaperOrder>, f: PaperFill,
                          h: map<nat, MarketEvent>, h': map<nat, MarketEvent>)
    requires AllEvolve(orders, orders') && LegallyFilled(cfg, orders, f, h)
    requires f.marketSequence in h' && h'[f.marketSequence] == h[f.marketSequence]
    ensures LegallyFilled(cfg, orders', f, h')
  {
    assert Evolves(orders[f.orderId - 1], orders'[f.orderId - 1]);
  }

  lemma StepKeepsTapeLegal(cfg: ExchangeConfig, s: Exchange, h: map<nat, MarketEvent>, action: Action)
    requires Inv(cfg, s) && WellFormed(s.orders) && LegalTape(cfg, s, h)
    ensures LegalTape(cfg, Step(cfg, s, action), Hear(cfg, s, h, action))
  {
    hide LegalFill, BooksInv, Processed, Entered, SubmitProblem, MarkToMarket;
    var s', h' := Step(cfg, s, action), Hear(cfg, s, h, action);
    StepKeepsInv(cfg, s, action);
    if action.Event? && EventAccepted(cfg, s, action.event) {
      EventFillsLegally(cfg, s, action.event);
    } else if action.SubmitOrder? && SubmitProblem(cfg, s, action.request, action.decisionTime) == NoProblem {
      EntryFillsLegally(cfg, s, action.request, action.decisionTime);
    }
    forall i | 0 <= i < |s'.books.fills|
      ensures LegallyFilled(cfg, s'.orders, s'.books.fills[i], h')
    {
      if i < |s.books.fills| {
        EvolvedStaysLegal(cfg, s.orders, s'.orders, s.books.fills[i], h, h');
      } else {
        LegalFillNamesEvent(cfg, s'.orders, s'.books.fills, |s.books.fills|, s'.market.value, i);
      }
    }
  }

  lemma LegalFillNamesEvent(cfg: ExchangeConfig, orders: seq<PaperOrder>, fills: seq<PaperFill>, from: nat,
                            e: MarketEvent, i: nat)
    requires LegalFills(cfg, orders, fills, from, e) && from <= i < |fills|
    ensures fills[i].marketSequence == e.sequence
  {
  }

  lemma EntryFillsLegally(cfg: ExchangeConfig, s: Exchange, request: OrderRequest, decisionTime: int)
    requires Inv(cfg, s) && SubmitProblem(cfg, s, request, decisionTime) == NoProblem
    ensures var (b', o') := Entered(cfg, s, request, decisionTime);
            s.market.Some? && LegalFills(cfg, s.orders + [o'], b'.fills, |s.books.fills|, s.market.value)
  {
    hide BooksInv, Entered, SubmitProblem, NormalizedQuantity, LegalPrice;
    EnteredOrder(cfg, s, request, decisionTime);
    NewOrderIsGood(cfg, s, request, decisionTime);
    assert NewOrder(cfg, s, request, decisionTime).orderId == |s.orders| + 1;
  }

  lemma {:induction false} RunKeepsTapeLegal(cfg: ExchangeConfig, s: Exchange, h: map<nat, MarketEvent>,
                                             actions: seq<Action>)
    requires Inv(cfg, s) && WellFormed(s.orders) && LegalTape(cfg, s, h)
    ensures LegalTape(cfg, Run(cfg, s, actions), Heard(cfg, s, h, actions))
    decreases |actions|
  {
    hide Inv, LegalTape, Step, Hear;
    if actions != [] {
      StepKeepsInv(cfg, s, actions[0]);
      StepKeepsTapeLegal(cfg, s, h, actions[0]);
      RunKeepsTapeLegal(cfg, Step(cfg, s, actions[0]), Hear(cfg, s, h, actions[0]), actions[1..]);
    }
  }

  /** Fill legality over every run: each fill names an accepted event received no earlier than the
      order's activation; its price is never worse than the limit; post-only fills are maker fills;
      maker fills answer an opposing trade at or through the limit; a market order fills in full at
      the slipped touch; and the fee is the rounded-up rate on the exact notional. */
  lemma EveryFillIsLegal(cfg: ExchangeConfig, actions: seq<Action>)
    ensures LegalTape(cfg, Reached(cfg, actions), Heard(cfg, InitialExchange(cfg), map[], actions))
  {
    InitialInv(cfg);
    RunKeepsTapeLegal(cfg, InitialExchange(cfg), map[], actions);
  }

  ghost predicate PositiveFills(fills: seq<PaperFill>) {
    forall i :: 0 <= i < |fills| ==> 0 < fills[i].quantity
  }

  /** Two fills of one order are both part of what the order has filled. */
  lemma {:induction false} TwoFills(fills: seq<PaperFill>, i: int, j: nat, id: nat)
    requires PositiveFills(fills) && -1 <= i < j < |fills|
    requires fills[j].orderId == id && (i >= 0 ==> fills[i].orderId == id)
    ensures FilledBy(fills, id) >= fills[j].quantity + (if i >= 0 then fills[i].quantity else 0)
  {
    var n := |fills| - 1;
    if j < n {
      TwoFills(fills[..n], i, j, id);
    } else if i >= 0 {
      TwoFills(fills[..n], -1, i, id);
    } else {
      FilledByNotNegative(fills[..n], id);
    }
  }

  lemma {:induction false} FilledByNotNegative(fills: seq<PaperFill>, id: nat)
    requires PositiveFills(fills)
    ensures FilledBy(fills, id) >= 0
  {
    if fills != [] {
      FilledByNotNegative(fills[..|fills| - 1], id);
    }
  }

  lemma LegalTapeIsPositive(cfg: ExchangeConfig, s: Exchange, h: map<nat, MarketEvent>)
    requires LegalTape(cfg, s, h)
    ensures PositiveFills(s.books.fills)
  {
    forall i | 0 <= i < |s.books.fills|
      ensures 0 < s.books.fills[i].quantity
    {
      assert LegallyFilled(cfg, s.orders, s.books.fills[i], h);
    }
  }

  lemma LegalMarketFill(cfg: ExchangeConfig, orders: seq<PaperOrder>, f: PaperFill, h: map<nat, MarketEvent>)
    requires LegallyFilled(cfg, orders, f, h)
    ensures 1 <= f.orderId <= |orders|
    ensures orders[f.orderId - 1].request.orderType == Market ==> f.quantity == orders[f.orderId - 1].request.quantity
  {
  }

  /** A market order has at most one fill, in every run. */
  lemma MarketOrderFillsOnce(cfg: ExchangeConfig, actions: seq<Action>, i: nat, j: nat)
    requires i < j < |Reached(cfg, actions).books.fills|
    requires var fills := Reached(cfg, actions).books.fills; fills[i].orderId == fills[j].orderId
    ensures var s := Reached(cfg, actions);
            1 <= s.books.fills[i].orderId <= |s.orders|
            && s.orders[s.books.fills[i].orderId - 1].request.orderType != Market
  {
    hide Reached, Heard, Inv, LegallyFilled, FilledBy;
    var s, h := Reached(cfg, actions), Heard(cfg, InitialExchange(cfg), map[], actions);
    ReachedInv(cfg, actions);
    EveryFillIsLegal(cfg, actions);
    LegalTapeIsPositive(cfg, s, h);
    assert LegallyFilled(cfg, s.orders, s.books.fills[i], h) && LegallyFilled(cfg, s.orders, s.books.fills[j], h);
    LegalMarketFill(cfg, s.orders, s.books.fills[i], h);
    LegalMarketFill(cfg, s.orders, s.books.fills[j], h);
    TwoFills(s.books.fills, i, j, s.books.fills[i].orderId);
    ReachedOrder(cfg, s, s.books.fills[i].orderId - 1);
  }

  lemma ReachedOrder(cfg: ExchangeConfig, s: Exchange, k: nat)
    requires Inv(cfg, s) && k < |s.orders|
    ensures s.orders[k].orderId == k + 1 && GoodOrder(s.orders[k])
    ensures FilledBy(s.books.fills, k + 1) == s.orders[k].filled
  {
  }
}
