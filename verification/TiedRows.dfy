/** A replay whose rows tie in exchange time: an order decided on one row is not yet due on the next, a
    second one joins it, and both fill. */
module TiedRows {
  import opened FixedPoint
  import opened Types
  import opened LedgerModel
  import opened Risk
  import opened ExchangeModel
  import opened Matching
  import opened PositionLimits
  import opened ReplayModel

  function Options(): ReplayOptions {
    ReplayOptions(0, 10, 0, 1, 0, 0, 0)
  }

  function Config(): ExchangeConfig {
    ReplayConfig(Options())
  }

  /** Every event asks for a long position. */
  function AlwaysLong(): Policy {
    Policy({}, (state: ModelState) => ModelDecision(LongPosition, 1_000_000, 0, 0, state.sequence, ""))
  }

  function Row(sequence: nat, time: int): ReplayRow {
    ReplayRow(sequence, time, 1000, 1000, 0, 0, 0, 0, None)
  }

  /** Two rows at one time and a third after them. */
  function Rows(): seq<ReplayRow> {
    [Row(1, 1), Row(2, 1), Row(3, 2)]
  }

  function At(sequence: nat, time: int): MarketEvent {
    RowEvent(Row(sequence, time), 0)
  }

  function Order(name: string): OrderRequest {
    OrderRequest(name, Buy, Market, 100, None, 1, false)
  }

  function Waiting(id: nat, name: string): PaperOrder {
    PaperOrder(id, Order(name), Pending, 100, 0, 0, 2, None, NoReason)
  }

  function Held(position: nat, mark: int): LedgerState {
    LedgerState(10_000_000, position, position, if position == 0 then 0 else 1000, 0, 0, 0, 10_000_000, mark)
  }

  /** The exchange after the event, with some orders waiting and nothing bought. */
  predicate Waits(s: Exchange, e: MarketEvent, names: seq<string>) {
    && s.market == Some(e) && s.books.ledger == Held(0, 1000) && s.nextOrderId == |names| + 1
    && |s.orders| == |names|
    && (forall k :: 0 <= k < |names| ==> s.orders[k] == Waiting(k + 1, names[k]))
    && (forall id :: id in s.index ==> id in names)
  }

  lemma Notionals(quantity: nat)
    ensures ExactNotional(Config().ledger, quantity, 1000) == quantity
    ensures WideNotional(Config().ledger, quantity, 1000) == quantity
    ensures ScaleUp(Config().ledger) == 1 && ScaleDown(Config().ledger) == 1000
  {
    assert Pow10(3) == 1000;
    DivUnique(quantity * 1000, 1000, quantity);
  }

  // ----- the three rows -----

  lemma FirstEvent()
    ensures var s := OnMarketEvent(Config(), InitialExchange(Config()), At(1, 1)).0;
            EventAccepted(Config(), InitialExchange(Config()), At(1, 1)) && Waits(s, At(1, 1), [])
  {
    hide ExactNotional;
    Notionals(0);
  }

  lemma OrderPasses(s: Exchange, e: MarketEvent, names: seq<string>, name: string)
    requires Waits(s, e, names) && name !in names && name != ""
    requires e == At(1, 1) || e == At(2, 1)
    ensures SubmitProblem(Config(), s, Order(name), 1) == NoProblem
  {
    hide WideNotional;
    Notionals(100);
    assert Evaluate(Config().risk, Config().ledger, Order(name), e, s.books.ledger, 1) == Accept;
    assert NormalizedQuantity(Config(), 100) == 100;
  }

  lemma OrderWaits(s: Exchange, e: MarketEvent, names: seq<string>, name: string)
    requires WellFormed(s.orders) && Waits(s, e, names) && name !in names && name != ""
    requires e == At(1, 1) || e == At(2, 1)
    ensures Waits(Submit(Config(), s, Order(name), 1).0, e, names + [name])
  {
    hide SubmitProblem;
    OrderPasses(s, e, names, name);
    assert NormalizedQuantity(Config(), 100) == 100;
  }

  /** The tied event finds the order not yet due. */
  lemma TiedEvent(s: Exchange, name: string)
    requires WellFormed(s.orders) && Waits(s, At(1, 1), [name])
    ensures EventAccepted(Config(), s, At(2, 1)) && Waits(OnMarketEvent(Config(), s, At(2, 1)).0, At(2, 1), [name])
  {
    hide ExactNotional;
    var e := At(2, 1);
    assert Processed(Config(), s, e) == Opening(s, e) by {
      assert s.orders[0 := s.orders[0]] == s.orders;
      OneVisit(Activating, Opening(s, e), e);
      OneVisit(Matching, Opening(s, e), e);
      OneVisit(Cancelling, Opening(s, e), e);
    }
    Notionals(0);
  }

  lemma OneVisit(phase: Phase, floor: Floor, e: MarketEvent)
    requires WellFormed(floor.orders) && |floor.orders| == 1
    ensures FullPass(Config(), phase, floor, e) == VisitAt(Config(), phase, floor, 0, e)
  {
    hide VisitAt;
    assert Pass(Config(), phase, floor, 0, e) == floor;
  }

  lemma Mark(position: nat)
    requires position <= 200
    ensures Markable(Config().ledger, Held(position, 1000), 1000)
    ensures MarkedUnrealized(Config().ledger, position, position, 1000) == 0
  {
    hide ExactNotional;
    Notionals(position);
  }

  lemma BuyHundred(position: nat)
    requires position == 0 || position == 100
    ensures ApplyFill(Config().ledger, Held(position, 1000), 100, 1000, 0)
         == (Held(position + 100, 1000), LedgerMutation(Ok, 0, 0))
  {
    hide ExactNotional, Markable, MarkedUnrealized, AverageEntry;
    Notionals(100);
    Notionals(position + 100);
    Mark(position + 100);
    Average(position + 100);
    MarkReads(position + 100);
  }

  lemma Average(position: nat)
    requires position == 100 || position == 200
    ensures AverageEntry(Config().ledger, position, position) == Some(1000)
  {
    hide ScaleUp, ScaleDown;
    Notionals(0);
  }

  lemma MarkReads(position: nat)
    ensures forall st: LedgerState :: st.position == position && st.cost == position && st.cash == 10_000_000 ==>
              Markable(Config().ledger, st, 1000) == Markable(Config().ledger, Held(position, 1000), 1000)
  {
    hide ExactNotional, MarkedUnrealized;
  }

  lemma WaitingFills(b: Books, id: nat, name: string, position: nat)
    requires (position == 0 || position == 100) && b.ledger == Held(position, 1000)
    ensures var (b', o') := Activate(Config(), b, Waiting(id, name), At(3, 2));
            b'.ledger == Held(position + 100, 1000) && o'.status == Filled
  {
    hide ApplyFill, WideNotional;
    Notionals(100);
    BuyHundred(position);
    assert SlippedPrice(1000, Buy, 0) == Some(1000);
    assert FillFee(Config(), 100, 1000, false) == Some(0);
  }

  lemma LastEvent(s: Exchange, first: string, second: string)
    requires WellFormed(s.orders) && Waits(s, At(2, 1), [first, second])
    ensures OnMarketEvent(Config(), s, At(3, 2)).0.books.ledger.position == 200
  {
    hide Activate, MarkToMarket;
    var e, start := At(3, 2), Opening(s, At(3, 2));
    var one := Pass(Config(), Activating, start, 1, e);
    WaitingFills(start.books, 1, first, 0);
    assert one == VisitAt(Config(), Activating, Pass(Config(), Activating, start, 0, e), 0, e);
    WaitingFills(one.books, 2, second, 100);
    var two := Pass(Config(), Activating, start, 2, e);
    assert two == VisitAt(Config(), Activating, one, 1, e);
    IdlePass(Config(), Matching, two, 2, e);
    IdlePass(Config(), Cancelling, two, 2, e);
    MarkKeepsPosition(two.books.ledger);
  }

  lemma MarkKeepsPosition(st: LedgerState)
    ensures MarkToMarket(Config().ledger, st, 1000).0.position == st.position
  {
    hide Markable, MarkedUnrealized;
  }

  // ----- the replay -----

  lemma Names()
    ensures OrderName(1) == "replay-1" && OrderName(2) == "replay-2"
  {
    assert Decimal(1) == "1" && Decimal(2) == "2";
  }

  predicate Decides(d: Driver, sequence: nat) {
    d.pending == Some(PendingDecision(ModelDecision(LongPosition, 1_000_000, 0, 0, sequence, ""), 1))
  }

  lemma RowOne()
    ensures var d := OnRow(Options(), AlwaysLong(), InitialDriver(Options()), Row(1, 1));
            Waits(d.exchange, At(1, 1), []) && Decides(d, 1)
  {
    hide OnMarketEvent, EventAccepted;
    FirstEvent();
    Heard(InitialDriver(Options()), 1);
  }

  lemma Heard(d: Driver, sequence: nat)
    requires WellFormed(d.exchange.orders) && EventAccepted(Config(), d.exchange, At(sequence, 1))
    ensures Decides(OnEvent(Options(), AlwaysLong(), d, At(sequence, 1)), sequence)
    ensures OnEvent(Options(), AlwaysLong(), d, At(sequence, 1)).exchange
         == OnMarketEvent(Config(), d.exchange, At(sequence, 1)).0
  {
    hide EventAccepted, Processed, MarkToMarket;
  }

  lemma PlacesOne(d: Driver, e: MarketEvent, names: seq<string>, sequence: nat)
    requires WellFormed(d.exchange.orders) && Waits(d.exchange, e, names) && Decides(d, sequence)
    requires (e == At(1, 1) || e == At(2, 1)) && OrderName(sequence) !in names
    ensures Waits(Placed(Config(), d).exchange, e, names + [OrderName(sequence)])
  {
    hide Submit, OrderName;
    assert OrderName(sequence) != "" by { NameIsSome(sequence); }
    OrderWaits(d.exchange, e, names, OrderName(sequence));
  }

  lemma NameIsSome(sequence: nat)
    ensures OrderName(sequence) != ""
  {
  }

  lemma RowTwo(d: Driver)
    requires WellFormed(d.exchange.orders) && Waits(d.exchange, At(1, 1), []) && Decides(d, 1)
    ensures var d' := OnRow(Options(), AlwaysLong(), d, Row(2, 1));
            Waits(d'.exchange, At(2, 1), [OrderName(1)]) && Decides(d', 2)
  {
    hide OnMarketEvent, EventAccepted, Placed, OrderName;
    PlacesOne(d, At(1, 1), [], 1);
    assert [] + [OrderName(1)] == [OrderName(1)];
    TiedEvent(Placed(Config(), d).exchange, OrderName(1));
    Heard(Placed(Config(), d), 2);
  }

  lemma RowThree(d: Driver)
    requires WellFormed(d.exchange.orders) && Waits(d.exchange, At(2, 1), [OrderName(1)]) && Decides(d, 2)
    ensures OnRow(Options(), AlwaysLong(), d, Row(3, 2)).exchange.books.ledger.position == 200
  {
    hide OnMarketEvent, Placed, OrderName;
    Names();
    PlacesOne(d, At(2, 1), [OrderName(1)], 2);
    assert [OrderName(1)] + [OrderName(2)] == [OrderName(1), OrderName(2)];
    LastEvent(Placed(Config(), d).exchange, OrderName(1), OrderName(2));
  }

  /** With tied exchange times a replay misses its target: after the second row, which is an accepted
      event, an order is still live, and after the third the position is twice the target. */
  lemma TiedRowsMissTheTarget()
    ensures var initial := InitialDriver(Options());
            var two, three := Replay(Options(), AlwaysLong(), initial, Rows()[..2]), Replay(Options(), AlwaysLong(), initial, Rows());
            && Echoes(AlwaysLong())
            && two.Some? && two.value.exchange.market == Some(At(2, 1)) && !NoneLive(two.value.exchange.orders)
            && three.Some? && three.value.exchange.books.ledger.position == 200
  {
    hide OnRow, OrderName;
    var o, p, initial := Options(), AlwaysLong(), InitialDriver(Options());
    var one := OnRow(o, p, initial, Row(1, 1));
    var two := OnRow(o, p, one, Row(2, 1));
    RowOne();
    RowTwo(one);
    RowThree(two);
    assert !NoneLive(two.exchange.orders) by { assert two.exchange.orders[0] == Waiting(1, OrderName(1)); }
    var firstTwo := Rows()[..2];
    assert firstTwo[1..] == [Row(2, 1)] && firstTwo[1..][1..] == [];
    assert Replay(o, p, initial, firstTwo) == Replay(o, p, one, firstTwo[1..]);
    assert Replay(o, p, one, firstTwo[1..]) == Replay(o, p, two, []);
    assert Rows()[1..] == [Row(2, 1), Row(3, 2)] && Rows()[1..][1..] == [Row(3, 2)];
    assert Replay(o, p, initial, Rows()) == Replay(o, p, one, Rows()[1..]);
    assert Replay(o, p, one, Rows()[1..]) == Replay(o, p, two, [Row(3, 2)]);
    assert Replay(o, p, two, [Row(3, 2)]) == Replay(o, p, OnRow(o, p, two, Row(3, 2)), []);
  }
}
