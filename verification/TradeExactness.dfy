/** Exactly which trades fill more than was traded, for displayed sizes of any sign. */
module TradeExactness {
  import opened FixedPoint
  import opened Types
  import opened LedgerModel
  import opened ExchangeModel
  import opened ExchangeInvariants
  import opened ExchangeTheorems
  import opened Matching
  import opened QueuePosition

  // ----- the orders a trade reaches -----

  /** The queues ahead of the orders a trade reaches, added up with their signs. */
  function QueueSum(orders: seq<PaperOrder>, e: MarketEvent): int {
    if orders == [] then 0
    else
      var o := orders[|orders| - 1];
      QueueSum(orders[..|orders| - 1], e) + (if Reaches(o, e) then o.queueAhead else 0)
  }

  /** What the orders a trade reaches have left to fill. */
  function RemainingSum(orders: seq<PaperOrder>, e: MarketEvent): int {
    if orders == [] then 0
    else
      var o := orders[|orders| - 1];
      RemainingSum(orders[..|orders| - 1], e) + (if Reaches(o, e) then o.remaining else 0)
  }

  /** The volume outlasts the first n orders: after each of them some of it is left. */
  predicate Outlasts(orders: seq<PaperOrder>, e: MarketEvent, volume: int, n: nat)
    requires n <= |orders|
  {
    forall i :: 0 <= i <= n ==> QueueSum(orders[..i], e) + RemainingSum(orders[..i], e) < volume
  }

  /** The trade gets as far as order k, up to which the queues add up to less than nothing and the orders
      have more left to fill than was traded. */
  predicate OverfillsAt(orders: seq<PaperOrder>, e: MarketEvent, volume: int, k: nat)
    requires k < |orders|
  {
    Outlasts(orders, e, volume, k) && QueueSum(orders[..k + 1], e) < 0 && RemainingSum(orders[..k + 1], e) > volume
  }

  predicate OverfillsWithin(orders: seq<PaperOrder>, e: MarketEvent, volume: int, n: nat)
    requires n <= |orders|
  {
    exists k :: 0 <= k < n && OverfillsAt(orders, e, volume, k)
  }

  // ----- the fills a trade asks for -----

  /** How much of order k the trade asks to fill. */
  function AskedOf(orders: seq<PaperOrder>, e: MarketEvent, volume: int, k: nat): int
    requires k < |orders|
  {
    if Reaches(orders[k], e) && Outlasts(orders, e, volume, k) then
      Min(orders[k].remaining,
          Max(0, volume - QueueSum(orders[..k], e) - RemainingSum(orders[..k], e) - orders[k].queueAhead))
    else 0
  }

  /** What the fills asked for come to: the ledger, the quantity filled, and whether any was refused. */
  datatype DryTrade = DryTrade(ledger: LedgerState, filled: int, refused: bool)

  function BookTrade(cfg: ExchangeConfig, ledger: LedgerState, orders: seq<PaperOrder>, e: MarketEvent, volume: int, n: nat)
    : DryTrade
    requires n <= |orders| && WellFormed(orders)
  {
    if n == 0 then DryTrade(ledger, 0, false)
    else
      var before := BookTrade(cfg, ledger, orders, e, volume, n - 1);
      var asked := AskedOf(orders, e, volume, n - 1);
      if asked <= 0 then before
      else
        var dry := DryFill(cfg, before.ledger, orders[n - 1].request, asked, orders[n - 1].request.limitPrice.value, true);
        if dry.None? then before.(refused := true) else DryTrade(dry.value, before.filled + asked, before.refused)
  }

  lemma SumsStep(orders: seq<PaperOrder>, e: MarketEvent, n: nat)
    requires n < |orders|
    ensures QueueSum(orders[..n + 1], e)
         == QueueSum(orders[..n], e) + (if Reaches(orders[n], e) then orders[n].queueAhead else 0)
    ensures RemainingSum(orders[..n + 1], e)
         == RemainingSum(orders[..n], e) + (if Reaches(orders[n], e) then orders[n].remaining else 0)
  {
    assert orders[..n + 1][..n] == orders[..n];
  }

  lemma OutlastsStep(orders: seq<PaperOrder>, e: MarketEvent, volume: int, n: nat)
    requires n < |orders|
    ensures Outlasts(orders, e, volume, n + 1) <==>
              Outlasts(orders, e, volume, n) && QueueSum(orders[..n + 1], e) + RemainingSum(orders[..n + 1], e) < volume
    ensures OverfillsWithin(orders, e, volume, n + 1) <==>
              OverfillsWithin(orders, e, volume, n) || OverfillsAt(orders, e, volume, n)
  {
    hide QueueSum, RemainingSum, OverfillsAt;
  }

  /** A trade that outlasts orders with more left to fill than was traded has overfilled within them. */
  lemma OutlastedOverfill(orders: seq<PaperOrder>, e: MarketEvent, volume: int, n: nat)
    requires n <= |orders| && volume >= 0 && Outlasts(orders, e, volume, n) && RemainingSum(orders[..n], e) > volume
    ensures OverfillsWithin(orders, e, volume, n)
  {
    assert n > 0;
    OutlastsStep(orders, e, volume, n - 1);
    assert OverfillsAt(orders, e, volume, n - 1);
  }

  // ----- one visit -----

  /** A visit with volume left: the volume goes down by the queue and the remainder, and the order fills
      by what is asked, or is rejected. */
  lemma VisitExactly(cfg: ExchangeConfig, b: Books, o: PaperOrder, e: MarketEvent, volume: int)
    requires GoodOrder(o) && volume > 0 && Reaches(o, e)
    ensures var (b', o', left) := MatchOne(cfg, b, o, e, volume);
            var asked := Min(o.remaining, Max(0, volume - o.queueAhead));
            && left == Max(0, volume - o.queueAhead - o.remaining)
            && (if asked == 0 then b' == b && o'.filled == o.filled
                else
                  var dry := DryFill(cfg, b.ledger, o.request, asked, o.request.limitPrice.value, true);
                  if dry.None? then b' == b && o'.filled == o.filled else b'.ledger == dry.value && o'.filled == o.filled + asked)
  {
    hide FillOrder, DryFill;
    var ahead := Min(o.queueAhead, volume);
    if volume - ahead > 0 {
      FillOrderResult(cfg, b, o.(queueAhead := o.queueAhead - ahead), Min(o.remaining, volume - ahead),
                      o.request.limitPrice.value, true, e);
    }
  }

  lemma VisitWithoutEffect(cfg: ExchangeConfig, b: Books, o: PaperOrder, e: MarketEvent, volume: int)
    requires volume == 0 || !Reaches(o, e)
    ensures MatchOne(cfg, b, o, e, volume) == (b, o, volume)
  {
  }

  // ----- a whole trade -----

  /** What a matching pass has come to after n orders. */
  ghost predicate TradeSoFar(cfg: ExchangeConfig, floor: Floor, after: Floor, n: nat, e: MarketEvent)
    requires n <= |floor.orders| && WellFormed(floor.orders)
  {
    var orders, volume := floor.orders, floor.volume;
    var filled := TotalFilled(after.orders) - TotalFilled(orders);
    var queues, remaining := QueueSum(orders[..n], e), RemainingSum(orders[..n], e);
    var booked := BookTrade(cfg, floor.books.ledger, orders, e, volume, n);
    && filled == booked.filled && after.books.ledger == booked.ledger
    && (if Outlasts(orders, e, volume, n)
        then after.volume == volume - queues - remaining && filled <= remaining && (!booked.refused ==> filled == remaining)
        else after.volume == 0)
    && (filled > volume ==> OverfillsWithin(orders, e, volume, n))
    && (!booked.refused && OverfillsWithin(orders, e, volume, n) ==> filled > volume)
  }

  lemma {:induction false} TradeFolds(cfg: ExchangeConfig, floor: Floor, n: nat, e: MarketEvent)
    requires n <= |floor.orders| && Shareable(cfg, floor)
    ensures TradeSoFar(cfg, floor, Pass(cfg, Matching, floor, n, e), n, e)
  {
    hide BooksInv, MatchOne, Reaches, GoodOrder, DryFill, TradeSoFar, VisitAt;
    if n == 0 {
      assert TradeSoFar(cfg, floor, floor, 0, e) by { NothingTraded(cfg, floor, e); }
    } else {
      TradeFolds(cfg, floor, n - 1, e);
      PassShares(cfg, floor, n - 1, e);
      MatchingVisit(cfg, floor, n - 1, e);
      TradeStep(cfg, floor, Pass(cfg, Matching, floor, n - 1, e), n - 1, e);
    }
  }

  lemma NothingTraded(cfg: ExchangeConfig, floor: Floor, e: MarketEvent)
    requires Shareable(cfg, floor)
    ensures TradeSoFar(cfg, floor, floor, 0, e)
  {
    hide BooksInv;
    assert floor.orders[..0] == [];
  }

  lemma TradeStep(cfg: ExchangeConfig, floor: Floor, before: Floor, n: nat, e: MarketEvent)
    requires n < |floor.orders| && WellFormed(floor.orders) && floor.volume >= 0
    requires |before.orders| == |floor.orders| && before.orders[n] == floor.orders[n] && GoodOrder(floor.orders[n])
    requires before.volume >= 0 && TradeSoFar(cfg, floor, before, n, e)
    ensures var (b, o, left) := MatchOne(cfg, before.books, floor.orders[n], e, before.volume);
            TradeSoFar(cfg, floor, Floor(b, before.orders[n := o], left), n + 1, e)
  {
    hide MatchOne, Reaches, GoodOrder, DryFill, Outlasts, OverfillsWithin, QueueSum, RemainingSum, TotalFilled;
    var orders, volume, o := floor.orders, floor.volume, floor.orders[n];
    SumsStep(orders, e, n);
    OutlastsStep(orders, e, volume, n);
    TotalsUpdate(before.orders, n, MatchOne(cfg, before.books, o, e, before.volume).1);
    Emptied(orders, e, volume, n);
    if before.volume == 0 || !Reaches(o, e) {
      VisitWithoutEffect(cfg, before.books, o, e, before.volume);
    } else {
      VisitExactly(cfg, before.books, o, e, before.volume);
      LiveRemainder(o, e);
    }
    if RemainingSum(orders[..n], e) > volume && Outlasts(orders, e, volume, n) {
      OutlastedOverfill(orders, e, volume, n);
    }
  }

  lemma LiveRemainder(o: PaperOrder, e: MarketEvent)
    requires GoodOrder(o) && Reaches(o, e)
    ensures o.remaining > 0
  {
  }

  lemma Emptied(orders: seq<PaperOrder>, e: MarketEvent, volume: int, n: nat)
    requires n <= |orders|
    ensures Outlasts(orders, e, volume, n) ==> QueueSum(orders[..n], e) + RemainingSum(orders[..n], e) < volume
  {
    hide QueueSum, RemainingSum;
  }

  /** Which trades fill more than was traded, for any displayed sizes.  What a trade fills is what a dry
      run before it says.  It is more than was traded only if the trade gets as far as an order up to
      which the queues of the orders reached add up to less than nothing while more is left to fill than
      was traded; and always then, unless a fill is refused. */
  lemma TradeOverfillIsExact(cfg: ExchangeConfig, actions: seq<Action>, e: MarketEvent)
    ensures WellFormed(Reached(cfg, actions).orders)
    ensures var before, after := Activated(cfg, Reached(cfg, actions), e), Matched(cfg, Reached(cfg, actions), e);
            var filled := TotalFilled(after.orders) - TotalFilled(before.orders);
            var n := |before.orders|;
            var booked := BookTrade(cfg, before.books.ledger, before.orders, e, TradedVolume(e), n);
            && filled == booked.filled
            && (filled > TradedVolume(e) ==> OverfillsWithin(before.orders, e, TradedVolume(e), n))
            && (!booked.refused ==>
                  (filled > TradedVolume(e) <==> OverfillsWithin(before.orders, e, TradedVolume(e), n)))
  {
    hide Run, Inv, Pass, Activated, OverfillsWithin, BookTrade, Outlasts;
    ReachedInv(cfg, actions);
    TradeIsShareable(cfg, Reached(cfg, actions), e);
    var floor := Activated(cfg, Reached(cfg, actions), e);
    TradeFolds(cfg, floor, |floor.orders|, e);
  }
}
