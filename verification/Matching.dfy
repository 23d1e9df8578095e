/** How one trade is shared among resting orders, and what a queue position is worth over a run. */
module Matching {
  import opened FixedPoint
  import opened Types
  import opened LedgerModel
  import opened ExchangeModel
  import opened ExchangeInvariants

  // ----- one order in one pass -----

  /** A pass leaves an order as its own visit left it. */
  lemma {:induction false} OrderInPass(cfg: ExchangeConfig, phase: Phase, floor: Floor, n: nat, k: nat, e: MarketEvent)
    requires k < |floor.orders| && n <= |floor.orders| && WellFormed(floor.orders)
    ensures var before := Pass(cfg, phase, floor, if k < n then k else n, e);
            && before.orders[k] == floor.orders[k]
            && (k < n ==> Pass(cfg, phase, floor, n, e).orders[k]
                          == Visit(cfg, phase, before.books, floor.orders[k], before.volume, e).1)
  {
    hide Visit;
    if n > 0 {
      OrderInPass(cfg, phase, floor, n - 1, k, e);
    }
  }

  /** A pass over orders that are all done changes nothing. */
  lemma {:induction false} IdlePass(cfg: ExchangeConfig, phase: Phase, floor: Floor, n: nat, e: MarketEvent)
    requires n <= |floor.orders| && WellFormed(floor.orders)
    requires forall k :: 0 <= k < n ==> IsTerminal(floor.orders[k].status)
    ensures Pass(cfg, phase, floor, n, e) == floor
  {
    if n > 0 {
      IdlePass(cfg, phase, floor, n - 1, e);
      assert floor.orders[n - 1 := floor.orders[n - 1]] == floor.orders;
    }
  }

  // ----- what a fill would do -----

  /** The ledger after a fill of an order, if pricing and ledger accept it. */
  function DryFill(cfg: ExchangeConfig, ledger: LedgerState, request: OrderRequest, quantity: int, price: int, maker: bool)
    : Option<LedgerState>
  {
    var fee := FillFee(cfg, quantity, price, maker);
    if fee.None? then None
    else
      var (after, mutation) := ApplyFill(cfg.ledger, ledger, SignedQuantity(request.side, quantity), price, fee.value);
      if mutation.error == Ok then Some(after) else None
  }

  /** A fill either goes through as the dry run says, or rejects the order and books nothing. */
  lemma FillOrderResult(cfg: ExchangeConfig, b: Books, o: PaperOrder, wanted: int, price: int, maker: bool, e: MarketEvent)
    requires GoodOrder(o) && !IsTerminal(o.status) && 0 < wanted <= o.remaining
    ensures var (b', o') := FillOrder(cfg, b, o, wanted, price, maker, e);
            var dry := DryFill(cfg, b.ledger, o.request, wanted, price, maker);
            && o'.queueAhead == o.queueAhead
            && (if dry.None? then b' == b && o'.status == Rejected && o'.filled == o.filled
                else b'.ledger == dry.value && o'.filled == o.filled + wanted && o'.remaining == o.remaining - wanted
                     && o'.status == (if wanted == o.remaining then OrderStatus.Filled else PartiallyFilled))
  {
    hide ApplyFill, FillFee;
  }

  // ----- sharing one trade -----

  ghost predicate QueuesKnown(orders: seq<PaperOrder>) {
    forall k :: 0 <= k < |orders| ==> orders[k].queueAhead >= 0
  }

  function TotalFilled(orders: seq<PaperOrder>): int {
    if orders == [] then 0 else TotalFilled(orders[..|orders| - 1]) + orders[|orders| - 1].filled
  }

  function TotalQueue(orders: seq<PaperOrder>): int {
    if orders == [] then 0 else TotalQueue(orders[..|orders| - 1]) + orders[|orders| - 1].queueAhead
  }

  lemma {:induction false} TotalsUpdate(orders: seq<PaperOrder>, k: nat, o: PaperOrder)
    requires k < |orders|
    ensures TotalFilled(orders[k := o]) == TotalFilled(orders) + o.filled - orders[k].filled
    ensures TotalQueue(orders[k := o]) == TotalQueue(orders) + o.queueAhead - orders[k].queueAhead
  {
    var n := |orders| - 1;
    if k < n {
      TotalsUpdate(orders[..n], k, o);
      assert orders[k := o][..n] == orders[..n][k := o];
    } else {
      assert orders[k := o][..n] == orders[..n];
    }
  }

  /** What a visit of the matching phase does with the volume left for one order, whatever the sign of
      its queue, and what it does when the queue is not negative. */
  lemma MatchOneShares(cfg: ExchangeConfig, b: Books, o: PaperOrder, e: MarketEvent, volume: int)
    requires GoodOrder(o) && volume >= 0
    ensures var (b', o', left) := MatchOne(cfg, b, o, e, volume);
            && 0 <= left && o.filled <= o'.filled
            && (o'.filled - o.filled) + (o.queueAhead - o'.queueAhead) <= volume - left
            && (o' != o ==> Reaches(o, e) && volume > 0)
            && (left > 0 && Reaches(o, e) ==> IsTerminal(o'.status))
            && (o'.filled > o.filled ==> o'.queueAhead == 0)
            && (o.queueAhead >= 0 ==> left <= volume && 0 <= o'.queueAhead <= o.queueAhead)
  {
    if volume > 0 && Reaches(o, e) {
      var ahead := Min(o.queueAhead, volume);
      var waiting := o.(queueAhead := o.queueAhead - ahead);
      var quantity := Min(o.remaining, volume - ahead);
      if volume - ahead > 0 {
        FillOrderResult(cfg, b, waiting, quantity, o.request.limitPrice.value, true, e);
      }
    }
  }

  ghost predicate Shareable(cfg: ExchangeConfig, floor: Floor) {
    WellFormed(floor.orders) && BooksInv(cfg, floor.books, floor.orders) && floor.volume >= 0
  }

  /** One visit inside a matching pass. */
  lemma MatchingVisit(cfg: ExchangeConfig, floor: Floor, k: nat, e: MarketEvent)
    requires k < |floor.orders| && Shareable(cfg, floor) && Shareable(cfg, Pass(cfg, Matching, floor, k, e))
    ensures var before := Pass(cfg, Matching, floor, k, e);
            var (b, o, left) := MatchOne(cfg, before.books, floor.orders[k], e, before.volume);
            && before.orders[k] == floor.orders[k] && GoodOrder(floor.orders[k])
            && Pass(cfg, Matching, floor, k + 1, e) == Floor(b, before.orders[k := o], left)
            && Shareable(cfg, Pass(cfg, Matching, floor, k + 1, e))
  {
    hide BooksInv, MatchOne, GoodOrder;
    var before := Pass(cfg, Matching, floor, k, e);
    OrderInPass(cfg, Matching, floor, k, k, e);
    OrdersAreGood(cfg, before.books, before.orders, k);
    PassKeepsBooks(cfg, Matching, floor, k + 1, e);
    MatchOneShares(cfg, before.books, before.orders[k], e, before.volume);
  }

  /** The state of a matching pass after n orders: no more queue consumed and quantity filled than
      volume used, and any volume left means that every order reached so far is done. */
  lemma {:induction false} PassShares(cfg: ExchangeConfig, floor: Floor, n: nat, e: MarketEvent)
    requires n <= |floor.orders| && Shareable(cfg, floor)
    ensures var after := Pass(cfg, Matching, floor, n, e);
            && Shareable(cfg, after)
            && (TotalFilled(after.orders) - TotalFilled(floor.orders))
               + (TotalQueue(floor.orders) - TotalQueue(after.orders)) <= floor.volume - after.volume
            && (after.volume > 0 ==>
                  forall i :: 0 <= i < n && Reaches(floor.orders[i], e) ==> IsTerminal(after.orders[i].status))
  {
    hide BooksInv, MatchOne, Reaches, GoodOrder, VisitAt;
    if n > 0 {
      var before := Pass(cfg, Matching, floor, n - 1, e);
      PassShares(cfg, floor, n - 1, e);
      MatchingVisit(cfg, floor, n - 1, e);
      MatchOneShares(cfg, before.books, floor.orders[n - 1], e, before.volume);
      TotalsUpdate(before.orders, n - 1, MatchOne(cfg, before.books, floor.orders[n - 1], e, before.volume).1);
    }
  }

  /** Time priority, whatever the displayed sizes: a later order is touched only if every earlier one the
      trade reaches is done, and volume left over means that every order it reaches is done.  What is
      filled and what is taken off the queues together never exceed the volume used. */
  lemma TradeIsSharedInOrder(cfg: ExchangeConfig, floor: Floor, e: MarketEvent)
    requires Shareable(cfg, floor)
    ensures var after := FullPass(cfg, Matching, floor, e);
            && 0 <= after.volume
            && (TotalFilled(after.orders) - TotalFilled(floor.orders))
               + (TotalQueue(floor.orders) - TotalQueue(after.orders)) <= floor.volume - after.volume
            && (forall i, j :: 0 <= i < j < |floor.orders| && Reaches(floor.orders[i], e) && after.orders[j] != floor.orders[j]
                               ==> IsTerminal(after.orders[i].status))
            && (after.volume > 0 ==>
                  forall i :: 0 <= i < |floor.orders| && Reaches(floor.orders[i], e)
                              ==> IsTerminal(after.orders[i].status))
  {
    hide BooksInv, Pass, VisitAt, Reaches, MatchOne;
    var n := |floor.orders|;
    var after := FullPass(cfg, Matching, floor, e);
    PassShares(cfg, floor, n, e);
    forall i, j | 0 <= i < j < n && Reaches(floor.orders[i], e) && after.orders[j] != floor.orders[j]
      ensures IsTerminal(after.orders[i].status)
    {
      PassShares(cfg, floor, j, e);
      OrderInPass(cfg, Matching, floor, n, j, e);
      OrderInPass(cfg, Matching, floor, n, i, e);
      OrderInPass(cfg, Matching, floor, j, i, e);
      var before := Pass(cfg, Matching, floor, j, e);
      OrdersAreGood(cfg, before.books, before.orders, j);
      MatchOneShares(cfg, before.books, before.orders[j], e, before.volume);
      assert before.orders[i] == after.orders[i];
    }
  }

  /** What one order keeps of its queue: it only shrinks, and a fill comes after the whole of it. */
  ghost predicate QueueShrinks(o: PaperOrder, o': PaperOrder) {
    && 0 <= o'.queueAhead <= o.queueAhead && o.filled <= o'.filled
    && (o'.filled > o.filled ==> o'.queueAhead == 0)
  }

  lemma MatchOneShrinks(cfg: ExchangeConfig, b: Books, o: PaperOrder, e: MarketEvent, volume: int)
    requires GoodOrder(o) && volume >= 0 && o.queueAhead >= 0
    ensures var (b', o', left) := MatchOne(cfg, b, o, e, volume);
            0 <= left <= volume && o'.filled - o.filled <= volume - left && QueueShrinks(o, o')
  {
    hide MatchOne;
    MatchOneShares(cfg, b, o, e, volume);
  }

  ghost predicate AllShrink(orders: seq<PaperOrder>, orders': seq<PaperOrder>) {
    |orders'| == |orders| && forall k :: 0 <= k < |orders| ==> QueueShrinks(orders[k], orders'[k])
  }

  lemma UntouchedShrink(orders: seq<PaperOrder>)
    requires QueuesKnown(orders)
    ensures AllShrink(orders, orders)
  {
  }

  lemma OneMoreShrinks(orders: seq<PaperOrder>, orders': seq<PaperOrder>, k: nat, o: PaperOrder)
    requires AllShrink(orders, orders') && k < |orders| && QueueShrinks(orders[k], o)
    ensures AllShrink(orders, orders'[k := o])
  {
    hide QueueShrinks;
  }

  /** With queues that are not negative: no queue grows, no order fills before its queue is gone, and
      the fills together stay within the volume used, which is part of the volume offered. */
  lemma {:induction false} PassIsBounded(cfg: ExchangeConfig, floor: Floor, n: nat, e: MarketEvent)
    requires n <= |floor.orders| && Shareable(cfg, floor) && QueuesKnown(floor.orders)
    ensures var after := Pass(cfg, Matching, floor, n, e);
            && 0 <= after.volume <= floor.volume
            && TotalFilled(after.orders) - TotalFilled(floor.orders) <= floor.volume - after.volume
            && AllShrink(floor.orders, after.orders)
  {
    hide BooksInv, MatchOne, QueueShrinks, AllShrink, GoodOrder, VisitAt;
    UntouchedShrink(floor.orders);
    if n > 0 {
      var before := Pass(cfg, Matching, floor, n - 1, e);
      PassIsBounded(cfg, floor, n - 1, e);
      PassShares(cfg, floor, n - 1, e);
      MatchingVisit(cfg, floor, n - 1, e);
      MatchOneShrinks(cfg, before.books, floor.orders[n - 1], e, before.volume);
      var o := MatchOne(cfg, before.books, floor.orders[n - 1], e, before.volume).1;
      TotalsUpdate(before.orders, n - 1, o);
      OneMoreShrinks(floor.orders, before.orders, n - 1, o);
    }
  }
}
