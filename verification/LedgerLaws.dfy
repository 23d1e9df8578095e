/** What a fill and a mark do, said once in plain arithmetic: exactly when they succeed, and every balance
    they leave. */
module LedgerLaws {
  import opened FixedPoint
  import opened Types
  import opened LedgerModel
  import opened LedgerTheorems

  // ----- notionals in money -----

  /** A notional is quantity times price in account units, rounded down: with prices, quantities and
      money in units of ten to the minus their scales. */
  lemma NotionalInMoney(cfg: LedgerConfig, quantity: int, price: int)
    requires price >= 0
    ensures var n := ExactNotional(cfg, quantity, price);
            var priced := Magnitude(quantity) * price * Pow10(cfg.accountScale);
            var unit := Pow10(cfg.priceScale + cfg.quantityScale);
            n >= 0 && n * unit <= priced < (n + 1) * unit
  {
    hide ExactNotional, Pow10;
    var n, x := ExactNotional(cfg, quantity, price), Magnitude(quantity) * price;
    var s, a := cfg.priceScale + cfg.quantityScale, cfg.accountScale;
    NotionalFloor(cfg, quantity, price);
    if s < a {
      Pow10Add(a - s, s);
      Regroup(x, Pow10(a - s), Pow10(s));
    } else {
      Pow10Add(s - a, a);
      ScaledBracket(n, x, Pow10(s - a), Pow10(a));
    }
  }

  lemma Regroup(x: int, u: nat, p: nat)
    ensures (x * u) * p == x * (u * p)
  {
  }

  lemma ScaledBracket(n: int, x: int, d: nat, p: nat)
    requires d >= 1 && p >= 1 && 0 <= x - d * n < d
    ensures n * (d * p) <= x * p < (n + 1) * (d * p)
  {
    MulMono(p, d * n, x);
    MulMono(p, x + 1, d * n + d);
    assert p * (d * n) == n * (d * p);
    assert p * (d * n + d) == (n + 1) * (d * p);
    assert p * (x + 1) == x * p + p;
  }

  // ----- one fill -----

  /** How much of a fill closes. */
  function ClosedPart(position: int, quantity: int): nat {
    if (position > 0 && quantity < 0) || (position < 0 && quantity > 0) then Min(Magnitude(position), Magnitude(quantity))
    else 0
  }

  /** The cost that leaves with it, pro rata and rounded down. */
  function CostOfPart(position: int, cost: int, closed: nat): int {
    if position == 0 then 0 else (Magnitude(cost) * closed) / Magnitude(position)
  }

  /** The balances after a fill: the closed part leaves with its share of the cost and realizes the
      difference to its notional; the rest opens at its own notional. */
  function ExpectedFill(cfg: LedgerConfig, st: LedgerState, quantity: int, price: int, fee: int): LedgerState {
    var closed := ClosedPart(st.position, quantity);
    var share := CostOfPart(st.position, st.cost, closed);
    var profit := (if st.position < 0 then -1 else 1) * (ExactNotional(cfg, closed, price) - share);
    var position := st.position + quantity;
    var size := Magnitude(st.cost) - share + ExactNotional(cfg, Magnitude(quantity) - closed, price);
    var value := ExactNotional(cfg, position, price);
    var cash := st.cash + profit - fee;
    var gain := if position > 0 then value - size else if position < 0 then size - value else 0;
    LedgerState(cash, position, if position < 0 then -size else size,
                if position == 0 then 0 else (size * ScaleDown(cfg)) / ScaleUp(cfg) / Magnitude(position),
                st.realized + profit, gain, st.fees + fee, cash + gain, price)
  }

  /** Every number of the fill can be represented. */
  predicate FillFits(cfg: LedgerConfig, st: LedgerState, quantity: int, price: int, fee: int) {
    var after := ExpectedFill(cfg, st, quantity, price, fee);
    && Fits(ExactNotional(cfg, quantity, price)) && Fits(ExactNotional(cfg, after.position, price))
    && (ScaleUp(cfg) == 1 && after.position != 0 ==> FitsWide(Magnitude(after.cost) * ScaleDown(cfg)))
    && Representable(after)
  }

  ghost predicate SignedCost(st: LedgerState) {
    (st.position == 0 ==> st.cost == 0) && (st.position > 0 ==> st.cost >= 0) && (st.position < 0 ==> st.cost <= 0)
  }

  lemma ClosedFits(cfg: LedgerConfig, quantity: int, part: nat, price: int)
    requires part <= Magnitude(quantity) && price >= 0 && Fits(ExactNotional(cfg, quantity, price))
    ensures Fits(ExactNotional(cfg, part, price)) && ExactNotional(cfg, part, price) >= 0
  {
    hide ExactNotional;
    NotionalOfMagnitude(cfg, quantity, price);
    NotionalMonotone(cfg, part, Magnitude(quantity), price, price);
    NotionalFloor(cfg, part, price);
  }

  lemma AddingIsExact(cfg: LedgerConfig, st: LedgerState, quantity: int, price: int, fee: int)
    requires SignedCost(st) && quantity != 0 && price > 0 && Adds(st.position, quantity)
    ensures var after := ExpectedFill(cfg, st, quantity, price, fee);
            && after.position == st.position + quantity
            && after.cost == st.cost + Sign(quantity) * ExactNotional(cfg, quantity, price)
            && after.realized == st.realized
  {
    hide ExactNotional;
    NothingIsWorthNothing(cfg, price);
    NotionalOfMagnitude(cfg, quantity, price);
    NotionalFloor(cfg, quantity, price);
    assert ClosedPart(st.position, quantity) == 0;
    assert CostOfPart(st.position, st.cost, 0) == 0;
  }

  lemma ClosingIsExact(cfg: LedgerConfig, st: LedgerState, quantity: int, price: int, fee: int)
    requires SignedCost(st) && quantity != 0 && price > 0 && !Adds(st.position, quantity)
    ensures var after := ExpectedFill(cfg, st, quantity, price, fee);
            var closed := Min(Magnitude(st.position), Magnitude(quantity));
            var share := AllocatedCost(st.position, st.cost, closed);
            && after.position == st.position + quantity
            && after.cost == (if after.position == 0 then 0
                              else if Sign(after.position) == Sign(st.position) then st.cost - share
                              else Sign(after.position) * ExactNotional(cfg, after.position, price))
            && after.realized == st.realized + Sign(st.position) * (ExactNotional(cfg, closed, price) - Magnitude(share))
  {
    hide ExactNotional, AllocatedCost;
    var closed := ClosedPart(st.position, quantity);
    NothingIsWorthNothing(cfg, price);
    NotionalOfMagnitude(cfg, st.position + quantity, price);
    ShareOfCost(st.position, st.cost, closed);
    ShareMagnitude(st.position, st.cost, closed);
  }

  /** The settlement of a fill against the expected balances. */
  lemma SettlementIsExact(cfg: LedgerConfig, st: LedgerState, quantity: int, price: int, fee: int)
    requires SignedCost(st) && quantity != 0 && price > 0
    ensures var after := ExpectedFill(cfg, st, quantity, price, fee);
            var s := Settle(cfg, st.position, st.cost, quantity, price);
            && (s.Some? <==> Fits(ExactNotional(cfg, quantity, price)) && Fits(after.position) && Fits(after.cost))
            && (s.Some? ==> s.value == Settlement(after.position, after.cost, after.realized - st.realized))
  {
    hide ExactNotional, AllocatedCost, ExpectedFill;
    if Adds(st.position, quantity) {
      AddingIsExact(cfg, st, quantity, price, fee);
    } else {
      ClosingIsExact(cfg, st, quantity, price, fee);
      if Fits(ExactNotional(cfg, quantity, price)) {
        ClosedFits(cfg, quantity, Min(Magnitude(st.position), Magnitude(quantity)), price);
        NotionalOfMagnitude(cfg, st.position + quantity, price);
        if Magnitude(quantity) > Magnitude(st.position) {
          ClosedFits(cfg, quantity, Magnitude(st.position + quantity), price);
        }
      }
    }
  }

  /** Exactly which fills succeed, and every balance they leave.  A fill succeeds if and only if the
      configuration, the quantity, the price and the fee are valid and every number fits; any other fill
      changes nothing. */
  lemma FillIsExact(cfg: LedgerConfig, st: LedgerState, quantity: int, price: int, fee: int)
    requires SignedCost(st)
    ensures var (st', mutation) := ApplyFill(cfg, st, quantity, price, fee);
            var valid := ValidLedgerConfig(cfg) && quantity != 0 && price > 0 && fee >= 0;
            && (mutation.error == Ok <==> valid && FillFits(cfg, st, quantity, price, fee))
            && (mutation.error == Ok ==> st' == ExpectedFill(cfg, st, quantity, price, fee) && mutation.fee == fee)
            && (mutation.error != Ok ==>
                  st' == st && mutation.realized == 0 && mutation.fee == 0
                  && mutation.error == if valid then ArithmeticOverflow else InvalidFill)
  {
    hide ExactNotional, ScaleUp, ScaleDown, Settle, ExpectedFill;
    if FillAccepted(cfg, quantity, price, fee) {
      SettlementIsExact(cfg, st, quantity, price, fee);
      ExpectedShape(cfg, st, quantity, price, fee);
    }
  }

  /** The expected balances in terms of each other. */
  lemma ExpectedShape(cfg: LedgerConfig, st: LedgerState, quantity: int, price: int, fee: int)
    requires SignedCost(st) && quantity != 0 && price > 0
    ensures var after := ExpectedFill(cfg, st, quantity, price, fee);
            && SignedCost(after)
            && after.cash == st.cash + (after.realized - st.realized) - fee && after.fees == st.fees + fee
            && after.averageEntry == (if after.position == 0 then 0
                                      else (Magnitude(after.cost) * ScaleDown(cfg)) / ScaleUp(cfg) / Magnitude(after.position))
            && after.unrealized == MarkedUnrealized(cfg, after.position, after.cost, price)
            && after.equity == after.cash + after.unrealized && after.lastMark == price
  {
    hide ExactNotional, ScaleUp, ScaleDown;
    var closed := ClosedPart(st.position, quantity);
    NothingIsWorthNothing(cfg, price);
    NotionalFloor(cfg, Magnitude(quantity) - closed, price);
    if st.position != 0 {
      PartOfWhole(Magnitude(st.cost), closed, Magnitude(st.position));
    }
  }

  // ----- marks -----

  /** Exactly which marks succeed, and what they change: the value of the position at the price, the
      profit not yet realized, and the equity. */
  lemma MarkIsExact(cfg: LedgerConfig, st: LedgerState, price: int)
    requires SignedCost(st)
    ensures var (st', error) := MarkToMarket(cfg, st, price);
            var value := ExactNotional(cfg, st.position, price);
            var gain := (if st.position < 0 then -value else value) - st.cost;
            && (error == Ok <==> ValidLedgerConfig(cfg) && price > 0 && Fits(value) && Fits(gain) && Fits(st.cash + gain))
            && st' == (if error == Ok then st.(unrealized := gain, equity := st.cash + gain, lastMark := price) else st)
  {
    hide ExactNotional;
    NothingIsWorthNothing(cfg, price);
  }

  // ----- bounded balances never refuse -----

  /** How far a fill moves cost and profit. */
  lemma MovesAreBounded(cfg: LedgerConfig, st: LedgerState, quantity: int, price: int, fee: int)
    requires SignedCost(st) && quantity != 0 && price > 0
    ensures var after := ExpectedFill(cfg, st, quantity, price, fee);
            var most := Magnitude(st.cost) + ExactNotional(cfg, quantity, price);
            Magnitude(after.cost) <= most && Magnitude(after.realized - st.realized) <= most
  {
    hide ExactNotional;
    var closed := ClosedPart(st.position, quantity);
    NotionalOfMagnitude(cfg, quantity, price);
    NotionalFloor(cfg, closed, price);
    NotionalFloor(cfg, Magnitude(quantity) - closed, price);
    NotionalMonotone(cfg, closed, Magnitude(quantity), price, price);
    NotionalMonotone(cfg, Magnitude(quantity) - closed, Magnitude(quantity), price, price);
    if st.position != 0 {
      PartOfWhole(Magnitude(st.cost), closed, Magnitude(st.position));
    }
  }

  /** Where money, costs and notionals stay below an eighth of the range, also in units of price, every
      valid fill succeeds. */
  lemma BoundedFillSucceeds(cfg: LedgerConfig, st: LedgerState, quantity: int, price: int, fee: int, bound: nat)
    requires SignedCost(st) && ValidLedgerConfig(cfg) && quantity != 0 && price > 0 && 0 <= fee <= bound
    requires 8 * bound <= INT64_MAX && Fits(st.position + quantity)
    requires Magnitude(st.cash) <= bound && Magnitude(st.realized) <= bound && Magnitude(st.fees) <= bound
    requires Magnitude(st.cost) * ScaleDown(cfg) <= bound && ExactNotional(cfg, quantity, price) * ScaleDown(cfg) <= bound
    requires ExactNotional(cfg, st.position + quantity, price) <= bound
    ensures FillSucceeds(cfg, st, quantity, price, fee)
  {
    hide ExactNotional, ScaleUp, ScaleDown, ExpectedFill, FillFits, SignedCost;
    var after, d, n := ExpectedFill(cfg, st, quantity, price, fee), ScaleDown(cfg), ExactNotional(cfg, quantity, price);
    NotionalFloor(cfg, quantity, price);
    BelowScaled(n, d, bound);
    BelowScaled(Magnitude(st.cost), d, bound);
    MovesAreBounded(cfg, st, quantity, price, fee);
    BoundedEntry(Magnitude(after.cost), Magnitude(st.cost), n, d, ScaleUp(cfg), Magnitude(after.position), bound);
    ExpectedShape(cfg, st, quantity, price, fee);
    BoundedFits(cfg, st, quantity, price, fee, bound);
    FillIsExact(cfg, st, quantity, price, fee);
  }

  lemma BoundedFits(cfg: LedgerConfig, st: LedgerState, quantity: int, price: int, fee: int, bound: nat)
    requires SignedCost(st) && quantity != 0 && price > 0 && 0 <= fee <= bound
    requires 8 * bound <= INT64_MAX && Fits(st.position + quantity)
    requires Magnitude(st.cash) <= bound && Magnitude(st.realized) <= bound && Magnitude(st.fees) <= bound
    requires ExactNotional(cfg, quantity, price) <= bound && ExactNotional(cfg, st.position + quantity, price) <= bound
    requires var after := ExpectedFill(cfg, st, quantity, price, fee);
             && Magnitude(after.cost) <= 2 * bound && Magnitude(after.realized - st.realized) <= 2 * bound
             && FitsWide(Magnitude(after.cost) * ScaleDown(cfg))
             && 0 <= after.averageEntry <= 2 * bound
    ensures FillFits(cfg, st, quantity, price, fee)
  {
    hide ExactNotional, ScaleUp, ScaleDown, ExpectedFill, Representable, FitsWide;
    var after := ExpectedFill(cfg, st, quantity, price, fee);
    ExpectedPosition(cfg, st, quantity, price, fee);
    NotionalFloor(cfg, quantity, price);
    NotionalFloor(cfg, st.position + quantity, price);
    assert Representable(after) by { BoundedBalances(cfg, st, quantity, price, fee, bound); }
  }

  lemma BoundedBalances(cfg: LedgerConfig, st: LedgerState, quantity: int, price: int, fee: int, bound: nat)
    requires SignedCost(st) && quantity != 0 && price > 0 && 0 <= fee <= bound
    requires 8 * bound <= INT64_MAX && Fits(st.position + quantity)
    requires Magnitude(st.cash) <= bound && Magnitude(st.realized) <= bound && Magnitude(st.fees) <= bound
    requires ExactNotional(cfg, st.position + quantity, price) <= bound
    requires var after := ExpectedFill(cfg, st, quantity, price, fee);
             && Magnitude(after.cost) <= 2 * bound && Magnitude(after.realized - st.realized) <= 2 * bound
             && 0 <= after.averageEntry <= 2 * bound
    ensures Representable(ExpectedFill(cfg, st, quantity, price, fee))
  {
    hide ExactNotional, ScaleUp, ScaleDown, ExpectedFill;
    ExpectedPosition(cfg, st, quantity, price, fee);
    ExpectedGain(cfg, st, quantity, price, fee);
    NotionalFloor(cfg, st.position + quantity, price);
  }

  /** The part of the shape that does not divide. */
  lemma ExpectedGain(cfg: LedgerConfig, st: LedgerState, quantity: int, price: int, fee: int)
    requires SignedCost(st) && quantity != 0 && price > 0
    ensures var after := ExpectedFill(cfg, st, quantity, price, fee);
            && after.cash == st.cash + (after.realized - st.realized) - fee && after.fees == st.fees + fee
            && after.unrealized == MarkedUnrealized(cfg, after.position, after.cost, price)
            && after.equity == after.cash + after.unrealized
  {
    hide ExpectedFill, ExactNotional, MarkedUnrealized;
    ExpectedShape(cfg, st, quantity, price, fee);
  }

  lemma ExpectedPosition(cfg: LedgerConfig, st: LedgerState, quantity: int, price: int, fee: int)
    ensures ExpectedFill(cfg, st, quantity, price, fee).position == st.position + quantity
  {
  }

  lemma BoundedEntry(cost: nat, was: nat, n: nat, d: nat, u: nat, position: nat, bound: nat)
    requires d >= 1 && u >= 1 && cost <= was + n && was * d <= bound && n * d <= bound
    ensures 0 <= cost * d <= 2 * bound
    ensures position != 0 ==> 0 <= (cost * d) / u / position <= 2 * bound
  {
    MulMono(d, cost, was + n);
    assert d * (was + n) == was * d + n * d;
    if position != 0 {
      EntryBelow(cost * d, u, position);
    }
  }

  lemma BelowScaled(x: nat, d: nat, bound: nat)
    requires d >= 1 && x * d <= bound
    ensures x <= bound
  {
    MulMono(x, 1, d);
  }

  lemma EntryBelow(x: nat, u: nat, p: nat)
    requires u >= 1 && p >= 1
    ensures 0 <= x / u / p <= x
  {
    DivMono(0, x, u);
    DivBounds(x, u);
    DivBounds(x / u, p);
    MulMono(x / u, 1, u);
    MulMono(x / u / p, 1, p);
  }
}
