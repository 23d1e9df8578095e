/** What truncation can and cannot do to the books: conservation over whole runs. */
module LedgerTheorems {
  import opened FixedPoint
  import opened Types
  import opened LedgerModel

  // ----- notionals -----

  /** For a non-negative price a notional is the floor of the exact product. */
  lemma NotionalFloor(cfg: LedgerConfig, quantity: int, price: int)
    requires price >= 0
    ensures var n := ExactNotional(cfg, quantity, price);
            n >= 0 && 0 <= Magnitude(quantity) * price * ScaleUp(cfg) - ScaleDown(cfg) * n < ScaleDown(cfg)
  {
    var exact := Magnitude(quantity) * price * ScaleUp(cfg);
    assert Magnitude(quantity) * price >= 0 by { MulMono(Magnitude(quantity), 0, price); }
    assert exact >= 0 by { MulMono(ScaleUp(cfg), 0, Magnitude(quantity) * price); }
    DivBounds(exact, ScaleDown(cfg));
    DivMono(0, exact, ScaleDown(cfg));
  }

  lemma MulNonNegative(a: int, b: int)
    requires a >= 0 && b >= 0
    ensures a * b >= 0
  {
  }

  lemma Distribute(a: int, b: int, p: int, u: int)
    ensures (a + b) * p * u == a * p * u + b * p * u
  {
  }

  /** Splitting a quantity in two loses at most one unit of notional, and none without a down-scaling. */
  lemma NotionalSplit(cfg: LedgerConfig, a: nat, b: nat, price: int)
    requires price >= 0
    ensures var lost := ExactNotional(cfg, a + b, price) - ExactNotional(cfg, a, price) - ExactNotional(cfg, b, price);
            0 <= lost <= 1 && (ScaleDown(cfg) == 1 ==> lost == 0)
  {
    var u, d := ScaleUp(cfg), ScaleDown(cfg);
    var x, y := a * price * u, b * price * u;
    assert x >= 0 && y >= 0 by {
      MulNonNegative(a, price);
      MulNonNegative(b, price);
      MulNonNegative(a * price, u);
      MulNonNegative(b * price, u);
    }
    Distribute(a, b, price, u);
    DivSplit(x, y, d);
  }

  lemma NotionalMonotone(cfg: LedgerConfig, a: nat, b: nat, p: int, q: int)
    requires a <= b && 0 <= p <= q
    ensures ExactNotional(cfg, a, p) <= ExactNotional(cfg, b, q)
  {
    MulMono(p, a, b);
    MulMono(b, p, q);
    MulMono(p, 0, a);
    MulMono(ScaleUp(cfg), 0, a * p);
    MulMono(ScaleUp(cfg), a * p, b * q);
    DivMono(a * p * ScaleUp(cfg), b * q * ScaleUp(cfg), ScaleDown(cfg));
  }

  // ----- one fill -----

  /** The signed notional a fill moves: a reversal counts its closing and its opening part separately. */
  function SignedFlow(cfg: LedgerConfig, position: int, quantity: int, price: int): int {
    if Reverses(position, quantity) then
      Sign(quantity) * (ExactNotional(cfg, position, price) + ExactNotional(cfg, position + quantity, price))
    else
      Sign(quantity) * ExactNotional(cfg, quantity, price)
  }

  predicate Reverses(position: int, quantity: int) {
    !Adds(position, quantity) && Magnitude(quantity) > Magnitude(position)
  }

  /** A cost carries the sign of its position, cash is explained by profit and fees, and the
      reported equity is the equity at the last mark. */
  ghost predicate Balanced(cfg: LedgerConfig, st: LedgerState) {
    && (st.position == 0 ==> st.cost == 0)
    && (st.position > 0 ==> st.cost >= 0)
    && (st.position < 0 ==> st.cost <= 0)
    && st.cash == InitialLedger(cfg).cash + st.realized - st.fees
    && st.equity == st.cash + st.unrealized
    && st.lastMark >= 0
    && (st.lastMark == 0 ==> st.position == 0)
    && st.equity == EquityAt(cfg, st, st.lastMark)
  }

  /** Equity with the position valued at a price, before any 64-bit check. */
  function EquityAt(cfg: LedgerConfig, st: LedgerState, price: int): int {
    st.cash + Sign(st.position) * ExactNotional(cfg, st.position, price) - st.cost
  }

  /** Part of a cost is no more than the cost, and the whole of it for the whole position. */
  lemma PartOfWhole(whole: nat, part: nat, total: nat)
    requires 0 < total && part <= total
    ensures 0 <= (whole * part) / total <= whole
    ensures part == total ==> (whole * part) / total == whole
  {
    MulMono(whole, 0, part);
    MulMono(whole, part, total);
    DivMono(0, whole * part, total);
    DivMono(whole * part, whole * total, total);
    assert whole * total == total * whole;
    DivUnique(whole * total, total, whole);
    DivUnique(0, total, 0);
  }

  lemma ShareOfCost(position: int, cost: int, closed: nat)
    requires position != 0 && closed <= Magnitude(position)
    requires (position > 0 ==> cost >= 0) && (position < 0 ==> cost <= 0)
    ensures var share := AllocatedCost(position, cost, closed);
            && 0 <= Sign(position) * share <= Magnitude(cost)
            && (closed == Magnitude(position) ==> share == cost)
  {
    PartOfWhole(Magnitude(cost), closed, Magnitude(position));
    if position < 0 {
      assert cost * closed == -(Magnitude(cost) * closed);
      MulNonNegative(Magnitude(cost), closed);
    } else {
      MulNonNegative(cost, closed);
    }
  }

  /** Realized profit less cost moves by exactly the signed notional: the truncated
      allocation of cost never creates or loses a unit. */
  lemma SettleConserves(cfg: LedgerConfig, position: int, cost: int, quantity: int, price: int)
    requires quantity != 0 && price > 0
    requires (position == 0 ==> cost == 0) && (position > 0 ==> cost >= 0) && (position < 0 ==> cost <= 0)
    requires Settle(cfg, position, cost, quantity, price).Some?
    ensures var s := Settle(cfg, position, cost, quantity, price).value;
            && s.position == position + quantity
            && s.realized - s.cost == -cost - SignedFlow(cfg, position, quantity, price)
            && (s.position == 0 ==> s.cost == 0) && (s.position > 0 ==> s.cost >= 0) && (s.position < 0 ==> s.cost <= 0)
  {
    NotionalFloor(cfg, quantity, price);
    if !Adds(position, quantity) {
      var closed := Min(Magnitude(position), Magnitude(quantity));
      ShareOfCost(position, cost, closed);
      NotionalFloor(cfg, position + quantity, price);
      assert ExactNotional(cfg, closed, price)
          == ExactNotional(cfg, if Reverses(position, quantity) then position else quantity, price);
    }
  }

  /** A successful fill keeps the books balanced, moves the position by the quantity and charges the fee. */
  lemma FillKeepsBalance(cfg: LedgerConfig, st: LedgerState, quantity: int, price: int, fee: int)
    requires Balanced(cfg, st)
    requires FillSucceeds(cfg, st, quantity, price, fee)
    ensures var st' := ApplyFill(cfg, st, quantity, price, fee).0;
            && Balanced(cfg, st')
            && st'.position == st.position + quantity
            && st'.fees == st.fees + fee
            && st'.lastMark == price
            && st'.realized - st'.cost == st.realized - st.cost - SignedFlow(cfg, st.position, quantity, price)
  {
    SettleConserves(cfg, st.position, st.cost, quantity, price);
  }

  lemma MarkKeepsBalance(cfg: LedgerConfig, st: LedgerState, price: int)
    requires Balanced(cfg, st)
    ensures Balanced(cfg, MarkToMarket(cfg, st, price).0)
  {
  }

  /** How much the value of the position at a price moves when a quantity is added. */
  function ValueGain(cfg: LedgerConfig, position: int, quantity: int, mark: int): int {
    Sign(position + quantity) * ExactNotional(cfg, position + quantity, mark)
      - Sign(position) * ExactNotional(cfg, position, mark)
  }

  /** Without a reversal the move in value is the fill's own value at the mark; a buy may
      gain, and a sell may lose, one unit more, but only where a remainder can merge. */
  lemma ValueGainOfPart(cfg: LedgerConfig, position: int, quantity: int, mark: int)
    requires quantity != 0 && mark >= 0 && !Reverses(position, quantity)
    ensures var slack := ValueGain(cfg, position, quantity, mark) - Sign(quantity) * ExactNotional(cfg, quantity, mark);
            && 0 <= Sign(quantity) * slack <= 1
            && (ScaleDown(cfg) == 1 || position == 0 || position + quantity == 0 ==> slack == 0)
  {
    var p, q := Magnitude(position), Magnitude(quantity);
    NothingIsWorthNothing(cfg, mark);
    if Adds(position, quantity) {
      assert Magnitude(position + quantity) == p + q;
      NotionalSplit(cfg, p, q, mark);
    } else {
      assert Magnitude(position + quantity) == p - q;
      NotionalSplit(cfg, p - q, q, mark);
    }
    NotionalOfMagnitude(cfg, position, mark);
    NotionalOfMagnitude(cfg, quantity, mark);
    NotionalOfMagnitude(cfg, position + quantity, mark);
  }

  lemma NothingIsWorthNothing(cfg: LedgerConfig, price: int)
    ensures ExactNotional(cfg, 0, price) == 0
  {
    assert 0 * price == 0;
    DivUnique(0, ScaleDown(cfg), 0);
  }

  lemma NotionalOfMagnitude(cfg: LedgerConfig, quantity: int, price: int)
    ensures ExactNotional(cfg, quantity, price) == ExactNotional(cfg, Magnitude(quantity), price)
  {
  }

  // ----- equity around one fill -----

  /** What a successful fill does to equity at any mark. */
  lemma FillGain(cfg: LedgerConfig, st: LedgerState, quantity: int, price: int, fee: int, mark: int)
    requires Balanced(cfg, st) && FillSucceeds(cfg, st, quantity, price, fee)
    ensures EquityAt(cfg, ApplyFill(cfg, st, quantity, price, fee).0, mark) ==
            EquityAt(cfg, st, mark) - fee
            + ValueGain(cfg, st.position, quantity, mark) - SignedFlow(cfg, st.position, quantity, price)
  {
    FillKeepsBalance(cfg, st, quantity, price, fee);
  }

  lemma ReversalValueGain(cfg: LedgerConfig, position: int, quantity: int, mark: int)
    requires Reverses(position, quantity)
    ensures ValueGain(cfg, position, quantity, mark) == SignedFlow(cfg, position, quantity, mark)
  {
  }

  /** Trading at the mark costs the fee, give or take one account unit, and exactly the fee when
      opening from flat, closing fully, reversing, or when notionals are not scaled down. */
  lemma FillAtMarkCostsTheFee(cfg: LedgerConfig, st: LedgerState, quantity: int, price: int, fee: int)
    requires Balanced(cfg, st) && FillSucceeds(cfg, st, quantity, price, fee)
    ensures var st' := ApplyFill(cfg, st, quantity, price, fee).0;
            var slack := st'.equity - EquityAt(cfg, st, price) + fee;
            && 0 <= Sign(quantity) * slack <= 1
            && (st.position == 0 || st'.position == 0 || Reverses(st.position, quantity) || ScaleDown(cfg) == 1
                ==> slack == 0)
  {
    FillKeepsBalance(cfg, st, quantity, price, fee);
    FillGain(cfg, st, quantity, price, fee, price);
    GainAtFillPrice(cfg, st.position, quantity, price);
  }

  lemma GainAtFillPrice(cfg: LedgerConfig, position: int, quantity: int, price: int)
    requires quantity != 0 && price >= 0
    ensures var slack := ValueGain(cfg, position, quantity, price) - SignedFlow(cfg, position, quantity, price);
            && 0 <= Sign(quantity) * slack <= 1
            && (position == 0 || position + quantity == 0 || Reverses(position, quantity) || ScaleDown(cfg) == 1
                ==> slack == 0)
  {
    if Reverses(position, quantity) {
      ReversalValueGain(cfg, position, quantity, price);
    } else {
      ValueGainOfPart(cfg, position, quantity, price);
    }
  }

  /** A fill no better than the mark (a buy at or above it, a sell at or below it) gains at most
      one account unit less the fee, and a sell gains nothing. */
  lemma FillBeyondMarkGainsNothing(cfg: LedgerConfig, st: LedgerState, quantity: int, price: int, fee: int, mark: int)
    requires Balanced(cfg, st) && FillSucceeds(cfg, st, quantity, price, fee)
    requires mark >= 0 && (quantity > 0 ==> price >= mark) && (quantity < 0 ==> price <= mark)
    ensures EquityAt(cfg, ApplyFill(cfg, st, quantity, price, fee).0, mark)
            <= EquityAt(cfg, st, mark) - fee + (if quantity > 0 then 1 else 0)
  {
    FillGain(cfg, st, quantity, price, fee, mark);
    var low, high := Min(price, mark), Max(price, mark);
    NotionalOfMagnitude(cfg, quantity, mark);
    NotionalOfMagnitude(cfg, quantity, price);
    NotionalMonotone(cfg, Magnitude(quantity), Magnitude(quantity), low, high);
    if Reverses(st.position, quantity) {
      var rest := st.position + quantity;
      ReversalValueGain(cfg, st.position, quantity, mark);
      NotionalMonotone(cfg, Magnitude(st.position), Magnitude(st.position), low, high);
      NotionalMonotone(cfg, Magnitude(rest), Magnitude(rest), low, high);
    } else {
      ValueGainOfPart(cfg, st.position, quantity, mark);
    }
  }

  /** The narrowing conversions inside a closing fill lose nothing: the closed quantity and the
      allocated cost always fit in 64 bits. */
  lemma ClosingConversionsAreExact(position: int, cost: int, quantity: int)
    requires Fits(position) && Fits(cost) && Fits(quantity) && position != 0 && !Adds(position, quantity)
    requires (position > 0 ==> cost >= 0) && (position < 0 ==> cost <= 0) && quantity != 0
    ensures var closed := Min(Magnitude(position), Magnitude(quantity));
            closed > 0 && Fits(closed) && Fits(AllocatedCost(position, cost, closed))
  {
    ShareOfCost(position, cost, Min(Magnitude(position), Magnitude(quantity)));
  }

  // ----- runs -----

  datatype LedgerOp = FillOp(quantity: int, price: int, fee: int) | MarkOp(price: int)

  function StepLedger(cfg: LedgerConfig, st: LedgerState, op: LedgerOp): LedgerState {
    match op
    case FillOp(quantity, price, fee) => ApplyFill(cfg, st, quantity, price, fee).0
    case MarkOp(price) => MarkToMarket(cfg, st, price).0
  }

  function RunLedger(cfg: LedgerConfig, st: LedgerState, ops: seq<LedgerOp>): LedgerState
    decreases |ops|
  {
    if ops == [] then st else RunLedger(cfg, StepLedger(cfg, st, ops[0]), ops[1..])
  }

  /** What the successful fills of a run add up to. */
  datatype Totals = Totals(quantity: int, exact: int, flow: int, fees: int, fills: nat, reversals: nat)

  function FillTotals(cfg: LedgerConfig, st: LedgerState, op: LedgerOp): Totals {
    if op.FillOp? && FillSucceeds(cfg, st, op.quantity, op.price, op.fee) then
      Totals(op.quantity, op.quantity * op.price, SignedFlow(cfg, st.position, op.quantity, op.price), op.fee, 1,
             if Reverses(st.position, op.quantity) then 1 else 0)
    else
      Totals(0, 0, 0, 0, 0, 0)
  }

  function Plus(a: Totals, b: Totals): Totals {
    Totals(a.quantity + b.quantity, a.exact + b.exact, a.flow + b.flow, a.fees + b.fees,
           a.fills + b.fills, a.reversals + b.reversals)
  }

  function RunTotals(cfg: LedgerConfig, st: LedgerState, ops: seq<LedgerOp>): Totals
    decreases |ops|
  {
    if ops == [] then Totals(0, 0, 0, 0, 0, 0)
    else Plus(FillTotals(cfg, st, ops[0]), RunTotals(cfg, StepLedger(cfg, st, ops[0]), ops[1..]))
  }

  lemma InitialBalanced(cfg: LedgerConfig)
    ensures Balanced(cfg, InitialLedger(cfg))
  {
    NothingIsWorthNothing(cfg, 0);
  }

  /** The rounding error of some fills, as a whole number of 1/ScaleDown units. */
  function RoundingError(u: int, d: int, t: Totals): int {
    u * t.exact - d * t.flow
  }

  predicate WithinRounding(u: int, d: int, t: Totals) {
    Magnitude(RoundingError(u, d, t)) <= (t.fills + t.reversals) * (d - 1)
  }

  lemma SignedError(sign: int, d: int, x: int, n: int, bound: int)
    requires -1 <= sign <= 1 && 0 <= x - d * n <= bound
    ensures Magnitude(sign * x - d * (sign * n)) <= bound
  {
    assert d * (sign * n) == sign * (d * n);
  }

  lemma SignedProduct(u: int, quantity: int, price: int)
    ensures u * (quantity * price) == Sign(quantity) * (Magnitude(quantity) * price * u)
  {
  }

  /** Each truncated notional is short of the exact product by less than one unit. */
  lemma FlowRounding(cfg: LedgerConfig, position: int, quantity: int, price: int)
    requires price >= 0
    ensures Magnitude(ScaleUp(cfg) * (quantity * price) - ScaleDown(cfg) * SignedFlow(cfg, position, quantity, price))
            <= (if Reverses(position, quantity) then 2 else 1) * (ScaleDown(cfg) - 1)
  {
    if Reverses(position, quantity) {
      ReversalRounding(cfg, position, quantity, price);
    } else {
      NotionalFloor(cfg, quantity, price);
      SignedProduct(ScaleUp(cfg), quantity, price);
      SignedError(Sign(quantity), ScaleDown(cfg), Magnitude(quantity) * price * ScaleUp(cfg),
                  ExactNotional(cfg, quantity, price), ScaleDown(cfg) - 1);
    }
  }

  lemma ReversalRounding(cfg: LedgerConfig, position: int, quantity: int, price: int)
    requires price >= 0 && Reverses(position, quantity)
    ensures Magnitude(ScaleUp(cfg) * (quantity * price) - ScaleDown(cfg) * SignedFlow(cfg, position, quantity, price))
            <= 2 * (ScaleDown(cfg) - 1)
  {
    var u, d, rest := ScaleUp(cfg), ScaleDown(cfg), position + quantity;
    var a, b := ExactNotional(cfg, position, price), ExactNotional(cfg, rest, price);
    var x, y := Magnitude(position) * price * u, Magnitude(rest) * price * u;
    NotionalFloor(cfg, position, price);
    NotionalFloor(cfg, rest, price);
    SignedProduct(u, quantity, price);
    assert Magnitude(quantity) * price * u == x + y by {
      Distribute(Magnitude(position), Magnitude(rest), price, u);
    }
    SumOfFloors(d, x, y, a, b);
    SignedError(Sign(quantity), d, x + y, a + b, 2 * (d - 1));
  }

  lemma SumOfFloors(d: int, x: int, y: int, a: int, b: int)
    requires 0 <= x - d * a < d && 0 <= y - d * b < d
    ensures 0 <= x + y - d * (a + b) <= 2 * (d - 1)
  {
    assert d * (a + b) == d * a + d * b;
  }

  /** What a run does to the books, in terms of what its successful fills add up to. */
  ghost predicate Explains(cfg: LedgerConfig, st: LedgerState, t: Totals, st': LedgerState) {
    && st'.realized - st'.cost == st.realized - st.cost - t.flow
    && st'.position == st.position + t.quantity
    && st'.fees == st.fees + t.fees
    && WithinRounding(ScaleUp(cfg), ScaleDown(cfg), t)
  }

  lemma StepConserves(cfg: LedgerConfig, st: LedgerState, op: LedgerOp)
    requires Balanced(cfg, st)
    ensures Balanced(cfg, StepLedger(cfg, st, op))
    ensures Explains(cfg, st, FillTotals(cfg, st, op), StepLedger(cfg, st, op))
  {
    if op.FillOp? && FillSucceeds(cfg, st, op.quantity, op.price, op.fee) {
      FillKeepsBalance(cfg, st, op.quantity, op.price, op.fee);
      FlowRounding(cfg, st.position, op.quantity, op.price);
    } else if op.MarkOp? {
      MarkKeepsBalance(cfg, st, op.price);
      MarkKeepsBooks(cfg, st, op.price);
    } else {
      RefusedFillChangesNothing(cfg, st, op.quantity, op.price, op.fee);
    }
  }

  lemma AddErrors(u: int, d: int, a: Totals, b: Totals)
    requires d >= 1 && WithinRounding(u, d, a) && WithinRounding(u, d, b)
    ensures WithinRounding(u, d, Plus(a, b))
  {
    assert u * (a.exact + b.exact) == u * a.exact + u * b.exact;
    assert d * (a.flow + b.flow) == d * a.flow + d * b.flow;
    var m, n := a.fills + a.reversals, b.fills + b.reversals;
    assert (m + n) * (d - 1) == m * (d - 1) + n * (d - 1);
  }

  lemma ExplainsTrans(cfg: LedgerConfig, a: LedgerState, s: Totals, b: LedgerState, t: Totals, c: LedgerState)
    requires Explains(cfg, a, s, b) && Explains(cfg, b, t, c)
    ensures Explains(cfg, a, Plus(s, t), c)
  {
    AddErrors(ScaleUp(cfg), ScaleDown(cfg), s, t);
  }

  /** Exact conservation over any run of fills, marks and refused operations: realized profit less
      cost moves by exactly the signed notionals, whose rounding is bounded. */
  lemma {:induction false} RunConserves(cfg: LedgerConfig, st: LedgerState, ops: seq<LedgerOp>)
    requires Balanced(cfg, st)
    ensures Balanced(cfg, RunLedger(cfg, st, ops))
    ensures Explains(cfg, st, RunTotals(cfg, st, ops), RunLedger(cfg, st, ops))
    decreases |ops|
  {
    if ops != [] {
      var next := StepLedger(cfg, st, ops[0]);
      StepConserves(cfg, st, ops[0]);
      RunConserves(cfg, next, ops[1..]);
      ExplainsTrans(cfg, st, FillTotals(cfg, st, ops[0]), next, RunTotals(cfg, next, ops[1..]), RunLedger(cfg, st, ops));
    }
  }

  /** The exact wealth behind some fills, times ScaleDown so that it is an integer: initial cash,
      less fees, less the exact cost of every fill, plus the exact value of the position. */
  function ScaledWealth(cfg: LedgerConfig, t: Totals, mark: int): int {
    ScaleDown(cfg) * (InitialLedger(cfg).cash - t.fees) + ScaleUp(cfg) * (t.quantity * mark) - ScaleUp(cfg) * t.exact
  }

  /** Equity never drifts from the exact wealth by as much as one unit per truncated notional. */
  lemma EquityTracksExactWealth(cfg: LedgerConfig, ops: seq<LedgerOp>)
    ensures var st, t := RunLedger(cfg, InitialLedger(cfg), ops), RunTotals(cfg, InitialLedger(cfg), ops);
            && st.position == t.quantity
            && st.realized - st.cost == -t.flow
            && Magnitude(ScaleDown(cfg) * st.equity - ScaledWealth(cfg, t, st.lastMark))
               <= (t.fills + t.reversals + 1) * (ScaleDown(cfg) - 1)
  {
    hide ExactNotional, ScaleUp, ScaleDown, RunLedger, RunTotals;
    var initial := InitialLedger(cfg);
    InitialBalanced(cfg);
    RunConserves(cfg, initial, ops);
    BalancedEquity(cfg, RunLedger(cfg, initial, ops), RunTotals(cfg, initial, ops));
  }

  /** Balanced books explained by some totals report the exact wealth up to rounding. */
  lemma BalancedEquity(cfg: LedgerConfig, st: LedgerState, t: Totals)
    requires Balanced(cfg, st) && WithinRounding(ScaleUp(cfg), ScaleDown(cfg), t)
    requires st.position == t.quantity && st.fees == t.fees && st.realized - st.cost == -t.flow
    ensures Magnitude(ScaleDown(cfg) * st.equity - ScaledWealth(cfg, t, st.lastMark))
            <= (t.fills + t.reversals + 1) * (ScaleDown(cfg) - 1)
  {
    hide ExactNotional, ScaleUp, ScaleDown;
    var u, d := ScaleUp(cfg), ScaleDown(cfg);
    var n := ExactNotional(cfg, st.position, st.lastMark);
    NotionalFloor(cfg, st.position, st.lastMark);
    SignedProduct(u, st.position, st.lastMark);
    SignedError(Sign(st.position), d, Magnitude(st.position) * st.lastMark * u, n, d - 1);
    CombineErrors(u, d, t, InitialLedger(cfg).cash - t.fees, Sign(st.position) * n, u * (t.quantity * st.lastMark));
  }

  lemma CombineErrors(u: int, d: int, t: Totals, cash: int, value: int, exactValue: int)
    requires d >= 1 && WithinRounding(u, d, t) && Magnitude(exactValue - d * value) <= d - 1
    ensures Magnitude(d * (cash - t.flow + value) - (d * cash + exactValue - u * t.exact))
            <= (t.fills + t.reversals + 1) * (d - 1)
  {
    assert d * (cash - t.flow + value) == d * cash - d * t.flow + d * value;
    assert (t.fills + t.reversals + 1) * (d - 1) == (t.fills + t.reversals) * (d - 1) + (d - 1);
  }

  // ----- the average entry price -----

  /** The entry price reported for an opening fill is the fill's price up to what truncating the cost
      lost: never above it, and short of it by less than one price unit plus one account unit spread
      over the quantity. */
  lemma OpeningEntryPrice(cfg: LedgerConfig, st: LedgerState, quantity: int, price: int, fee: int)
    requires Balanced(cfg, st) && st.position == 0 && FillSucceeds(cfg, st, quantity, price, fee)
    ensures var entry := ApplyFill(cfg, st, quantity, price, fee).0.averageEntry;
            entry <= price && Magnitude(quantity) * (price - entry - 1) < ScaleDown(cfg)
  {
    hide ExactNotional;
    var u, d, q := ScaleUp(cfg), ScaleDown(cfg), Magnitude(quantity);
    var n := ExactNotional(cfg, quantity, price);
    NotionalFloor(cfg, quantity, price);
    var st' := ApplyFill(cfg, st, quantity, price, fee).0;
    assert Magnitude(st'.cost) == n;
    AverageBrackets(u, d, q, price, n);
    assert st'.averageEntry == (n * d) / u / q;
  }

  lemma AverageBrackets(u: nat, d: nat, q: nat, price: nat, n: nat)
    requires u >= 1 && d >= 1 && q >= 1 && (u == 1 || d == 1)
    requires 0 <= q * price * u - d * n < d
    ensures (n * d) / u / q <= price && q * (price - (n * d) / u / q - 1) < d
  {
    var numerator := (n * d) / u;
    var x := q * price;
    if u == 1 {
      assert numerator == n * d == d * n;
      assert x * u == x;
      assert x - d < numerator <= x;
    } else {
      assert n == x * u;
      assert n * d == u * x;
      DivUnique(n * d, u, x);
      assert numerator == x;
    }
    DivBounds(numerator, q);
    var entry := numerator / q;
    DivMono(numerator, x, q);
    DivUnique(x, q, price);
    assert q * (price - entry - 1) == x - q * entry - q;
  }

  /** The reported entry price is the cost per unit of position, truncated. */
  ghost predicate EntryFollowsCost(cfg: LedgerConfig, st: LedgerState) {
    AverageEntry(cfg, st.position, st.cost) == Some(st.averageEntry)
  }

  /** Every balance fits in 64 bits. */
  predicate Representable(st: LedgerState) {
    && Fits(st.cash) && Fits(st.position) && Fits(st.cost) && Fits(st.averageEntry) && Fits(st.realized)
    && Fits(st.unrealized) && Fits(st.fees) && Fits(st.equity)
  }

  lemma StepKeepsReport(cfg: LedgerConfig, st: LedgerState, op: LedgerOp)
    requires EntryFollowsCost(cfg, st) && Representable(st)
    ensures EntryFollowsCost(cfg, StepLedger(cfg, st, op)) && Representable(StepLedger(cfg, st, op))
  {
    hide ExactNotional, AllocatedCost;
    if op.FillOp? && !FillSucceeds(cfg, st, op.quantity, op.price, op.fee) {
      RefusedFillChangesNothing(cfg, st, op.quantity, op.price, op.fee);
    }
  }

  lemma {:induction false} RunKeepsReport(cfg: LedgerConfig, st: LedgerState, ops: seq<LedgerOp>)
    requires EntryFollowsCost(cfg, st) && Representable(st)
    ensures EntryFollowsCost(cfg, RunLedger(cfg, st, ops)) && Representable(RunLedger(cfg, st, ops))
    decreases |ops|
  {
    hide StepLedger, EntryFollowsCost, Representable;
    if ops != [] {
      StepKeepsReport(cfg, st, ops[0]);
      RunKeepsReport(cfg, StepLedger(cfg, st, ops[0]), ops[1..]);
    }
  }

  lemma CostPerUnit(u: nat, d: nat, q: nat, cost: nat)
    requires u >= 1 && q >= 1 && (u == 1 || d == 1)
    ensures var entry := (cost * d) / u / q; u * q * entry <= cost * d < u * q * (entry + 1)
  {
    DivDiv(cost * d, u, q);
    DivBounds(cost * d, u * q);
    var entry := (cost * d) / u / q;
    assert u * q * (entry + 1) == u * q * entry + u * q;
  }

  /** After any run every balance fits in 64 bits, a flat ledger reports no entry price, and otherwise
      the entry price is the cost per unit of position, truncated to a price unit. */
  lemma ReportedEntryPrice(cfg: LedgerConfig, ops: seq<LedgerOp>)
    requires Fits(cfg.initialCash)
    ensures var st := RunLedger(cfg, InitialLedger(cfg), ops);
            var u, d, q := ScaleUp(cfg), ScaleDown(cfg), Magnitude(st.position);
            && Representable(st)
            && (st.position == 0 ==> st.averageEntry == 0)
            && (st.position != 0 ==>
                  u * q * st.averageEntry <= Magnitude(st.cost) * d < u * q * (st.averageEntry + 1))
  {
    hide RunLedger;
    RunKeepsReport(cfg, InitialLedger(cfg), ops);
    var st := RunLedger(cfg, InitialLedger(cfg), ops);
    if st.position != 0 {
      CostPerUnit(ScaleUp(cfg), ScaleDown(cfg), Magnitude(st.position), Magnitude(st.cost));
    }
  }

  // ----- the reported profit -----

  /** A short whose cost is the least 64-bit value is closed in full at a notional of nothing: a profit
      of one more than the greatest 64-bit value. */
  predicate ProfitOverflows(cfg: LedgerConfig, st: LedgerState, quantity: int, price: int) {
    st.position < 0 && st.cost == INT64_MIN && quantity >= -st.position && ExactNotional(cfg, st.position, price) == 0
  }

  /** The profit a fill reports is the profit it books, except for the one profit that a 64-bit value
      cannot hold, which is reported as the least 64-bit value. */
  lemma ReportedProfit(cfg: LedgerConfig, st: LedgerState, quantity: int, price: int, fee: int)
    requires Balanced(cfg, st) && Fits(st.position) && Fits(st.cost) && FillSucceeds(cfg, st, quantity, price, fee)
    ensures var (st', mutation) := ApplyFill(cfg, st, quantity, price, fee);
            var booked := st'.realized - st.realized;
            if ProfitOverflows(cfg, st, quantity, price) then booked == INT64_MAX + 1 && mutation.realized == INT64_MIN
            else mutation.realized == booked
  {
    hide ExactNotional, AllocatedCost, AverageEntry;
    var s := Settle(cfg, st.position, st.cost, quantity, price).value;
    if !Adds(st.position, quantity) {
      var closed := Min(Magnitude(st.position), Magnitude(quantity));
      ShareOfCost(st.position, st.cost, closed);
      if st.position < 0 && closed < -st.position {
        ShareBelowBound(st.position, st.cost, closed);
      }
      NotionalFloor(cfg, closed, price);
      NotionalOfMagnitude(cfg, st.position, price);
      assert Fits(s.realized) <==> !ProfitOverflows(cfg, st, quantity, price);
    }
  }

  /** A proper part of a cost stays below any bound of the cost. */
  lemma ProperPart(whole: nat, part: nat, total: nat, bound: nat)
    requires part < total && whole <= bound && 0 < bound
    ensures (whole * part) / total < bound
  {
    var share := (whole * part) / total;
    DivBounds(whole * part, total);
    MulMono(part, whole, bound);
    assert bound * total == bound * part + bound * (total - part);
    MulMono(bound, 1, total - part);
    if share >= bound {
      MulMono(total, bound, share);
    }
  }

  lemma ShareBelowBound(position: int, cost: int, closed: nat)
    requires position < 0 && INT64_MIN <= cost <= 0 && closed < -position
    ensures AllocatedCost(position, cost, closed) > INT64_MIN
  {
    ProperPart(-cost, closed, -position, -INT64_MIN);
    assert cost * closed == -(-cost * closed);
    MulNonNegative(-cost, closed);
  }

  /** More than any 64-bit price makes one unit of position cost. */
  function UnitCost(cfg: LedgerConfig): int {
    (INT64_MAX * ScaleUp(cfg)) / ScaleDown(cfg) + 1
  }

  predicate CostWithinUnits(cfg: LedgerConfig, position: int, cost: int) {
    Magnitude(cost) <= Magnitude(position) * UnitCost(cfg)
  }

  lemma CancelFactor(d: int, a: int, b: int)
    requires d > 0 && d * a < d * b + d
    ensures a <= b
  {
    if a > b {
      MulMono(d, b + 1, a);
    }
  }

  lemma NotionalWithinUnits(cfg: LedgerConfig, quantity: int, price: int)
    requires 0 <= price <= INT64_MAX
    ensures 0 <= ExactNotional(cfg, quantity, price) <= Magnitude(quantity) * UnitCost(cfg)
  {
    hide ExactNotional, ScaleUp, ScaleDown;
    var q, u, d, unit := Magnitude(quantity), ScaleUp(cfg), ScaleDown(cfg), UnitCost(cfg);
    NotionalFloor(cfg, quantity, price);
    DivBounds(INT64_MAX * u, d);
    ScaledProduct(q, price, u, d, unit);
    CancelFactor(d, ExactNotional(cfg, quantity, price), q * unit);
  }

  lemma ScaledProduct(q: nat, price: nat, u: nat, d: nat, unit: nat)
    requires price <= INT64_MAX && INT64_MAX * u <= d * unit
    ensures q * price * u <= d * (q * unit)
  {
    MulMono(u, price, INT64_MAX);
    MulMono(q, u * price, d * unit);
    assert q * price * u == q * (u * price);
    assert q * (d * unit) == d * (q * unit);
  }

  /** What is left of a cost after a partial close stays within the units left, rounding included. */
  lemma RestWithinUnits(cost: nat, closed: nat, position: nat, unit: nat)
    requires 0 < position && closed <= position && cost <= position * unit
    ensures cost - (cost * closed) / position <= (position - closed) * unit
  {
    var rest, share := position - closed, (cost * closed) / position;
    DivBounds(cost * closed, position);
    MulMono(rest, cost, position * unit);
    assert cost * closed == cost * position - rest * cost;
    assert position * (cost - share) == position * cost - position * share;
    assert rest * (position * unit) == position * (rest * unit);
    CancelFactor(position, cost - share, rest * unit);
  }

  lemma AddingKeepsUnits(cfg: LedgerConfig, position: int, cost: int, quantity: int, price: int)
    requires quantity != 0 && 0 <= price <= INT64_MAX && Adds(position, quantity) && CostWithinUnits(cfg, position, cost)
    requires (position == 0 ==> cost == 0) && (position > 0 ==> cost >= 0) && (position < 0 ==> cost <= 0)
    ensures CostWithinUnits(cfg, position + quantity, cost + Sign(quantity) * ExactNotional(cfg, quantity, price))
  {
    hide ExactNotional, UnitCost;
    NotionalWithinUnits(cfg, quantity, price);
    var p, q, unit := Magnitude(position), Magnitude(quantity), UnitCost(cfg);
    assert (p + q) * unit == p * unit + q * unit;
  }

  lemma ClosingKeepsUnits(cfg: LedgerConfig, position: int, cost: int, closed: nat)
    requires position != 0 && closed < Magnitude(position) && CostWithinUnits(cfg, position, cost)
    requires (position > 0 ==> cost >= 0) && (position < 0 ==> cost <= 0)
    ensures CostWithinUnits(cfg, position - Sign(position) * closed, cost - AllocatedCost(position, cost, closed))
  {
    hide UnitCost, AllocatedCost;
    UnitCostIsPositive(cfg);
    RestWithinUnits(Magnitude(cost), closed, Magnitude(position), UnitCost(cfg));
    ShareOfCost(position, cost, closed);
    ShareMagnitude(position, cost, closed);
  }

  lemma SettleKeepsUnits(cfg: LedgerConfig, position: int, cost: int, quantity: int, price: int)
    requires quantity != 0 && 0 < price <= INT64_MAX && CostWithinUnits(cfg, position, cost)
    requires (position == 0 ==> cost == 0) && (position > 0 ==> cost >= 0) && (position < 0 ==> cost <= 0)
    requires Settle(cfg, position, cost, quantity, price).Some?
    ensures var s := Settle(cfg, position, cost, quantity, price).value; CostWithinUnits(cfg, s.position, s.cost)
  {
    hide ExactNotional, UnitCost, AllocatedCost;
    NotionalWithinUnits(cfg, position + quantity, price);
    if Adds(position, quantity) {
      AddingKeepsUnits(cfg, position, cost, quantity, price);
    } else if Magnitude(quantity) < Magnitude(position) {
      ClosingKeepsUnits(cfg, position, cost, Magnitude(quantity));
    }
  }

  lemma FillKeepsUnits(cfg: LedgerConfig, st: LedgerState, quantity: int, price: int, fee: int)
    requires Balanced(cfg, st) && FillSucceeds(cfg, st, quantity, price, fee)
    requires price <= INT64_MAX && CostWithinUnits(cfg, st.position, st.cost)
    ensures var st' := ApplyFill(cfg, st, quantity, price, fee).0; CostWithinUnits(cfg, st'.position, st'.cost)
  {
    hide Settle, CostWithinUnits, AverageEntry, Markable, EquityAt;
    SettleKeepsUnits(cfg, st.position, st.cost, quantity, price);
  }

  lemma UnitCostIsPositive(cfg: LedgerConfig)
    ensures UnitCost(cfg) > 0
  {
    DivMono(0, INT64_MAX * ScaleUp(cfg), ScaleDown(cfg));
    DivUnique(0, ScaleDown(cfg), 0);
  }

  lemma ShareMagnitude(position: int, cost: int, closed: nat)
    requires position != 0 && (position > 0 ==> cost >= 0) && (position < 0 ==> cost <= 0)
    ensures Magnitude(AllocatedCost(position, cost, closed)) == (Magnitude(cost) * closed) / Magnitude(position)
  {
    MulNonNegative(Magnitude(cost), closed);
    DivMono(0, Magnitude(cost) * closed, Magnitude(position));
    DivUnique(0, Magnitude(position), 0);
    if cost < 0 {
      assert cost * closed == -(Magnitude(cost) * closed);
    }
  }

  /** A ledger that scales notionals down by at most the square root of the 64-bit range never makes
      the profit that 64 bits cannot hold: a position worth nothing is too small to have cost that much. */
  lemma SmallScaleNeverOverflows(cfg: LedgerConfig, st: LedgerState, quantity: int, price: int)
    requires ScaleDown(cfg) * ScaleDown(cfg) <= INT64_MAX && price > 0 && CostWithinUnits(cfg, st.position, st.cost)
    ensures !ProfitOverflows(cfg, st, quantity, price)
  {
    if ProfitOverflows(cfg, st, quantity, price) {
      WorthNothing(cfg, -st.position, price);
      UnitsBelowScale(cfg);
      UnitCostIsPositive(cfg);
      MulMono(UnitCost(cfg), -st.position, ScaleDown(cfg) - 1);
    }
  }

  /** A position worth nothing is smaller than the scale. */
  lemma WorthNothing(cfg: LedgerConfig, quantity: nat, price: int)
    requires quantity > 0 && price > 0 && ExactNotional(cfg, quantity, price) == 0
    ensures quantity < ScaleDown(cfg) && ScaleUp(cfg) == 1
  {
    hide ExactNotional;
    var u := ScaleUp(cfg);
    NotionalFloor(cfg, quantity, price);
    MulMono(quantity, 1, price);
    MulMono(quantity * price, 1, u);
    assert ScaleDown(cfg) > 1 ==> u == 1;
  }

  lemma UnitsBelowScale(cfg: LedgerConfig)
    requires ScaleUp(cfg) == 1 && ScaleDown(cfg) * ScaleDown(cfg) <= INT64_MAX
    ensures UnitCost(cfg) * (ScaleDown(cfg) - 1) <= INT64_MAX
  {
    var d := ScaleDown(cfg);
    var m := INT64_MAX / d;
    DivBounds(INT64_MAX, d);
    DivUnique(d * d, d, d);
    DivMono(d * d, INT64_MAX, d);
    assert (m + 1) * (d - 1) == d * m - m + d - 1;
  }

  // ----- the tape of fills -----

  /** The books without the valuation fields, which marks overwrite. */
  predicate SameBooks(a: LedgerState, b: LedgerState) {
    && a.position == b.position && a.cost == b.cost && a.averageEntry == b.averageEntry
    && a.cash == b.cash && a.realized == b.realized && a.fees == b.fees
  }

  lemma FillReadsBooksOnly(cfg: LedgerConfig, a: LedgerState, b: LedgerState, quantity: int, price: int, fee: int)
    requires SameBooks(a, b)
    ensures ApplyFill(cfg, a, quantity, price, fee).1 == ApplyFill(cfg, b, quantity, price, fee).1
    ensures FillSucceeds(cfg, a, quantity, price, fee) ==>
              ApplyFill(cfg, a, quantity, price, fee) == ApplyFill(cfg, b, quantity, price, fee)
  {
  }

  lemma SuccessfulFillFits(cfg: LedgerConfig, st: LedgerState, quantity: int, price: int, fee: int)
    requires FillSucceeds(cfg, st, quantity, price, fee)
    ensures Fits(ExactNotional(cfg, quantity, price))
    ensures FillAccepted(cfg, quantity, price, fee)
  {
  }

  lemma RefusedFillChangesNothing(cfg: LedgerConfig, st: LedgerState, quantity: int, price: int, fee: int)
    requires !FillSucceeds(cfg, st, quantity, price, fee)
    ensures ApplyFill(cfg, st, quantity, price, fee).0 == st
  {
  }

  lemma MarkKeepsBooks(cfg: LedgerConfig, st: LedgerState, price: int)
    ensures SameBooks(MarkToMarket(cfg, st, price).0, st)
  {
  }
}
