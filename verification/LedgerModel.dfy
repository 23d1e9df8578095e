/** Cost-basis accounting of a perpetual position, as functions on values. */
module LedgerModel {
  import opened FixedPoint
  import opened Types

  datatype LedgerConfig = LedgerConfig(
    initialCash: int,
    accountScale: nat,
    priceScale: nat,
    quantityScale: nat)

  datatype LedgerState = LedgerState(
    cash: int,
    position: int,
    cost: int,
    averageEntry: int,
    realized: int,
    unrealized: int,
    fees: int,
    equity: int,
    lastMark: int)

  datatype LedgerMutation = LedgerMutation(error: LedgerError, realized: int, fee: int)

  predicate ValidLedgerConfig(cfg: LedgerConfig) {
    cfg.initialCash >= 0 && cfg.accountScale <= 18 && cfg.priceScale <= 18 && cfg.quantityScale <= 18
  }

  function InitialLedger(cfg: LedgerConfig): LedgerState {
    var cash := if ValidLedgerConfig(cfg) then cfg.initialCash else 0;
    LedgerState(cash, 0, 0, 0, 0, 0, 0, cash, 0)
  }

  // ----- notionals -----

  function SourceScale(cfg: LedgerConfig): nat {
    cfg.priceScale + cfg.quantityScale
  }

  /** A notional is |quantity| * price * ScaleUp / ScaleDown, truncated; one of the two factors is 1. */
  function ScaleUp(cfg: LedgerConfig): (r: nat)
    ensures r >= 1
  {
    if SourceScale(cfg) < cfg.accountScale then Pow10(cfg.accountScale - SourceScale(cfg)) else 1
  }

  function ScaleDown(cfg: LedgerConfig): (r: nat)
    ensures r >= 1
  {
    if SourceScale(cfg) < cfg.accountScale then 1 else Pow10(SourceScale(cfg) - cfg.accountScale)
  }

  function Rescaled(cfg: LedgerConfig, value: int): int {
    TruncDiv(value * ScaleUp(cfg), ScaleDown(cfg))
  }

  function ExactNotional(cfg: LedgerConfig, quantity: int, price: int): int {
    Rescaled(cfg, Magnitude(quantity) * price)
  }

  function Notional(cfg: LedgerConfig, quantity: int, price: int): Option<int> {
    var value := ExactNotional(cfg, quantity, price);
    if Fits(value) then Some(value) else None
  }

  // ----- one fill -----

  predicate Adds(position: int, quantity: int) {
    position == 0 || Sign(position) == Sign(quantity)
  }

  /** What a fill does to the position, its cost and the realized profit. */
  datatype Settlement = Settlement(position: int, cost: int, realized: int)

  /** The share of the cost that leaves with the closed quantity. */
  function AllocatedCost(position: int, cost: int, closed: nat): int
    requires position != 0
  {
    TruncDiv(cost * closed, Magnitude(position))
  }

  function SettleAdding(cfg: LedgerConfig, position: int, cost: int, quantity: int, price: int): Option<Settlement> {
    var notional := ExactNotional(cfg, quantity, price);
    var newCost := cost + Sign(quantity) * notional;
    if Fits(notional) && Fits(position + quantity) && Fits(newCost)
    then Some(Settlement(position + quantity, newCost, 0))
    else None
  }

  function SettleClosing(cfg: LedgerConfig, position: int, cost: int, quantity: int, price: int): Option<Settlement>
    requires position != 0
  {
    var closed := Min(Magnitude(position), Magnitude(quantity));
    var share := AllocatedCost(position, cost, closed);
    var closing := ExactNotional(cfg, closed, price);
    var realized := Sign(position) * (closing - Magnitude(share));
    var rest := position + quantity;
    var opening := ExactNotional(cfg, rest, price);
    if !Fits(ExactNotional(cfg, quantity, price)) || !Fits(closing) || !Fits(rest) then None
    else if rest == 0 then Some(Settlement(0, 0, realized))
    else if Sign(rest) == Sign(position) then
      if Fits(cost - share) then Some(Settlement(rest, cost - share, realized)) else None
    else
      if Fits(opening) then Some(Settlement(rest, Sign(rest) * opening, realized)) else None
  }

  function Settle(cfg: LedgerConfig, position: int, cost: int, quantity: int, price: int): Option<Settlement> {
    if Adds(position, quantity)
    then SettleAdding(cfg, position, cost, quantity, price)
    else SettleClosing(cfg, position, cost, quantity, price)
  }

  function AverageEntry(cfg: LedgerConfig, position: int, cost: int): Option<int> {
    if position == 0 then Some(0)
    else
      var scaled := Magnitude(cost) * ScaleDown(cfg);
      if ScaleUp(cfg) == 1 && !FitsWide(scaled) then None
      else
        var average := scaled / ScaleUp(cfg) / Magnitude(position);
        if Fits(average) then Some(average) else None
  }

  function MarkedUnrealized(cfg: LedgerConfig, position: int, cost: int, price: int): int {
    if position > 0 then ExactNotional(cfg, position, price) - Magnitude(cost)
    else if position < 0 then Magnitude(cost) - ExactNotional(cfg, position, price)
    else 0
  }

  predicate Markable(cfg: LedgerConfig, st: LedgerState, price: int) {
    var unrealized := MarkedUnrealized(cfg, st.position, st.cost, price);
    Fits(ExactNotional(cfg, st.position, price)) && Fits(unrealized) && Fits(st.cash + unrealized)
  }

  function RefreshMark(cfg: LedgerConfig, st: LedgerState, price: int): (LedgerState, LedgerError) {
    var unrealized := MarkedUnrealized(cfg, st.position, st.cost, price);
    if price <= 0 then (st, InvalidFill)
    else if !Markable(cfg, st, price) then (st, ArithmeticOverflow)
    else (st.(unrealized := unrealized, equity := st.cash + unrealized, lastMark := price), Ok)
  }

  function MarkToMarket(cfg: LedgerConfig, st: LedgerState, price: int): (LedgerState, LedgerError) {
    if !ValidLedgerConfig(cfg) then (st, InvalidConfiguration) else RefreshMark(cfg, st, price)
  }

  /** The state with a settlement booked, when every balance still fits. */
  function Booked(cfg: LedgerConfig, st: LedgerState, s: Settlement, fee: int): Option<LedgerState> {
    var cash := st.cash + s.realized - fee;
    var average := AverageEntry(cfg, s.position, s.cost);
    if Fits(cash) && Fits(st.realized + s.realized) && Fits(st.fees + fee) && average.Some? then
      Some(st.(position := s.position, cost := s.cost, averageEntry := average.value,
               cash := cash, realized := st.realized + s.realized, fees := st.fees + fee))
    else None
  }

  predicate FillAccepted(cfg: LedgerConfig, quantity: int, price: int, fee: int) {
    ValidLedgerConfig(cfg) && quantity != 0 && price > 0 && fee >= 0
  }

  function Refused(error: LedgerError): LedgerMutation {
    LedgerMutation(error, 0, 0)
  }

  function ApplyFill(cfg: LedgerConfig, st: LedgerState, quantity: int, price: int, fee: int)
    : (LedgerState, LedgerMutation)
  {
    if !FillAccepted(cfg, quantity, price, fee) then (st, Refused(InvalidFill))
    else
      var s := Settle(cfg, st.position, st.cost, quantity, price);
      if s.None? then (st, Refused(ArithmeticOverflow))
      else
        var booked := Booked(cfg, st, s.value, fee);
        if booked.None? then (st, Refused(ArithmeticOverflow))
        else
          var (marked, error) := RefreshMark(cfg, booked.value, price);
          if error != Ok then (st, Refused(error))
          else (marked, LedgerMutation(Ok, ToInt64(s.value.realized), fee))
  }

  predicate FillSucceeds(cfg: LedgerConfig, st: LedgerState, quantity: int, price: int, fee: int) {
    ApplyFill(cfg, st, quantity, price, fee).1.error == Ok
  }
}
