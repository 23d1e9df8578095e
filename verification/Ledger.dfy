/** The ledger object: checked notionals, all-or-nothing fills and marks. */
module Ledger {
  import opened FixedPoint
  import opened Types
  import opened LedgerModel

  method Rescale(value: int, sourceScale: nat, targetScale: nat) returns (result: Option<int>)
    ensures sourceScale < targetScale ==>
              result == var v := value * Pow10(targetScale - sourceScale); if Fits(v) then Some(v) else None
    ensures sourceScale >= targetScale ==>
              result == var v := TruncDiv(value, Pow10(sourceScale - targetScale)); if Fits(v) then Some(v) else None
  {
    assert Pow10(0) == 1;
    hide Pow10, TruncDiv;
    TruncDivByOne(value);
    var scaled := value;
    if sourceScale < targetScale {
      var power := PowerOfTen(targetScale - sourceScale);
      scaled := scaled * power;
    } else {
      var exponent := sourceScale - targetScale;
      while exponent != 0
        invariant 0 <= exponent <= sourceScale - targetScale
        invariant TruncDiv(scaled, Pow10(exponent)) == TruncDiv(value, Pow10(sourceScale - targetScale))
      {
        var chunk := if exponent < 18 then exponent else 18;
        var power := PowerOfTen(chunk);
        TruncDivChunks(scaled, chunk, exponent - chunk);
        scaled := TruncDiv(scaled, power);
        exponent := exponent - chunk;
      }
      TruncDivByOne(scaled);
    }
    result := if Fits(scaled) then Some(scaled) else None;
  }

  lemma TruncDivByOne(value: int)
    ensures TruncDiv(value, 1) == value
  {
  }

  method CheckedAdd(left: int, right: int) returns (result: Option<int>)
    ensures result == if Fits(left + right) then Some(left + right) else None
  {
    var sum := left + right;
    result := if Fits(sum) then Some(sum) else None;
  }

  class PerpetualLedger {
    const config: LedgerConfig
    const configError: LedgerError
    var state: LedgerState

    ghost predicate Valid() {
      (configError == Ok) == ValidLedgerConfig(config) &&
      (configError != Ok ==> configError == InvalidConfiguration)
    }

    constructor (config: LedgerConfig)
      ensures Valid() && this.config == config && state == InitialLedger(config)
    {
      this.config := config;
      configError := if ValidLedgerConfig(config) then Ok else InvalidConfiguration;
      state := InitialLedger(config);
    }

    method CheckedNotional(quantity: int, price: int) returns (result: Option<int>)
      ensures result == Notional(config, quantity, price)
    {
      var product := Magnitude(quantity) * price;
      result := Rescale(product, config.priceScale + config.quantityScale, config.accountScale);
      assert Pow10(0) == 1;
    }

    method RefreshedMark(candidate: LedgerState, price: int) returns (marked: LedgerState, error: LedgerError)
      ensures (marked, error) == RefreshMark(config, candidate, price)
    {
      if price <= 0 {
        return candidate, InvalidFill;
      }
      var markedValue := CheckedNotional(candidate.position, price);
      if markedValue.None? {
        return candidate, ArithmeticOverflow;
      }
      var cost := Magnitude(candidate.cost);
      var unrealized := if candidate.position > 0 then markedValue.value - cost
                        else if candidate.position < 0 then cost - markedValue.value
                        else 0;
      var equity := CheckedAdd(candidate.cash, unrealized);
      if !Fits(unrealized) || equity.None? {
        return candidate, ArithmeticOverflow;
      }
      marked := candidate.(unrealized := unrealized, equity := equity.value, lastMark := price);
      error := Ok;
    }

    /** The position, cost and realized profit a fill would leave. */
    method SettleFill(quantity: int, price: int) returns (s: Option<Settlement>)
      ensures s == Settle(config, state.position, state.cost, quantity, price)
    {
      var fillNotional := CheckedNotional(quantity, price);
      if fillNotional.None? {
        return None;
      }
      var position, cost := state.position, state.cost;
      if Adds(position, quantity) {
        var newPosition := CheckedAdd(position, quantity);
        var newCost := CheckedAdd(cost, Sign(quantity) * fillNotional.value);
        if newPosition.None? || newCost.None? {
          return None;
        }
        return Some(Settlement(newPosition.value, newCost.value, 0));
      }
      var closed := Min(Magnitude(position), Magnitude(quantity));
      var share := TruncDiv(cost * closed, Magnitude(position));
      var closing := CheckedNotional(closed, price);
      if closing.None? || !Fits(position + quantity) {
        return None;
      }
      var realized := Sign(position) * (closing.value - Magnitude(share));
      var rest := position + quantity;
      if rest == 0 {
        s := Some(Settlement(0, 0, realized));
      } else if Sign(rest) == Sign(position) {
        s := if Fits(cost - share) then Some(Settlement(rest, cost - share, realized)) else None;
      } else {
        var opening := CheckedNotional(Magnitude(rest), price);
        s := if opening.Some? then Some(Settlement(rest, Sign(rest) * opening.value, realized)) else None;
      }
    }

    method AverageOf(position: int, cost: int) returns (average: Option<int>)
      ensures average == AverageEntry(config, position, cost)
    {
      if position == 0 {
        return Some(0);
      }
      var exponent := config.priceScale + config.quantityScale - config.accountScale;
      var numerator := Magnitude(cost);
      assert Pow10(0) == 1;
      if exponent >= 0 {
        var power := PowerOfTen(exponent);
        numerator := numerator * power;
        if !FitsWide(numerator) {
          return None;
        }
      } else {
        var power := PowerOfTen(-exponent);
        assert power >= 10 by { assert power == 10 * Pow10(-exponent - 1); }
        numerator := numerator / power;
      }
      average := if Fits(numerator / Magnitude(position)) then Some(numerator / Magnitude(position)) else None;
    }

    /** Either the whole fill is committed or the state is untouched. */
    method Apply(quantity: int, price: int, fee: int) returns (mutation: LedgerMutation)
      requires Valid()
      modifies this
      ensures (state, mutation) == ApplyFill(config, old(state), quantity, price, fee)
    {
      if configError != Ok || quantity == 0 || price <= 0 || fee < 0 {
        return Refused(InvalidFill);
      }
      var s := SettleFill(quantity, price);
      if s.None? {
        return Refused(ArithmeticOverflow);
      }
      var cash := CheckedAdd(state.cash, s.value.realized - fee);
      var realized := CheckedAdd(state.realized, s.value.realized);
      var fees := CheckedAdd(state.fees, fee);
      if cash.None? || realized.None? || fees.None? {
        return Refused(ArithmeticOverflow);
      }
      var average := AverageOf(s.value.position, s.value.cost);
      if average.None? {
        return Refused(ArithmeticOverflow);
      }
      var candidate := state.(position := s.value.position, cost := s.value.cost, averageEntry := average.value,
                              cash := cash.value, realized := realized.value, fees := fees.value);
      var marked, error := RefreshedMark(candidate, price);
      if error != Ok {
        return Refused(error);
      }
      state := marked;
      mutation := LedgerMutation(Ok, ToInt64(s.value.realized), fee);
    }

    method Mark(price: int) returns (error: LedgerError)
      requires Valid()
      modifies this
      ensures (state, error) == MarkToMarket(config, old(state), price)
    {
      if configError != Ok {
        return configError;
      }
      var marked, e := RefreshedMark(state, price);
      if e == Ok {
        state := marked;
      }
      error := e;
    }
  }
}
