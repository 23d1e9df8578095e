/** The replay program's loop over a live exchange and feature builder. */
module ReplayLoop {
  import opened FixedPoint
  import opened Types
  import opened ExchangeModel
  import opened ExchangeObject
  import opened Features
  import opened ReplayModel

  method RunReplay(o: ReplayOptions, policy: Policy, rows: seq<ReplayRow>) returns (report: Option<Report>)
    requires o.decisionEvery > 0
    ensures var d := Replay(o, policy, InitialDriver(o), rows);
            report == if d.Some? then Some(ReportOf(d.value)) else None
  {
    hide OnRow;
    var exchange := new PaperExchange(ReplayConfig(o));
    var features := new FeatureBuilder(LOOKBACK);
    var initial := exchange.ledger.state.equity;
    var m := Metrics(0, 0, 0, 0, 0, 0, initial, 0);
    var pending: Option<PendingDecision> := None;
    ghost var d := InitialDriver(o);
    var i := 0;
    while i < |rows|
      invariant i <= |rows|
      invariant exchange.Valid() && exchange.config == ReplayConfig(o) && fresh(exchange) && fresh(exchange.ledger)
      invariant features.Valid() && features.midpoints.Length == LOOKBACK && fresh(features) && fresh(features.midpoints)
      invariant d == Driver(exchange.State(), features.history, pending, m, d.equities)
      invariant Replay(o, policy, InitialDriver(o), rows) == Replay(o, policy, d, rows[i..])
    {
      assert rows[i..][1..] == rows[i + 1..];
      if !ValidRow(rows[i]) {
        return None;
      }
      pending, m := ProcessRow(o, policy, exchange, features, rows[i], pending, m, d);
      d := OnRow(o, policy, d, rows[i]);
      i := i + 1;
    }
    assert rows[i..] == [];
    var profit, loss := SumFills(exchange.fills);
    var ledger := exchange.ledger.state;
    report := Some(Report(m, |exchange.fills|, ledger.equity, ledger.realized, ledger.unrealized, ledger.fees,
                          profit, loss));
  }

  /** One pass of the loop: trade what is pending, show the event, decide, measure. */
  method ProcessRow(o: ReplayOptions, policy: Policy, exchange: PaperExchange, features: FeatureBuilder, row: ReplayRow,
                    pending: Option<PendingDecision>, m: Metrics, ghost d: Driver)
    returns (pending': Option<PendingDecision>, m': Metrics)
    requires o.decisionEvery > 0
    requires exchange.Valid() && exchange.config == ReplayConfig(o)
    requires features.Valid() && features.midpoints.Length == LOOKBACK
    requires d == Driver(exchange.State(), features.history, pending, m, d.equities)
    modifies exchange, exchange.ledger, features, features.midpoints
    ensures exchange.Valid() && features.Valid()
    ensures var d' := OnRow(o, policy, d, row);
            d' == Driver(exchange.State(), features.history, pending', m', d'.equities)
  {
    hide Submit, OnMarketEvent, FeatureState;
    pending', m' := pending, m;
    var e := RowEvent(row, o.feedLatency);
    if e.exchangeTime < o.startTime || e.exchangeTime > o.endTime {
      return;
    }
    pending', m' := TradePending(o, exchange, pending, m, d);
    var accepted := exchange.HandleMarketEvent(e);
    if !accepted {
      m' := m'.(ignoredEvents := m'.ignoredEvents + 1);
      return;
    }
    var state := features.Update(e, exchange.ledger.state.position);
    m' := m'.(events := m'.events + 1);
    if e.sequence % o.decisionEvery == 0 || e.sequence in policy.taped {
      var decision := policy.decide(state);
      m' := m'.(decisions := m'.decisions + 1);
      if decision.ChosenPpm() < o.thresholdPpm {
        decision := decision.(action := Hold);
      }
      pending' := Some(PendingDecision(decision, e.receiveTime));
    }
    var equity := exchange.ledger.state.equity;
    var peak := Max(m'.peakEquity, equity);
    m' := m'.(peakEquity := peak, maxDrawdown := Max(m'.maxDrawdown, peak - equity));
  }

  /** Trade the pending decision, if any, before the next event is shown to the exchange. */
  method TradePending(o: ReplayOptions, exchange: PaperExchange, pending: Option<PendingDecision>, m: Metrics,
                      ghost d: Driver)
    returns (pending': Option<PendingDecision>, m': Metrics)
    requires exchange.Valid() && exchange.config == ReplayConfig(o)
    requires d.exchange == exchange.State() && d.pending == pending && d.metrics == m
    modifies exchange, exchange.ledger
    ensures exchange.Valid() && pending' == None
    ensures Placed(ReplayConfig(o), d) == d.(exchange := exchange.State(), pending := pending', metrics := m')
  {
    hide Submit;
    pending', m' := None, m;
    if pending.Some? && pending.value.decision.Succeeded() {
      var position := exchange.ledger.state.position;
      var delta := TargetPosition(pending.value.decision.action, position) - position;
      if delta != 0 {
        m' := m'.(signals := m'.signals + 1);
        var request := OrderRequest(OrderName(pending.value.decision.stateSequence), if delta > 0 then Buy else Sell,
                                    Market, if delta > 0 then delta else -delta, None,
                                    pending.value.decisionTime, false);
        var result := exchange.SubmitOrder(request, pending.value.decisionTime);
        if result.status == Rejected {
          m' := m'.(rejectedOrders := m'.rejectedOrders + 1);
        } else {
          m' := m'.(acceptedOrders := m'.acceptedOrders + 1);
        }
      }
    }
  }

  method SumFills(fills: seq<PaperFill>) returns (profit: int, loss: int)
    ensures profit == GrossProfit(fills) && loss == GrossLoss(fills)
  {
    profit, loss := 0, 0;
    for i := 0 to |fills|
      invariant profit == GrossProfit(fills[..i]) && loss == GrossLoss(fills[..i])
    {
      var realized := fills[i].realized;
      assert fills[..i + 1][..i] == fills[..i];
      if realized > 0 {
        profit := profit + realized;
      }
      if realized < 0 {
        loss := loss - realized;
      }
    }
    assert fills[..|fills|] == fills;
  }
}
