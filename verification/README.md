# Astra Trader: a verified model of the paper-trading core

This project models the paper-only trading core of Astra Trader in Dafny and proves what it keeps
over whole runs: a fixed-point perpetual ledger, the simulated exchange on top of it, the risk gate,
the replay loop and the live callback that drive them, the coalescing model worker, the bounded audit
queue and the ring-buffer feature builder.

Check it with `dafny verify dfyconfig.toml`.

## How it is built

- `LedgerModel`, `Risk`, `ExchangeModel` and `ReplayModel` define each operation as a function on
  values. `Ledger`, `Exchange`, `ReplayLoop`, `FeatureBuilder`, `ModelWorker` and `AuditWriter` hold
  the stateful objects and loops in the form the source gives them; each method is proved to take
  exactly the step of its function. The theorems are about those functions, over all runs.
- `LedgerLaws`, `OrderLaws`, `EntryLaws` and `ReplayLaws` say once, in plain arithmetic and without those
  functions, exactly when each operation succeeds and everything it leaves.
- An accepted event is three passes over the orders in submission order (activate, match, cancel).
  Everything one visit can do to one order is the relation `ExchangeInvariants.Move`; each whole-run
  invariant is proved once for a move and lifted over passes, events and runs.
- `PositionLimits` follows the interval of positions the live orders can still lead to. It narrows at
  every step except an accepted submission, which widens it by the rounded quantity. `PositionSafety`
  shows that an end is reached by any event that fills every live order of its side.
- `Matching` and `QueuePosition` say how a trade is shared and what an order behind a queue can fill.
  `TradeExactness` gives the trades that fill more than was traded, `QueueExactness` the orders that fill
  exactly what they are promised, `Requeueing` the cancel requests that let an order outrun its place.
- The worker and the audit writer are systems of atomic steps, one per critical section, whose steps
  interleave arbitrarily.

## What the model makes explicit

- Division truncates toward zero (`FixedPoint.TruncDiv`); 64-bit results are checked with `Fits`.
- 128-bit intermediates are unbounded integers. The one product the source leaves unchecked, the
  scale-up in the exchange's and the risk gate's notional (`src/paper_exchange.cpp:39`,
  `src/risk.cpp:33`), wraps in two's complement (`Risk.WideNotional`); the language leaves that case
  undefined. A wrapped notional never reaches the books, because the ledger checks its own.
- A reversal computes a closing and an opening notional (`src/ledger.cpp:153`, `src/ledger.cpp:176`).
- A reported profit is cast to 64 bits (`src/ledger.cpp:225`); `ToInt64` keeps the low bits. One profit
  can be lost by it, that of a short with the least 64-bit cost closed at a notional of nothing
  (`LedgerTheorems.ReportedProfit`). Ledgers that scale down by little enough never make it, replays among
  them (`ExchangeTheorems.ReportedProfitsAreExact`).
- Every event re-activates a cancel-pending order, and a partial fill overwrites cancel-pending
  (`src/paper_exchange.cpp:214-215`, `src/paper_exchange.cpp:288-293`); both edges are kept and stated.

## Guarantees that stop somewhere

- The position limit is not kept with several live orders (`Counterexamples.TwoLiveOrdersBreakTheLimit`).
  An order covered by the remaining exposure of its side is safe whatever follows
  (`PositionSafety.CoveredIsSafe`, and `PositionLimits.CoveredRunStaysWithin` over runs). An uncovered
  one is unsafe unless activation on entry rejects it, provided some event can then sweep its side: limit
  and post-only orders rest or take as its book decides, its trade is large enough for all that rest, no
  order of the other side fills, and the ledger can represent the fills
  (`PositionSafety.CoverOnEntryIsExact`, `PositionSafety.SweepReachesTheBound`). Without that proviso an
  uncovered order can be safe because it can never fill, as a market sell whose slippage leaves no price
  (`src/paper_exchange.cpp:61-62`).
- A cancel request ends the queue guarantee (`Counterexamples.CancelRequestSkipsTheQueue`), because every
  later event activates the order again (`src/paper_exchange.cpp:288-293`), which may take the book or join
  an empty queue. `Requeueing.CancelEndsTheGuarantee` says for which orders some event then exceeds it.
- A trade is shared in order for displayed sizes of any sign, but that it fills no more than was traded,
  and the guarantee with it, needs sizes that are not negative (`QueuePosition.NoTradeOverfills`,
  `Counterexamples.NegativeSizesFillMoreThanTraded`). `TradeExactness.TradeOverfillIsExact` says which
  trades overfill. The replay's row check guarantees the sizes (`apps/astra_replay/main.cpp:170-171`); the
  exchange itself does not check them.
- A cancel request need not end in a cancellation (`Counterexamples.DueCancelIsLost`). A due one does if
  and only if the event does not overtake it, which can be read off the order, the event and the volume
  that earlier orders leave (`Cancellation.DueCancelIsHonouredUnlessFilled`); for the first live order
  that volume is the traded one (`Cancellation.FirstDueCancelIsHonoured`). Over a whole run no event up to
  the due one may overtake it (`Cancellation.RequestIsHonouredInTime`).
- A replay keeps its target for rows in strictly increasing exchange time. The row check does not ask for
  that (`apps/astra_replay/main.cpp:155-193`), and tied rows break it: an order decided on one row is not due
  on the next, a second one joins it, and both fill (`TiedRows.TiedRowsMissTheTarget`).
  `ReplayTheorems.DueOrdersResolve` says for every replay which orders an event resolves.

## Model

| member | source | states |
|---|---|---|
| Ledger.Rescale | src/ledger.cpp:36-57 | The chunked division by at most 18 digits at a time gives the one truncated division by the whole power of ten; a scale-up or result outside 64 bits is refused. |
| Ledger.PerpetualLedger.CheckedNotional | src/ledger.cpp:81-92 | The notional is quantity magnitude times price, rescaled once and truncated, or refused when it does not fit. |
| Ledger.PerpetualLedger.Apply | src/ledger.cpp:120-228 | A fill commits exactly the new state of `ApplyFill` or leaves the old state, and reports the profit cast to 64 bits. |
| Ledger.PerpetualLedger.Mark | src/ledger.cpp:230-240 | A mark commits the new valuation or leaves the state untouched. |
| FixedPoint.TruncDivChunks | src/ledger.cpp:44-50 | Truncating in two chunks of a power of ten equals truncating once, for either sign. |
| LedgerTheorems.NotionalSplit | src/ledger.cpp:81-92 | Splitting a quantity never gains and loses at most one unit of notional, and nothing without down-scaling. |
| LedgerTheorems.NotionalMonotone | src/ledger.cpp:81-92 | Notionals grow with quantity and with price. |
| LedgerLaws.NotionalInMoney | src/ledger.cpp:81-92 | With prices, quantities and money in units of their scales, a notional is quantity times price rounded down. |
| LedgerLaws.FillIsExact | src/ledger.cpp:120-228 | A fill succeeds if and only if configuration, quantity, price and fee are valid and each listed number fits; it then leaves every balance as the closed part, its pro-rata cost and the opened rest determine; any other fill is refused with its error and changes nothing. |
| LedgerLaws.BoundedFillSucceeds | src/ledger.cpp:120-228 | Where balances and notionals stay below an eighth of the 64-bit range no valid fill is refused, reversals included. |
| LedgerLaws.MarkIsExact | src/ledger.cpp:230-240 | A mark succeeds if and only if configuration and price are valid and value, gain and equity fit, and changes exactly those. |
| LedgerTheorems.SettleConserves | src/ledger.cpp:139-183 | Adding, closing in part or in full, and reversing all move realized profit less cost by exactly the signed notional, so the pro-rata allocation leaks nothing; the cost keeps the sign of the position. |
| LedgerTheorems.ClosingConversionsAreExact | src/ledger.cpp:148-158 | The narrowing casts of the closed quantity and of the allocated cost lose nothing. |
| LedgerTheorems.FillAtMarkCostsTheFee | src/ledger.cpp:94-228 | A fill changes equity marked at its own price by minus the fee, plus at most one unit for a buy and minus at most one for a sell; exactly minus the fee when opening, closing fully, reversing, or without down-scaling. |
| LedgerTheorems.FillBeyondMarkGainsNothing | src/ledger.cpp:120-228 | A fill no better than the mark gains at most one unit less the fee (nothing for a sell), for opens, adds, closes and reversals. |
| LedgerTheorems.OpeningEntryPrice | src/ledger.cpp:194-216 | The reported entry price of an opening fill never exceeds the price and falls short only by the stated rounding. |
| LedgerTheorems.ReportedEntryPrice | src/ledger.cpp:194-216 | After any run every balance fits in 64 bits, a flat ledger reports no entry price, and otherwise the entry price is the cost per unit of position, truncated. |
| LedgerTheorems.ReportedProfit | src/ledger.cpp:223-227 | A fill reports the profit it books, except the one profit of 2^63, which it reports as -2^63: the full close, at a notional of nothing, of a short with the least 64-bit cost. |
| LedgerTheorems.RunConserves | src/ledger.cpp:120-240 | Over any run of fills, refusals and marks: books stay balanced, profit less cost equals minus the signed notionals (reversals count twice), and their rounding is bounded. |
| LedgerTheorems.EquityTracksExactWealth | src/ledger.cpp:94-228 | Reported equity is within (fills + reversals + 1) units, strictly, of the exact rational wealth. |
| Risk.RepresentableNotionalsAgree | src/risk.cpp:23-35 | The risk gate's and the exchange's unchecked notional equals the ledger's whenever the ledger can represent it, also under a scale-up. |
| Risk.NotionalsAgree | src/paper_exchange.cpp:30-43 | The same agreement under a 128-bit bound on the scale-up product. |
| RiskTheorems.GateIsExact | src/risk.cpp:39-94 | For every order whose notional product does not wrap, oversized ones included, the gate accepts if and only if the market is two-sided, fresh and narrow enough (as an exact inequality), size and exact notional respect their limits, the position and reduce-only rules hold, and equity is above the drawdown floor. |
| RiskTheorems.AcceptedOnlyWhenSafe | src/paper_exchange.cpp:107-110 | In every reachable state an order is accepted only in a tradable market, within the limits on position, order size and (unless its product wraps) order notional, and while reported equity is within the drawdown limit of the initial cash. |
| ExchangeObject.PaperExchange.Fill | src/paper_exchange.cpp:191-229 | A fill prices, charges, books and records as `FillOrder` says, or rejects the order and books nothing. |
| ExchangeObject.PaperExchange.ActivateAt | src/paper_exchange.cpp:151-189 | Activation rejects, takes the book, or joins the queue, as `Activate` says. |
| ExchangeObject.PaperExchange.MatchTrade | src/paper_exchange.cpp:231-265 | The loop with its early exits computes the matching pass over all orders. |
| ExchangeObject.PaperExchange.ApplyDueCancels | src/paper_exchange.cpp:267-277 | The loop computes the cancelling pass over all orders. |
| ExchangeObject.PaperExchange.HandleMarketEvent | src/paper_exchange.cpp:279-301 | An event is ignored and counted, or activates, matches, cancels and marks in that order. |
| ExchangeObject.PaperExchange.SubmitOrder | src/paper_exchange.cpp:92-149 | A submission is answered as a duplicate, refused with its first problem, or stored, indexed and activated when there is no latency. |
| ExchangeObject.PaperExchange.RequestCancel | src/paper_exchange.cpp:303-313 | A live order not yet cancel-pending becomes so with its due time; any other request changes nothing. |
| ExchangeInvariants.FeeIsExact | src/paper_exchange.cpp:196-210 | A fill that reaches the ledger was charged on the exact notional, although the exchange's own product is unchecked. |
| OrderLaws.SlipIsExact | src/paper_exchange.cpp:54-64 | A market order's price is the touch moved away by the least slip that covers the rate, if positive and within 64 bits. |
| OrderLaws.FillGoesThroughExactly | src/paper_exchange.cpp:191-229 | A fill goes through if and only if its notional and the least covering fee fit and the ledger has room, and leaves the expected ledger. |
| OrderLaws.ActivationIsExact | src/paper_exchange.cpp:151-189 | A due order takes, is rejected with the stated reason, or rests, as type, limit and touch decide; at its own touch it stands behind the displayed size, elsewhere behind the queue it had. |
| OrderLaws.TradeIsExact | src/paper_exchange.cpp:236-264 | A volume that hits an order, with sides, times and prices written out, takes its queue first and fills the rest when that can be booked; any other volume does nothing. |
| OrderLaws.LoneTradeIsExact | src/paper_exchange.cpp:231-265 | The same over every run for a lone resting order and the event's trade quantity. |
| OrderLaws.RequestedQueueIsExact | src/paper_exchange.cpp:183-188 | Over every run an event that an order awaiting cancellation does not cross leaves it behind the displayed size at its touch and elsewhere behind its old queue, less what the trade took, and fills it or is refused if and only if the volume exceeds that queue. |
| EntryLaws.SubmissionIsExact | src/paper_exchange.cpp:92-149 | A submission is stored if and only if its id is new and not empty, configuration, market and limit are there, the risk limits hold, and its whole lots are at least one and worth the minimum; the stored order asks for those lots. |
| EntryLaws.SubmissionNamesTheFirstProblem | src/paper_exchange.cpp:94-127 | The answer names the first thing wrong. |
| EntryLaws.GateNamesTheFirstLimit | src/risk.cpp:39-94 | The gate names the first limit that is broken. |
| EntryLaws.CancelIsExact | src/paper_exchange.cpp:303-313 | A cancel request is granted if and only if it names a stored order that is pending, open or partially filled, and then changes that order's status and due time alone. |
| EntryLaws.HearingIsExact | src/paper_exchange.cpp:279-301 | An event is heard if and only if its sequence is new and its times and book are in order; it then becomes the market and marks the account at its midpoint where that fits; otherwise it is counted alone. |
| EntryLaws.MidpointIsHalfWay | src/paper_exchange.cpp:297-298 | The midpoint is half way up the spread, rounded down. |
| ExchangeInvariants.RunKeepsInv | src/paper_exchange.cpp:73-313 | Every run keeps the full invariant; orders only evolve, terminal orders never change, the tape is append-only. |
| ExchangeTheorems.TapeDeterminesLedger | src/paper_exchange.cpp:191-229 | In every reachable state the tape replayed from the initial ledger is accepted fill by fill and reproduces position, cost, entry, cash, profit and fees; the position is the signed sum over orders. |
| ExchangeTheorems.ExchangeEquityTracksExactWealth | src/paper_exchange.cpp:204-229 | The equity bound of the ledger holds of every reachable exchange and its own tape. |
| ExchangeTheorems.ReportedProfitsAddUp | src/paper_exchange.cpp:204-229 | In every reachable state the booked profit is the sum of the profits on the tape, plus 2^64 for each fill whose profit did not fit in 64 bits. |
| ExchangeTheorems.ReportedProfitsAreExact | src/ledger.cpp:223-227 | Where notionals are scaled down by at most the square root of the 64-bit range and prices fit, that sum is the booked profit in every reachable state. |
| ExchangeTheorems.Lifecycle | src/paper_exchange.cpp:191-313 | Filled and remaining make up the quantity unless cancelled; filled status exactly when all is filled; fills on the tape add up to the filled quantity. |
| ExchangeTheorems.TerminalIsFinal | src/paper_exchange.cpp:66-69 | A terminal order is unchanged by every continuation of a run. |
| ExchangeTheorems.EveryFillIsLegal | src/paper_exchange.cpp:151-265 | Every fill of every run names an accepted event received no earlier than activation, is no worse than the limit, is maker if post-only, answers an opposing trade if maker, and carries the exact rounded-up fee. |
| ExchangeTheorems.MarketOrderFillsOnce | src/paper_exchange.cpp:155-166 | No market order has two fills. |
| Cancellation.EventSettlesDeadlines | src/paper_exchange.cpp:267-296 | After an event accepted at time t no order is pending with activation due by t or cancel-pending with cancellation due by t. |
| Cancellation.DueCancelIsHonouredUnlessFilled | src/paper_exchange.cpp:212-215 | A due cancel is honoured by the next accepted event if and only if the event does not overtake it: the order is not yet active, or it neither takes the book nor has a trade against it that leaves volume past its new queue. An order not cancelled was filled or rejected. |
| Cancellation.FirstDueCancelIsHonoured | src/paper_exchange.cpp:267-277 | For an order with no live order before it the same condition on the order and the event alone, with the traded volume. |
| Cancellation.RequestIsHonouredInTime | src/paper_exchange.cpp:279-313 | Over any run without a new request, a request is honoured if and only if the run brings an accepted event at which it is due and no accepted event up to the first such one overtakes it. |
| Cancellation.OvertakenCancelIsForgotten | src/paper_exchange.cpp:212-215 | A cancel overtaken by a partial fill is forgotten: without a new request no run ever cancels the order. |
| Provenance.NothingHappensUnasked | src/paper_exchange.cpp:112-149 | Every order is the rounded form of a submission accepted in the run, active one latency after it; every cancelled order had an effective request and, after it, an accepted event received at least one cancellation latency later. |
| Matching.TradeIsSharedInOrder | src/paper_exchange.cpp:236-264 | For displayed sizes of any sign: a later order is touched only if every earlier reached one is done, and leftover volume means every reached order is done; quantity filled plus queue taken off, with its sign, is at most the volume used. |
| QueuePosition.EveryTradeIsShared | src/paper_exchange.cpp:231-265 | The sharing rules hold of every trade in every run, whatever the sizes. |
| QueuePosition.NoTradeOverfills | src/paper_exchange.cpp:231-265 | In every run of events with non-negative sizes no queue grows, no order fills before its queue is gone, and a trade's fills together are at most the volume used, itself at most the volume traded. |
| TradeExactness.TradeOverfillIsExact | src/paper_exchange.cpp:236-264 | For sizes of any sign a trade fills more than was traded only if it gets as far as an order up to which the reached queues sum below zero and the remainders above the trade; and always then, unless a fill is refused. What it fills is what a dry run before the trade gives. |
| QueuePosition.QueueGuarantee | src/paper_exchange.cpp:183-188 | Over every run of events with non-negative sizes an order nobody asked to cancel has filled at most the opposing volume at or through its limit since it rested, less the displayed queue it joined. |
| QueueExactness.AloneFillsExactly | src/paper_exchange.cpp:231-265 | An order served alone fills exactly that volume, up to its quantity, unless a fill was refused. |
| QueueExactness.FirstInLineOverfillIsExact | src/paper_exchange.cpp:257-263 | In every reachable state a lone resting order fills more than an event trades if and only if its queue is negative, more than the trade is left to fill, and the larger fill can be booked. |
| Requeueing.CancelEndsTheGuarantee | src/paper_exchange.cpp:288-293 | From any run that leaves a lone order resting and never asked to cancel: after a request some next event exceeds the queue guarantee if and only if the order is a limit order short of its bound whose rest can be taken at some price within its limit, or it is behind its queue and some quantity can be filled at its limit. |
| QueueExactness.AloneIsShort | src/paper_exchange.cpp:231-265 | A resting order served alone is always short of its bound, and is behind its queue if and only if it has a queue ahead. |
| Idempotence.RefusalsLeaveNoTrace | src/paper_exchange.cpp:92-127 | Deleting every refused event, submission and cancel from a run changes only the ignored counter, which counts the refused events. |
| Idempotence.RedeliveryIsIgnored | src/paper_exchange.cpp:279-286 | Any event heard before is ignored when redelivered, at any later point of any run. |
| Idempotence.IndexAgreesWithScan | src/paper_exchange.cpp:87-90 | The id index always answers like a linear scan, and no two orders share an id. |
| Idempotence.SubmissionIsAnsweredTruly | src/paper_exchange.cpp:92-149 | The answer names the number and status of the one order with that id, a refusal has no number and leaves no order, and a duplicate changes nothing. |
| Idempotence.ResubmissionNamesTheOriginal | src/paper_exchange.cpp:94-96 | Submitting an id again at any later point changes nothing and names the original order and its current status. |
| PositionLimits.SerialSubmissionKeepsLimit | src/risk.cpp:64-71 | If each accepted order comes when no other is live, the position is within the limit in every reachable state and at every step inside every event. |
| PositionLimits.CoveredRunStaysWithin | src/risk.cpp:64-71 | More generally, submissions covered by the remaining exposure of their side keep the limit with any number of live orders. |
| PositionSafety.CoveredIsSafe | src/risk.cpp:64-71 | An accepted covered order, with or without latency, keeps the position within the limit after every run of events and cancels. |
| PositionSafety.SweepReachesTheBound | src/paper_exchange.cpp:231-265 | An accepted event that sweeps a side, through the book or its trade, moves the position by all that the live orders of the side have left. |
| PositionSafety.CoverOnEntryIsExact | src/paper_exchange.cpp:145-149 | In every reachable state, for an accepted order of any type, what activation on entry makes of it, and any event that then sweeps its side: the position stays within the limit after every run of events and cancels if and only if the order is covered, or entry rejects it for want of a price, as a crossing post-only order or for a refused fill. |
| PositionSafety.CoverIsExact | src/risk.cpp:64-71 | For an order that waits on entry: safe if and only if covered. |
| PositionLimits.ReduceOnlyNeverGrows | src/risk.cpp:72-76 | A reduce-only order accepted with no other order live keeps the position between zero and its value at submission, whatever follows. |
| TakerWealth.TakingTheBookCreatesNoWealth | src/paper_exchange.cpp:155-181 | All activations of an event together raise equity at its midpoint by at most one unit per fill, less fees. |
| TakerWealth.QuietEventCreatesNoWealth | src/paper_exchange.cpp:297-299 | The reported equity after an accepted event without a trade obeys the same bound at its midpoint, whenever the ledger after the activations can be marked there. |
| TakerWealth.EnteringTheBookCreatesNoWealth | src/paper_exchange.cpp:145-149 | The same for an order activated on entry. |
| TakerWealth.SlippedAway | src/paper_exchange.cpp:54-64 | Slippage moves a market order's price away from the trader by the least whole amount that covers the rate. |
| TakerWealth.CeilPpmCovers | src/paper_exchange.cpp:45-52 | The rounded-up rate is the least whole amount that covers the exact one. |
| Counterexamples.TwoLiveOrdersBreakTheLimit | src/risk.cpp:66-71 | A concrete run in which two live orders break the position limit. |
| Counterexamples.NegativeSizesFillMoreThanTraded | src/paper_exchange.cpp:257-263 | A concrete run in which negative displayed sizes let one trade fill more than was traded. |
| Counterexamples.CancelRequestSkipsTheQueue | src/paper_exchange.cpp:288-293 | A concrete run in which a cancel request makes an order re-join the queue and fill ahead of the units it was behind. |
| Counterexamples.DueCancelIsLost | src/paper_exchange.cpp:212-215 | A concrete run in which a due cancel is lost to a partial fill. |
| ReplayLoop.RunReplay | apps/astra_replay/main.cpp:468-563 | The loop over rows, exchange and feature builder computes `Replay` and its report, or stops at the first invalid row. |
| ReplayLoop.ProcessRow | apps/astra_replay/main.cpp:481-546 | One pass trades the pending decision, shows the event, decides and measures, in that order. |
| ReplayLoop.SumFills | apps/astra_replay/main.cpp:560-563 | The closing loop computes gross profit and gross loss of the tape. |
| ReplayTheorems.ReplayStaysOnTarget | apps/astra_replay/main.cpp:486-541 | For rows in strictly increasing exchange time: position always -100, 0 or 100; at most one live order; every fill on a later sequence number than its decision; reported profits add up to the ledger's. |
| ReplayTheorems.AcceptedEventResolves | apps/astra_replay/main.cpp:508-519 | For rows in strictly increasing exchange time every accepted event leaves no live order. |
| ReplayTheorems.DueOrdersResolve | apps/astra_replay/main.cpp:508-519 | In every replay, whatever the times, an accepted event resolves the live orders due at it and leaves the others as they are. |
| TiedRows.TiedRowsMissTheTarget | apps/astra_replay/main.cpp:486-541 | Three rows, two of them at one time, after which an accepted event leaves a live order and the position reaches twice the target. |
| ReplayTheorems.ReplayIsARun | apps/astra_replay/main.cpp:468-541 | The exchange of a replay is the exchange of an ordinary run of actions, so every whole-run guarantee applies. |
| ReplayTheorems.ReportReconciles | apps/astra_replay/main.cpp:555-563 | For every replay, whatever its row times and decisions: gross profit less gross loss is realized profit and the sum of the profits on the tape, the two together are that sum without signs, and final equity is initial equity plus it, plus unrealized, less fees. |
| ReplayTheorems.DrawdownIsTheLargestFall | apps/astra_replay/main.cpp:543-546 | The one-pass drawdown is the largest fall of the equity curve from a point to a later one, the initial equity included. |
| ReplayTheorems.OrdersFollowDecisions | apps/astra_replay/main.cpp:486-541 | A decision trades if and only if it succeeded, reaches the threshold, is not a hold and the position is not at its target; the order then leads to that target. |
| ReplayTheorems.CountersReconcile | apps/astra_replay/main.cpp:497-529 | Every row in the window is one event or one ignored event, every signal one accepted or one rejected order, and features advance once per event. |
| ReplayLaws.ReplayRunsOnReadableRows | apps/astra_replay/main.cpp:155-193 | A replay runs to its end if and only if every row passes the listed checks. |
| ReplayLaws.RowIsExact | apps/astra_replay/main.cpp:481-546 | A row outside the window does nothing; inside, its event is shown after the pending decision; a heard event adds one midpoint and equity, and a decision exactly at multiples of the interval and taped numbers, held when below the threshold. |
| ReplayLaws.AcceptedOrdersAreStored | apps/astra_replay/main.cpp:508-510 | The accepted orders of the report are the orders the exchange has stored. |
| ReplayLaws.OrdersReachTheirTarget | apps/astra_replay/main.cpp:486-541 | For increasing rows, at ordinary prices and with modest balances, a waiting order is filled by the next heard event and the position reaches its target, flips included. |
| ReplayTheorems.OrderNamesAreUnique | apps/astra_replay/main.cpp:499-500 | Different decision sequences name different orders. |
| LiveTrader.LiveFromTheStart | apps/astra_trader/main.cpp:157-239 | Whatever the feed and the gates do, the live position is -1, 0 or 1 and no order outlives its callback. |
| LiveTrader.TickIsExact | apps/astra_trader/main.cpp:205-239 | After any run, a callback trades only on a heard event with a signal; a buy aims at long one and a sell at short one, and the position gets there if and only if the order is accepted and not rejected on entry. |
| Features.FeatureBuilder.Update | src/feature_builder.cpp:29-66 | The ring buffer gives the features of the whole history: return zero for the first L updates, then the truncated, clamped change against the midpoint exactly L updates earlier. |
| Features.MakeFeatureBuilder | src/feature_builder.cpp:22-27 | A lookback of zero is refused. |
| Features.SlotsDiffer | src/feature_builder.cpp:41-42 | Within one turn of the ring only entries one full turn apart share a slot. |
| Features.ImbalanceIsBounded | src/feature_builder.cpp:45-51 | Imbalance stays within one million parts for non-negative sizes. |
| Features.FeaturesAreExact | src/feature_builder.cpp:29-66 | The return is positive when the price rose and the imbalance when more is bid, each the ratio in parts per million rounded toward zero and held within 64 bits; the other features are the event's. |
| ModelWorkers.ModelWorker.Submit | src/model_worker.cpp:22-30 | A submission replaces the pending state and counts a coalesced request, or is dropped when stopping. |
| ModelWorkers.ModelWorker.TryTake | src/model_worker.cpp:32-37 | Taking returns the completed result and clears it. |
| ModelWorkers.ModelWorker.Wake | src/model_worker.cpp:49-58 | The woken worker exits when stopping, and otherwise picks up the pending state and clears it. |
| ModelWorkers.ModelWorker.Publish | src/model_worker.cpp:60-85 | A returned or thrown decision is published; a throw becomes a hold on the same sequence. |
| ModelWorkers.NoSubmissionIsLost | src/model_worker.cpp:22-58 | For any decision function, under every interleaving before stop: submissions equal states picked up, requests coalesced and the one pending; the newest is pending or was picked up last. |
| ModelWorkers.ResultsStrictlyIncrease | src/model_worker.cpp:32-86 | Results are taken in strictly increasing sequence order, each the decision on a submitted state. |
| ModelWorkers.ResultsAreAnswers | src/model_worker.cpp:60-85 | Under every interleaving each result taken or acted on is what the decision function returned on a submitted state, or a hold with all its probability on holding and the thrown message; so one that is not a hold was returned. |
| ModelWorkers.WorkerStepsAreExact | src/model_worker.cpp:49-86 | An idle worker wakes exactly for a pending state or the stop, leaves when stopping, and publishes the answer to the state it picked up. |
| ModelWorkers.TraderGate.Gate | apps/astra_trader/main.cpp:197-204 | The gate passes a result newer than the last acted on, not from the future and at most 2,500 old, and remembers it. |
| ModelWorkers.ActsOnceAndFresh | apps/astra_trader/main.cpp:182-204 | For any decision function and under every interleaving the trader acts on each result at most once, in order, and never on a stale one. |
| ModelWorkers.TraderStepsAreExact | apps/astra_trader/main.cpp:182-204 | The gate acts if and only if the result is newer than the last acted on, not from the future and at most 2,500 old; a state is submitted exactly at multiples of 1,000; a completed result is taken and kept. |
| AuditWriters.AuditWriter.Append | src/audit_writer.cpp:19-29 | A line is queued, or counted as dropped when stopping or full. |
| AuditWriters.AuditWriter.WriteBatch | src/audit_writer.cpp:59-64 | A batch is streamed line by line and flushed; a failed stream takes no more and clears the healthy flag. |
| AuditWriters.LinesAreConserved | src/audit_writer.cpp:10-66 | Under every interleaving: streamed, batch and queue are the accepted lines in order; queue within capacity; appends are accepted plus dropped; the file holds a prefix, all of it while the stream is good. |
| AuditWriters.LinesAreKeptWhileThereIsRoom | src/audit_writer.cpp:19-29 | A line is kept exactly while the writer is open and the queue has room, and otherwise counted as dropped. |
| AuditWriters.WriterStepsAreExact | src/audit_writer.cpp:46-58 | An idle writer goes on exactly when stopping or with lines queued, takes the whole queue, and leaves when stopping with nothing left. |
| AuditWriters.NothingFailsNothingIsLost | src/audit_writer.cpp:41-66 | Under every interleaving without a failed file operation the writer stays healthy and the file holds every accepted line not yet in hand. |
| AuditWriters.ExitedWriterHasWrittenAll | src/audit_writer.cpp:41-66 | A healthy writer that has exited has written every accepted line exactly once and in order; one whose file never opened wrote nothing. |

## Left out

- The Binance feed, the HTTP and JSON side of the model gateway, the status server and the frontend: network, library and interface code.
- Python research scripts and reports: floating-point training, files and generated data.
- Command-line parsing, CSV and JSON text and decision-tape loading: rows are records, the validity checks of a row are `ReplayModel.ValidRow`, and decisions come from an arbitrary function.
- `ExchangeClock`, `StatusStore` and the `to_string` functions: single-branch facts. Reject strings are datatype values, and the live callback's clock and probability checks are an arbitrary signal.
- Real clocks, scheduling fairness and file errors: nondeterministic steps, with safety claims only.
- Overflow of 64-bit timestamps, sequence numbers, counters, and the replay's equity differences and sums of gross profit and gross loss: those numbers are unbounded here.
- The bytes a failing output stream loses inside its own buffer: a line counts as written once the stream has taken it.
- QueuePosition.QueueGuarantee: an upper bound when several orders share a trade (an equality for an order served alone, `QueueExactness.AloneFillsExactly`); it asks for no cancel request, without which it fails, and for events whose displayed sizes are not negative.
- PositionSafety.CoverOnEntryIsExact: one direction only (covered orders are safe) for sides that no single event sweeps: a fill has no price or no room in the ledger, a post-only sell is limited to one unit of price, or an order of the other side must take the book at the same time.
- Requeueing.CancelEndsTheGuarantee: speaks of the one event after the request, for an order with no other order live.
- TradeExactness.TradeOverfillIsExact: when a fill is refused in the middle of a trade, the condition on queues and remainders is necessary only; what the trade fills is then given by a dry run alone.
- PositionLimits.SerialSubmissionKeepsLimit: one direction only, since a run of overlapping orders may stay within the limit by luck; the condition per submission is `PositionSafety.CoverOnEntryIsExact`.
