# FuzzHelm in Dafny

A model of the parts of FuzzHelm whose correctness spans many steps: the loss-free ingest protocol, the paper broker with
the trading loop's halt latch, perpetual-futures accounting, the fast numerical forms behind the features and the fuzzy
core, and the time and paging budgets. All statements below hold for every input, every run or every reachable state.

`dafny verify dfyconfig.toml` checks the whole project.

## How it is laid out

Each stateful component appears twice. A pure module gives its state as a datatype and its operations as functions; proofs
about any sequence of operations are lemmas about those functions. A class has the fields of the original object and methods
with the original loops, and every method is proved to move the object's abstract value (`View()`) exactly as the function does.

| component | functions and proofs | classes |
|---|---|---|
| gap detector | `GapLedger`, `LedgerProofs`, `LedgerTiming` | `GapDetector` |
| candle aggregator | `Release`, `ReleaseProofs` | `CandleAggregator` |
| deduplication | `Dedup` | `Deduplicator` |
| ingest pipeline | `Ingest`, `IngestProofs`, `CandleDelivery`, `TradeDelivery` | `IngestPipeline` |
| history and gap filling | `Backfill`, `BackfillProofs`, `Seams`, `GapFill` | (methods in `Backfill`, `GapFill`) |
| paper broker | `Broker`, `BrokerProofs`, `BrokerTheorems`, `BrokerRuns`, `BarOrders`, `BarPaths`, `TouchedStops`, `Funding`, `FundingRuns` | `PaperBroker` |
| order router | `Routing` | `OrderRouter` |
| account | `Accounting`, `AccountingProofs` | `Portfolio` |
| trading loop | `Engine`, `EngineProofs`, `Targets`, `EngineMoney` | `TradingLoop` |
| window statistics | `Statistics` | `RollingStats`, `WindowOrder`, `Wilder` |
| fuzzy core | `Rules`, `Mamdani`, `Defuzz` | (methods in the same modules) |
| rate limit | `RateLimit` | `RateLimit.TokenBucket` |

Conventions: decimals and floats are `real`, so identities are exact; nanoseconds, milliseconds and ids are unbounded `int`;
an exception is a `None`, an error value or a `fault` flag that is proved never to be set; `async` is erased, because the
fill loop is serial (`_filling`); clocks, the REST hook, exchange answers, fill prices, the halt latch and the risk chain's
approved quantity are parameters, so the results hold whatever they are.

Where code and prose differ the code is followed:

- The router's module text promises idempotency by order id. If an answer is lost and reconciliation finds nothing, the
  submission is answered REJECTED although the order is live, and so is its retry. `Routing.RejectedYetLive` says exactly
  when an answer is of this kind, and `Routing.HistoryTells` what a caller can conclude from its own submissions.
- Funding that is booked on a flat position appears in no closed trade (`AccountingProofs.StrayFundingIsInNoTrade`);
  `AccountingProofs.FlatMoneyIsConserved` gives the exact condition, and `EngineProofs.FlatRunIsItsTrades` shows that the
  trading loop never causes it.
- A stop exactly at a bar's extreme may survive the bar if it shares its level, since a segment ends once the walk has
  reached that price (`TouchedStops.TouchedStopMaySurvive`); the crossing law covers every stop that is strictly crossed, or
  reached while alone at its level.
- With a size limit of the deduplicator (the pipeline has one by default) a trade can be delivered twice
  (`TradeDelivery.SomeTradeComesTwice`, for every limit). In any session this happens to an id if and only if its trade was
  stored again after at least that many other events (`TradeDelivery.TwiceIffForgotten`), which the caller can see before
  the event: it was stored and is not among the last ones stored (`TradeDelivery.NextTradeRepeats`).
- `fill_gaps` promises that a second fill of the same gaps adds nothing. It does so for the same exchange time
  (`GapFill.RepeatedFillAddsNothing`); at a later one it adds a bar that has closed in between (`GapFill.LateBarIsAdded`), and
  `GapFill.LaterFillAddsNothing` says exactly when it adds nothing.

## Model

| member | source | states |
|---|---|---|
| `LedgerProofs.EveryRunKeeps` | src/fuzzhelm/ingest/gap_detector.py:118-304 | after any sequence of detector calls the owner map and the missing sets are mutually inverse and every record is truthful; a `begin_fill` or `resolve` that raises changes nothing (that no session makes one raise is `IngestProofs.StatusesAreTrue`) |
| `LedgerProofs.NoTradeForgotten` | src/fuzzhelm/ingest/gap_detector.py:229-275 | after any calls each aggTrade id from the first to the greatest seen is in exactly one of: received, one candidate hole, one gap's missing set |
| `LedgerProofs.NoMinuteForgotten` | src/fuzzhelm/ingest/gap_detector.py:181-228 | after any calls each grid minute from the first kline to the settle frontier is received closed or missing in exactly one gap, never both; every kline gap is a contiguous stretch of the grid and counts every minute of it |
| `LedgerTiming.SettledOnTime` | src/fuzzhelm/ingest/gap_detector.py:203-222 | after any calls a grid minute from the first kline on is settled if and only if it closed at least a grace period before the greatest exchange time seen, so every kline gap covers only minutes that closed that long ago |
| `LedgerTiming.NoHoleOverdue` | src/fuzzhelm/ingest/gap_detector.py:255-271 | after any calls every candidate hole has at most the allowed number of ids and is younger than a grace period: what is too large or too old has been reported |
| `LedgerTiming.NoHoleEarly` | src/fuzzhelm/ingest/gap_detector.py:255-271 | no hole is reported early: after any calls a new trade gap (other than by a flush) has too many ids for reordering or its later neighbour came a grace period ago |
| `LedgerTiming.JumpNoticed` | src/fuzzhelm/ingest/gap_detector.py:229-253 | a jump in the trade ids makes one hole of exactly the ids left out, between the exchange times of its neighbours, noticed at the clock; it waits, or is reported at once if it is too large |
| `LedgerTiming.ConfirmReportsDue` | src/fuzzhelm/ingest/gap_detector.py:255-271 | a confirmation pass makes one gap of every overdue hole, in order, with as many keys, from its least to its greatest, between the exchange times of its neighbours |
| `LedgerProofs.FillKeeps` | src/fuzzhelm/ingest/gap_detector.py:162-179 | filling a key is never an illegal transition, removes exactly that key and leaves every record truthful |
| `LedgerProofs.OnKlineKeeps` | src/fuzzhelm/ingest/gap_detector.py:188-222 | a candle keeps the ledger invariant for the enlarged history, including late candles and the sweep it triggers |
| `LedgerProofs.OnTradeKeeps` | src/fuzzhelm/ingest/gap_detector.py:229-271 | a trade keeps the ledger invariant for the enlarged history, whether it is new, late, in a hole or in a gap |
| `LedgerProofs.OnTimeKeeps` | src/fuzzhelm/ingest/gap_detector.py:181-186 | advancing the exchange clock keeps the ledger invariant |
| `LedgerProofs.BeginFillKeeps` | src/fuzzhelm/ingest/gap_detector.py:277-280 | starting an attempt on an OPEN gap is legal and keeps the ledger invariant |
| `LedgerProofs.ResolveKeeps` | src/fuzzhelm/ingest/gap_detector.py:282-290 | resolving a FILLING gap is legal and the status then says exactly what is left: nothing, a part or everything |
| `GapDetector.Detector.OnKline` | src/fuzzhelm/ingest/gap_detector.py:188-201 | the mutable detector follows the ledger function |
| `GapDetector.Detector.OnTrade` | src/fuzzhelm/ingest/gap_detector.py:229-253 | the mutable detector follows the ledger function |
| `GapDetector.Detector.OnTime` | src/fuzzhelm/ingest/gap_detector.py:181-186 | the mutable detector follows the ledger function |
| `GapDetector.Detector.SweepKlines` | src/fuzzhelm/ingest/gap_detector.py:203-222 | the sweep loop follows the ledger function |
| `GapDetector.Detector.ConfirmHoles` | src/fuzzhelm/ingest/gap_detector.py:255-271 | the confirmation loop follows the ledger function |
| `GapDetector.Detector.Fill` | src/fuzzhelm/ingest/gap_detector.py:162-179 | the mutable fill follows the ledger function |
| `GapDetector.Detector.Open` | src/fuzzhelm/ingest/gap_detector.py:150-160 | opening a gap records it and gives every key its owner |
| `GapDetector.Detector.Resolve` | src/fuzzhelm/ingest/gap_detector.py:282-290 | the mutable resolve follows the ledger function |
| `ReleaseProofs.DrainKeeps` | src/fuzzhelm/ingest/candles.py:121-139 | a drain terminates, keeps the order, loses nothing and stops only at a minute that is neither held nor skipped |
| `ReleaseProofs.OfferKeeps` | src/fuzzhelm/ingest/candles.py:87-119 | offering keeps the order of delivery and enlarges the content by exactly the candles taken up |
| `ReleaseProofs.SkipKeeps` | src/fuzzhelm/ingest/candles.py:141-147 | declaring minutes unobtainable changes no content and keeps the order |
| `ReleaseProofs.FlushKeeps` | src/fuzzhelm/ingest/candles.py:149-155 | the end of the stream delivers everything held, in order, and loses nothing |
| `ReleaseProofs.OfferAllContent` | src/fuzzhelm/ingest/candles.py:87-139 | whatever arrived from the start minute on is delivered or held, each candle once, and nothing else is; every grid minute below the frontier was delivered |
| `ReleaseProofs.DeliveredIsSortedInput` | src/fuzzhelm/ingest/candles.py:87-155 | the delivered series is the sorted set of the minutes that arrived from the start on |
| `ReleaseProofs.OrderAndRepetitionIrrelevant` | src/fuzzhelm/ingest/candles.py:87-155 | any reordering or repetition of the same value-consistent closed minutes delivers the same series |
| `CandleAggregator.Aggregator.Offer` | src/fuzzhelm/ingest/candles.py:87-119 | the mutable aggregator follows the function |
| `CandleAggregator.Aggregator.Drain` | src/fuzzhelm/ingest/candles.py:121-131 | the drain loop follows the function |
| `CandleAggregator.Aggregator.Skip` | src/fuzzhelm/ingest/candles.py:141-147 | the skip loop follows the function |
| `CandleAggregator.Aggregator.Flush` | src/fuzzhelm/ingest/candles.py:149-155 | the flush follows the function |
| `Dedup.StoreIsBest` | src/fuzzhelm/ingest/dedup.py:64-99 | without a size limit the store holds for every uid offered the maximum of its versions under the precedence order, and nothing else |
| `Dedup.OfferByFields` | src/fuzzhelm/ingest/dedup.py:35-78 | a known uid, with any size limit: the stored version stays as a duplicate exactly if it is to be preferred by closedness, source (stream, REST, replay), later exchange time, earlier arrival and greater digest, in this order; otherwise it is replaced |
| `Dedup.StoredIsPreferred` | src/fuzzhelm/ingest/dedup.py:35-78 | whatever is offered in whatever order, of all versions of a uid the store holds the one preferred to every other in that sense |
| `Dedup.RestCopyIsDuplicate` | src/fuzzhelm/ingest/dedup.py:35-38 | a backfill that overlaps the stream changes nothing: the REST copy of a closed candle from the stream is a duplicate |
| `Dedup.ValuesInTimeOrder` | src/fuzzhelm/ingest/dedup.py:96-98 | the stored events come out by exchange time, then uid, each once |
| `Dedup.ArrivalOrderIrrelevant` | src/fuzzhelm/ingest/dedup.py:53-106 | store and sorted values are the same for every permutation and repetition of the input |
| `Dedup.ReofferIsDuplicate` | src/fuzzhelm/ingest/dedup.py:64-78 | offering again anything offered before is a duplicate and changes nothing |
| `Dedup.ClosedWins` | src/fuzzhelm/ingest/dedup.py:35-51 | the first closed version of a candle is never dropped for an open one, and a stored closed version stays closed |
| `Dedup.OfferKeepsWindow` | src/fuzzhelm/ingest/dedup.py:64-78 | with a size limit the store is the window of the last uids stored as new: an offer is NEW exactly if its uid is not among them, and a uid is stored again only after that many others |
| `Deduplicator.Deduper.Offer` | src/fuzzhelm/ingest/dedup.py:64-78 | the mutable deduplicator, with or without size limit, follows the function |
| `Deduplicator.DedupAll` | src/fuzzhelm/ingest/dedup.py:101-106 | batch deduplication returns one representative per uid in the order of (exchange time, uid) |
| `IngestProofs.RunKeeps` | src/fuzzhelm/ingest/pipeline.py:216-241 | any session with any backfill answers keeps the joint invariant of detector, aggregator, deduplicator and queue |
| `IngestProofs.AdmitKeeps` | src/fuzzhelm/ingest/pipeline.py:319-358 | one event from stream or REST keeps that invariant, also in the middle of a fill |
| `IngestProofs.AttemptKeeps` | src/fuzzhelm/ingest/pipeline.py:383-417 | one fill attempt keeps that invariant whatever the hook returns |
| `IngestProofs.LedgerMatchesRelease` | src/fuzzhelm/ingest/pipeline.py:339-358 | at any moment a settled minute is off the ledger exactly when it is delivered or held, and a minute given up stays on the ledger |
| `IngestProofs.NothingWithheld` | src/fuzzhelm/ingest/pipeline.py:383-417 | between items the release frontier has reached the settle frontier |
| `IngestProofs.LedgerNeverLies` | src/fuzzhelm/ingest/pipeline.py:339-417 | between items of any session a settled minute is delivered or listed as missing, never both |
| `IngestProofs.SettledInTime` | src/fuzzhelm/ingest/gap_detector.py:203-222 | between items of any session a minute is settled exactly if it closed a grace period ago, and from then on it is delivered or listed as missing; no candidate hole is overdue |
| `IngestProofs.NewestOnly` | src/fuzzhelm/ingest/pipeline.py:308-317 | a book update or mark price is let through if and only if it is not older than the newest one so far, which moves on to it |
| `IngestProofs.DeliveredInOrderOnce` | src/fuzzhelm/ingest/pipeline.py:355-365 | candles reach the consumer in strictly increasing order, each minute at most once |
| `IngestProofs.StatusesAreTrue` | src/fuzzhelm/ingest/gap_detector.py:39-97 | no session attempts an illegal transition; FILLED if and only if nothing is missing; each gap is tried at most once, and with a hook none is left OPEN or FILLING between items |
| `IngestProofs.FilledMeansDelivered` | src/fuzzhelm/ingest/pipeline.py:342-347 | a FILLED kline gap covers only minutes the consumer received |
| `IngestProofs.FinalReport` | src/fuzzhelm/ingest/pipeline.py:452-455 | after the end of a session everything held was delivered in order and the ledger still tells the truth |
| `TradeDelivery.TradesExactlyOnce` | src/fuzzhelm/ingest/pipeline.py:351-355 | without a size limit of the deduplicator, or while no more uids than the limit plus one were stored, every valid trade of the stream is delivered and no aggTrade id twice, whatever is backfilled |
| `TradeDelivery.TradesAtLeastOnce` | src/fuzzhelm/ingest/pipeline.py:351-355 | with any size limit every valid trade of the stream is delivered, and an aggTrade id is delivered twice if and only if its trade was stored again after at least that many other uids |
| `TradeDelivery.TwiceIffForgotten` | src/fuzzhelm/ingest/dedup.py:64-78 | that equivalence for one id and any session |
| `TradeDelivery.NextTradeRepeats` | src/fuzzhelm/ingest/pipeline.py:325-355 | after any session the next valid trade is handed on exactly if its uid is not among the last ones stored, and it was delivered before exactly if its uid was ever stored |
| `TradeDelivery.SomeTradeComesTwice` | src/fuzzhelm/ingest/pipeline.py:180-194 | for every size limit there is a session, of as many other trades as the limit and the first one again, that delivers a trade twice |
| `CandleDelivery.CandlesDelivered` | src/fuzzhelm/ingest/pipeline.py:319-417 | the first valid candle of the series is where the session's series begins; from there on, in the end a valid closed candle of the stream has been delivered if and only if its minute had not been given up before it came, and if and only if the ledger does not list it |
| `CandleDelivery.DeliveredCame` | src/fuzzhelm/ingest/pipeline.py:339-365 | every candle (closed, with its values) and every trade delivered is one that came from the stream or from REST |
| `CandleDelivery.AdmitTakes` | src/fuzzhelm/ingest/pipeline.py:319-358 | one event loses nothing that is there; a valid closed candle of the series, duplicate or not, is then delivered, held, before the series, or was given up before it came |
| `CandleDelivery.RunTakes` | src/fuzzhelm/ingest/pipeline.py:216-241 | whatever arrived at any point of a session stays so to its end, whatever is filled or given up later |
| `IngestPipeline.Pipeline.Accept` | src/fuzzhelm/ingest/pipeline.py:319-358 | the mutable pipeline follows the function for one event |
| `IngestPipeline.Pipeline.OnGaps` | src/fuzzhelm/ingest/pipeline.py:367-377 | new gaps are queued once, and the fill loop starts only if it is not running |
| `IngestPipeline.Pipeline.FillLoop` | src/fuzzhelm/ingest/pipeline.py:383-410 | the fill loop follows the function |
| `IngestPipeline.Pipeline.SkipMissing` | src/fuzzhelm/ingest/pipeline.py:412-417 | giving up the rest of a gap follows the function |
| `Backfill.BackfillKlines` | src/fuzzhelm/ingest/backfill.py:156-224 | the paging loop ends for every server; the call yields the bars, pages, seams and gaps of the specification, one request per page |
| `Backfill.DetectGaps` | src/fuzzhelm/ingest/backfill.py:118-146 | the detection sorts the opens, takes either bound or none, and follows the specification, including the error for an open off the grid |
| `BackfillProofs.ExactlyTheClosedBars` | src/fuzzhelm/ingest/backfill.py:156-220 | against a fixed table on the grid the result is exactly the closed bars in range, each as the table has it, and every seam is OK |
| `BackfillProofs.FetchTable` | src/fuzzhelm/ingest/backfill.py:186-218 | paging keeps what one look at the whole range would keep |
| `Seams.AnyServer` | src/fuzzhelm/ingest/backfill.py:186-218 | whatever the exchange answers: each page asks for the last bar of the one before, its seam says truly whether that bar came again, changed or not at all, the mismatches are exactly the changed ones, of every bar the version that came last is kept, and there is a further page exactly after a full one that made progress short of the end |
| `BackfillProofs.GapsPartition` | src/fuzzhelm/ingest/backfill.py:118-146 | bars and gaps partition the expected grid: each point is a bar or lies in exactly one gap, gaps are apart, and the counts add up |
| `BackfillProofs.DetectsMisalignment` | src/fuzzhelm/ingest/backfill.py:132-139 | detection fails if and only if some open is off the grid |
| `BackfillProofs.BarsAndGapsPartition` | src/fuzzhelm/ingest/backfill.py:220-224 | the bars fetched from a table and the gaps reported with them partition the expected grid |
| `BackfillProofs.RequestsAreThePlan` | src/fuzzhelm/cli.py:191-197 | for a dense, fully closed range the number of requests is the planned number of pages |
| `GapFill.FillGaps` | src/fuzzhelm/ingest/backfill.py:227-250 | one query per gap; the loop follows the specification: what is fetched and added, and which status each gap gets |
| `GapFill.FilledMeansComplete` | src/fuzzhelm/ingest/backfill.py:239-250 | against a fixed table a gap becomes FILLED if and only if the table has every bar of it, closed, and UNFILLABLE if and only if it has none |
| `GapFill.RepeatedFillAddsNothing` | src/fuzzhelm/ingest/backfill.py:227-254 | filling the same gaps again for the same exchange time, with arrival times that are not earlier, adds nothing and leaves the store as it was, whatever the exchange answers |
| `GapFill.LaterFillAddsNothing` | src/fuzzhelm/ingest/backfill.py:227-254 | at any later exchange time, against a fixed table: a second fill adds nothing if and only if every bar of the gaps that is closed by then was closed at the first fill or known before it |
| `GapFill.LateBarIsAdded` | src/fuzzhelm/ingest/backfill.py:241-243 | a bar that closes between two fills of its gap is added by the second |
| `GapFill.RefillAddsNothing` | src/fuzzhelm/ingest/backfill.py:227-254 | for any answers: a repeated fill whose bars do not outrank the earlier copies adds nothing and leaves the store as it was |
| `Funding.NextFundingIsNext` | src/fuzzhelm/execution/cost_model.py:235-241 | the next funding time is later than now, is a funding moment, and none lies in between |
| `Funding.FundingTimesExact` | src/fuzzhelm/execution/cost_model.py:243-255 | the list is exactly the funding moments in the half-open interval, ascending |
| `Funding.FundingTimesAdditive` | src/fuzzhelm/execution/cost_model.py:243-255 | splitting an interval splits its moments |
| `Funding.DueExactlyWhenNextPassed` | src/fuzzhelm/execution/cost_model.py:235-255 | the list is non-empty if and only if the next funding time has come |
| `Funding.ComputeFundingTimes` | src/fuzzhelm/execution/cost_model.py:243-255 | the nested loops produce that list |
| `Funding.ComputeNextFunding` | src/fuzzhelm/execution/cost_model.py:235-241 | the loop produces that moment |
| `Broker.FireShrinks` | src/fuzzhelm/execution/paper_broker.py:491-513 | every firing uses up a stop, the take-profit or the liquidation level, so the walk terminates |
| `BrokerTheorems.CrossedStopsDoNotSurvive` | src/fuzzhelm/execution/paper_broker.py:434-513 | every active stop created by the open that the bar strictly crosses, or reaches while alone at its level, is filled or cancelled by its end |
| `TouchedStops.TouchedStopMaySurvive` | src/fuzzhelm/execution/paper_broker.py:473-489 | why alone: on a concrete book at rest and bar, of two stops exactly at the low one survives `on_bar` |
| `BrokerTheorems.BarFillsHonest` | src/fuzzhelm/execution/paper_broker.py:336-381 | every fill of a bar has its order's side and quantity (clipped if reduce-only), the quoted price and the fee on its notional; its reference price is the open for a market order, and for a stop, take-profit or liquidation its own level, or the open if the bar opens beyond it; only a stop that opposed the position, a take-profit or a liquidation has a reason |
| `BarOrders.MarketOrdersAtOpen` | src/fuzzhelm/execution/paper_broker.py:336-347 | a market order created by the open ends in the bar: filled at the open, in full unless reduce-only, or cancelled because there was nothing to reduce; one created later stays queued unchanged |
| `BarOrders.CrossedLevelCloses` | src/fuzzhelm/execution/paper_broker.py:434-513 | a position held into a bar that crosses its liquidation level or take-profit is closed in it |
| `BarOrders.ProtectionLasts` | src/fuzzhelm/execution/paper_broker.py:383-399 | a protective stop is live after a bar if and only if it was not filled and the position was held throughout, and cancelled if and only if the position was closed otherwise |
| `BarOrders.LevelsLast` | src/fuzzhelm/execution/paper_broker.py:383-399 | take-profit and liquidation level stay exactly as long as the position is held throughout |
| `BarOrders.NoOrphans` | src/fuzzhelm/execution/paper_broker.py:401-422 | after a bar every live reduce-only stop can reduce the position or one that a live entry may open |
| `BarOrders.EntryStopsStay` | src/fuzzhelm/execution/paper_broker.py:383-422 | a bar never cancels an entry stop: it fills it or leaves it as it is |
| `BarPaths.StopBeforeProfit` | src/fuzzhelm/execution/paper_broker.py:463-471 | the adverse extreme comes first: when a bar reaches both the stop that covers a position and its take-profit, nothing is executed at the take-profit, whatever other orders there are |
| `BarPaths.LiquidationFirst` | src/fuzzhelm/execution/paper_broker.py:453-461 | if the bar opens beyond the liquidation level, the first fill closes the whole position at the open |
| `BarPaths.NearerExtremeFirst` | src/fuzzhelm/execution/paper_broker.py:463-471 | a flat book meets the nearer extreme first: of a crossed buy stop and a crossed sell stop the one on that side is filled, and before the other |
| `BarPaths.NoLiqSkipped` | src/fuzzhelm/execution/paper_broker.py:463-489 | the walk goes all the way to the close: no position, not even one opened in the bar, is left beyond its liquidation level at the close |
| `BrokerTheorems.BarOnlyReduces` | src/fuzzhelm/execution/paper_broker.py:349-381 | if all live orders are reduce-only, no fill of a bar enlarges the position or turns it round |
| `BrokerProofs.OnBarOk` | src/fuzzhelm/execution/paper_broker.py:198-217 | a bar keeps the order book consistent: NEW orders are the queue members, one fill per FILLED order, the position is the sum of fills |
| `BrokerRuns.SubmitOk` | src/fuzzhelm/execution/paper_broker.py:160-196 | a submission creates at most one order; a known id changes nothing; nothing executes |
| `BrokerRuns.SubmitMeans` | src/fuzzhelm/execution/paper_broker.py:160-196 | a fresh order is accepted with the greatest multiple of the step and the nearest multiple of the tick, or refused for the first reason that applies, exactly |
| `BrokerRuns.FloorQtyIs` | src/fuzzhelm/core/money.py:48-49 | the quantity is the greatest multiple of the step that is at most the one asked for |
| `BrokerRuns.QuantizePriceIs` | src/fuzzhelm/core/money.py:44-45 | the level is the nearest multiple of the tick, the even one of two |
| `BrokerRuns.CancelAllMeans` | src/fuzzhelm/execution/paper_broker.py:219-230 | cancelling everything ends exactly the live orders and the take-profit, and leaves the liquidation level, the position and the fills |
| `BrokerRuns.CancelOk` | src/fuzzhelm/execution/paper_broker.py:232-247 | a cancel succeeds if and only if the order is NEW, ends exactly that order and moves nothing else |
| `BrokerRuns.EachOrderAtMostOnce` | src/fuzzhelm/execution/paper_broker.py:160-247 | over any calls: at most one fill per id, a fill for exactly the FILLED orders, each NEW order in exactly one queue, position equals the signed sum of fills |
| `BrokerRuns.FinalForever` | src/fuzzhelm/execution/paper_broker.py:336-422 | requests and final orders never change again however the run goes on, and fills are only added |
| `FundingRuns.FundingChargedOnce` | src/fuzzhelm/execution/paper_broker.py:198-217 | a bar charges exactly the funding moments since the previous bar if a position was held into it and funding is on, each once on that position, otherwise nothing |
| `FundingRuns.FundingAmounts` | src/fuzzhelm/execution/paper_broker.py:328-334 | each charge is position times mark times rate, so a long pays a positive rate and a short receives it; the mark is the open of a bar that starts at the moment itself, otherwise the last close |
| `FundingRuns.RunChargesOk` | src/fuzzhelm/execution/paper_broker.py:328-334 | in any run the charge times strictly increase, are funding moments, and lie behind the last bar |
| `FundingRuns.MomentCharged` | src/fuzzhelm/execution/paper_broker.py:206-208 | in any run a funding moment between two consecutive bars is charged, then exactly once and on the position held, if and only if a position was held into the later bar and funding is on |
| `FundingRuns.SpacingIrrelevant` | src/fuzzhelm/execution/paper_broker.py:206-208 | in any run, however its bars are spaced, while a position is held exactly the moments between the first and the last bar are charged, in order |
| `PaperBroker.Venue.OnBar` | src/fuzzhelm/execution/paper_broker.py:198-217 | the mutable broker follows the function for one bar |
| `PaperBroker.Venue.Submit` | src/fuzzhelm/execution/paper_broker.py:160-196 | the mutable broker follows the function for a submission, with every rejection |
| `PaperBroker.Venue.Cancel` | src/fuzzhelm/execution/paper_broker.py:232-247 | the mutable cancel follows the function |
| `PaperBroker.Venue.CancelAll` | src/fuzzhelm/execution/paper_broker.py:219-230 | the mutable cancel-all follows the function |
| `PaperBroker.Venue.Execute` | src/fuzzhelm/execution/paper_broker.py:356-381 | the mutable execution follows the function |
| `PaperBroker.Venue.OnPositionClosed` | src/fuzzhelm/execution/paper_broker.py:383-399 | the OCO loop follows the function |
| `PaperBroker.Venue.ExpireOrphans` | src/fuzzhelm/execution/paper_broker.py:401-422 | the orphan loop follows the function |
| `PaperBroker.Venue.WalkTriggers` | src/fuzzhelm/execution/paper_broker.py:448-471 | the trigger walk follows the function |
| `PaperBroker.Venue.WalkSegment` | src/fuzzhelm/execution/paper_broker.py:473-489 | the segment loop follows the function and terminates |
| `PaperBroker.Venue.FireBehindOpen` | src/fuzzhelm/execution/paper_broker.py:454-461 | the loop at the open follows the function and terminates |
| `PaperBroker.Venue.Fire` | src/fuzzhelm/execution/paper_broker.py:491-513 | firing a trigger follows the function |
| `PaperBroker.Venue.Charge` | src/fuzzhelm/execution/paper_broker.py:328-334 | the funding loop follows the function |
| `Routing.RouteSafe` | src/fuzzhelm/execution/router.py:44-63 | whatever is lost, a submission adds at most the one order of its id, touches no existing order and executes nothing |
| `Routing.RetryIsIdempotent` | src/fuzzhelm/execution/router.py:44-63 | a retry at any later point of any run returns the answer remembered at first without reaching the venue and changes nothing; the same id with other contents is refused |
| `Routing.RejectedYetLive` | src/fuzzhelm/execution/router.py:44-63 | for every transport outcome and state, exactly when a submission is answered REJECTED with a live order under its id |
| `Routing.LostAnswerThenRefused` | src/fuzzhelm/execution/router.py:53-80 | that case exists: an answer lost and not recovered, then a refused retry |
| `Routing.AnswersAreKept` | src/fuzzhelm/execution/router.py:44-63 | along any run remembered answers never change and final orders stay final |
| `Routing.HistoryTells` | src/fuzzhelm/execution/router.py:44-80 | in any run the router has an answer for an id if and only if a submission of it was delivered or found, and the venue has an order the router does not know if and only if an answer was lost for good and none ever came |
| `Routing.DuplicateMeansLost` | src/fuzzhelm/execution/router.py:53-63 | the first answer for an id, if delivered, is a duplicate rejection if and only if an answer for it was lost for good before |
| `Routing.NoDoubleExecution` | src/fuzzhelm/execution/router.py:44-80 | under any interleaving of submissions, retries, losses, reconciliations, cancels and bars there is at most one fill per id and the position is the sum of fills |
| `OrderRouter.Router.Submit` | src/fuzzhelm/execution/router.py:44-80 | the mutable router follows the function |
| `AccountingProofs.FillKeepsPosition` | src/fuzzhelm/execution/portfolio.py:133-192 | an execution keeps a position consistent through increases, partial closes, closes and flips, moves cost and realised PnL by exactly the cash that flowed and counts the fee once |
| `AccountingProofs.IncreaseAtCost` | src/fuzzhelm/execution/portfolio.py:149-163 | an increase realises nothing and adds its notional to the cost |
| `AccountingProofs.ReductionAtAverage` | src/fuzzhelm/execution/portfolio.py:164-176 | a reduction realises the distance of its price from the average cost on what it closes, and what is left keeps its average cost |
| `AccountingProofs.FlipAtPrice` | src/fuzzhelm/execution/portfolio.py:164-192 | a flip realises the whole difference, opens the rest at its own price, and splits the fee in the proportion closed to opened |
| `AccountingProofs.TradeFollowed` | src/fuzzhelm/execution/portfolio.py:149-192 | an open trade keeps the time of its opening fill, its worst result and its peak size through any fill |
| `AccountingProofs.TradeRecorded` | src/fuzzhelm/execution/portfolio.py:302-318 | a fill closes a trade if and only if it covers an opposite position, and the record has its side, peak, times, notionals, funding and worst result |
| `AccountingProofs.FillMovesEquity` | src/fuzzhelm/execution/portfolio.py:133-192 | a fill costs its fee and moves equity otherwise only by the distance of its price from the mark |
| `AccountingProofs.FundingCosts` | src/fuzzhelm/execution/portfolio.py:194-203 | a funding charge is paid out of equity |
| `AccountingProofs.MarkMovesEquity` | src/fuzzhelm/execution/portfolio.py:205-217 | a mark moves equity by what the position gains or loses on the way from the old mark |
| `AccountingProofs.MarkRemembersWorst` | src/fuzzhelm/execution/portfolio.py:205-217 | an open position remembers its worst unrealised result |
| `AccountingProofs.IdentityAlwaysHolds` | src/fuzzhelm/execution/portfolio.py:236-253 | after any fills, fundings and marks on any instruments the margin form and the cash form of equity are equal |
| `AccountingProofs.ClosedTradesAreTrue` | src/fuzzhelm/execution/portfolio.py:288-318 | every closed trade's gross PnL is side times (exit notional minus entry notional) on equal quantities |
| `AccountingProofs.FlatMoneyIsConserved` | src/fuzzhelm/execution/portfolio.py:153-203 | when all positions are flat, equity is the deposit plus the closed trades' PnL if and only if the funding booked on flat positions sums to zero |
| `AccountingProofs.StrayFundingIsInNoTrade` | src/fuzzhelm/execution/portfolio.py:194-203 | a single funding charge on a flat account is in equity but in no closed trade |
| `Portfolio.Book.ApplyFill` | src/fuzzhelm/execution/portfolio.py:133-192 | the mutable account follows the function for a fill |
| `Portfolio.Book.ApplyFunding` | src/fuzzhelm/execution/portfolio.py:194-203 | the mutable account follows the function for a funding charge |
| `Portfolio.Book.Mark` | src/fuzzhelm/execution/portfolio.py:205-217 | the mutable account follows the function for a mark price |
| `Portfolio.Book.ComputeEquity` | src/fuzzhelm/execution/portfolio.py:225-241 | the summing loop gives the margin form |
| `Portfolio.Book.ComputeCashForm` | src/fuzzhelm/execution/portfolio.py:242-249 | the summing loop gives the cash form |
| `EngineProofs.LatchClears` | src/fuzzhelm/backtest/engine.py:961-976 | after the pending increases are cancelled every live order is reduce-only; only cancellations happened |
| `EngineProofs.LatchCancelsExactly` | src/fuzzhelm/backtest/engine.py:961-976 | exactly the entries not executed and the stops meant for them are cancelled, and with any entry the take-profit; the stops of the position held stay |
| `EngineProofs.StepOk` | src/fuzzhelm/backtest/engine.py:697-738 | a step exists exactly for a bar that follows the previous one, and keeps the loop's invariant |
| `EngineProofs.LatchedNeverGrows` | src/fuzzhelm/backtest/engine.py:712-738 | in any run, from the first to the last fill of a step that begins with the latch set, no fill enlarges the position or turns it round |
| `EngineProofs.BooksAgree` | src/fuzzhelm/backtest/engine.py:946-959 | in any run the watch list is the list of live orders, portfolio quantity, broker position and sum of fills agree, and the two forms of equity are equal |
| `EngineProofs.FlatRunIsItsTrades` | src/fuzzhelm/backtest/engine.py:719-738 | in any run that ends flat, equity is the deposit plus the closed trades' PnL |
| `EngineMoney.MoneyMatchesBroker` | src/fuzzhelm/backtest/engine.py:697-738 | in any run cash is the deposit less the cost of all fills and all funding, fees and turnover are those of the fills, and the mark is the last close |
| `EngineMoney.LiqFollows` | src/fuzzhelm/backtest/engine.py:729-730 | after a step with a fill or a charge that leaves a position open, its liquidation level is the new one |
| `EngineProofs.SyncOk` | src/fuzzhelm/backtest/engine.py:911-928 | after the sync exactly the live orders stay under watch |
| `EngineProofs.SubmitTargetOk` | src/fuzzhelm/backtest/engine.py:1114-1144 | turning a target into orders keeps the invariant and moves no money |
| `Targets.SubmitTargetMeans` | src/fuzzhelm/backtest/engine.py:1114-1144 | a target other than the position becomes one market order toward it, less than a step short of it and never beyond, reduce-only exactly for a pure reduction; a new side also gets a reduce-only stop against it for its whole size at the quantised level, and its take-profit; nothing else changes |
| `Targets.NextBarReaches` | src/fuzzhelm/backtest/engine.py:1114-1144 | if nothing else was queued and the order is accepted, the next bar that reaches no level leaves the position within a step of the target, and exactly there if the way is a whole number of steps |
| `EngineProofs.SendOk` | src/fuzzhelm/backtest/engine.py:1146-1163 | an order is on record and watched if and only if the broker keeps it alive |
| `TradingLoop.Trader.Step` | src/fuzzhelm/backtest/engine.py:697-738 | the mutable loop follows the function for one bar |
| `TradingLoop.Trader.CancelPendingIncreases` | src/fuzzhelm/backtest/engine.py:961-976 | the cancel loops follow the function |
| `TradingLoop.Trader.ApplyFill` | src/fuzzhelm/backtest/engine.py:830-869 | booking a fill follows the function |
| `TradingLoop.Trader.SyncOpenOrders` | src/fuzzhelm/backtest/engine.py:911-928 | the sync loop follows the function |
| `TradingLoop.Trader.SubmitTarget` | src/fuzzhelm/backtest/engine.py:1114-1163 | submitting a target follows the function |
| `Statistics.WelfordGrows` | src/fuzzhelm/features/indicators.py:252-257 | the growing update equals the batch mean and sum of squared deviations |
| `Statistics.WelfordSlides` | src/fuzzhelm/features/indicators.py:258-264 | the sliding update equals the batch mean and sum of squared deviations |
| `Statistics.OlsSlides` | src/fuzzhelm/features/indicators.py:506-512 | the sliding update of S_xy equals the batch definition |
| `Statistics.SxxIsSpread` | src/fuzzhelm/features/indicators.py:451-451 | the constant n(n^2-1)/12 is the sum of squared deviations of 0, ..., n-1 |
| `Statistics.SlopeIsLeastSquares` | src/fuzzhelm/features/indicators.py:472-473 | no line has a smaller squared error than the one with slope S_xy/S_xx through the means |
| `Statistics.CauchySchwarz` | src/fuzzhelm/features/indicators.py:491-492 | S_xy squared is at most S_xx times S_yy |
| `Statistics.RSquaredIsShare` | src/fuzzhelm/features/indicators.py:491-492 | R^2 lies in [0, 1] without any clamp and is one minus residual over total error |
| `RollingStats.Welford.Update` | src/fuzzhelm/features/indicators.py:249-273 | the ring buffer holds exactly the last n values and the running sums equal the batch ones |
| `RollingStats.Welford.Resync` | src/fuzzhelm/features/indicators.py:244-247 | resynchronisation changes nothing |
| `RollingStats.SlidingMoments` | src/fuzzhelm/features/indicators.py:229-273 | for every stream, window size and resync period the results are the batch mean and variance of the last n values |
| `RollingStats.Ols.Update` | src/fuzzhelm/features/indicators.py:494-519 | the regression window holds the last n values and the result is their least-squares slope |
| `RollingStats.Ols.R2` | src/fuzzhelm/features/indicators.py:484-492 | zero for a window at noise level, otherwise R^2, in [0, 1] |
| `RollingStats.SlidingSlopes` | src/fuzzhelm/features/indicators.py:458-519 | for every stream, window size and resync period the results are the least-squares slopes of the last n values |
| `WindowOrder.MonotonicDeque.Update` | src/fuzzhelm/features/indicators.py:299-317 | the head is the extreme of exactly the last n values |
| `WindowOrder.SlidingExtremes` | src/fuzzhelm/features/indicators.py:276-317 | for every stream the results are the window extremes, with at most one removal per value fed |
| `WindowOrder.PercentileRank.Update` | src/fuzzhelm/features/indicators.py:408-422 | the sorted list stays a permutation of the queue and the rank is the share of values at most the new one |
| `WindowOrder.SlidingRanks` | src/fuzzhelm/features/indicators.py:385-422 | for every stream the results are the ranks within the last n values |
| `WindowOrder.RankInRange` | src/fuzzhelm/features/indicators.py:385-392 | every rank lies in [1/n, 1] |
| `Wilder.Atr.Update` | src/fuzzhelm/features/indicators.py:82-97 | the streaming ATR is the batch ATR of all bars so far |
| `Wilder.Rsi.Update` | src/fuzzhelm/features/indicators.py:127-149 | the streaming RSI is the batch RSI of all closes so far |
| `Wilder.StreamAtr` | scripts/make_golden.py:112-126 | for every series and period the stream yields the batch ATR at every bar |
| `Wilder.StreamRsi` | scripts/make_golden.py:89-109 | for every series and period the stream yields the batch RSI at every bar |
| `Wilder.BlendIsNudge` | src/fuzzhelm/features/indicators.py:143-145 | the incremental average is the weighted one |
| `Wilder.IndexForms` | src/fuzzhelm/features/indicators.py:101-105 | 100 G/(G+L) is 100 - 100/(1 + G/L) with its exceptions, and lies in [0, 100] |
| `Wilder.RsiInRange` | src/fuzzhelm/features/indicators.py:101-105 | the RSI of every series longer than the period lies in [0, 100] |
| `Wilder.AtrInRange` | src/fuzzhelm/features/indicators.py:59-64 | the ATR lies between the least and the greatest true range |
| `Rules.ValidateRulebase` | src/fuzzhelm/fuzzy/rules.py:114-174 | accepted if and only if the rules are consistent and, if required, as many as combinations; a refusal names the first offending rule or the count |
| `Rules.CheckRule` | src/fuzzhelm/fuzzy/rules.py:130-156 | no fault if and only if the rule is well-formed on its own |
| `Rules.ExactlyOneRule` | src/fuzzhelm/fuzzy/rules.py:165-174 | in an accepted complete base every combination is answered by exactly one rule and every rule answers exactly one combination |
| `Rules.ExactlyOneMeansCount` | src/fuzzhelm/fuzzy/rules.py:165-174 | conversely, one combination per rule and all combinations answered makes the count right |
| `Mamdani.SomeRuleFires` | src/fuzzhelm/fuzzy/mamdani.py:160-165 | with a complete base and some positive term per input at least one rule fires |
| `Mamdani.AllRules` | src/fuzzhelm/fuzzy/mamdani.py:158-165 | the traced loop yields for each output term the largest strength of its rules, and exactly the rules that fire |
| `Mamdani.GroupedRules` | src/fuzzhelm/fuzzy/mamdani.py:131-139 | the grouped loop that skips zero groups yields the same strengths |
| `Mamdani.StrengthsUnique` | src/fuzzhelm/fuzzy/mamdani.py:131-165 | those strengths are determined |
| `Mamdani.TermsEqualRules` | src/fuzzhelm/fuzzy/mamdani.py:171-171 | at every node aggregation over output terms equals aggregation over all rules |
| `Defuzz.QuadratureWeights` | src/fuzzhelm/fuzzy/defuzz.py:41-57 | the weights of the three schemes, and exactly when a scheme is refused |
| `Defuzz.WeightsIntegrateConstants` | src/fuzzhelm/fuzzy/defuzz.py:41-57 | trapezoid and Simpson weights integrate constants exactly, rectangles count one step more |
| `Defuzz.NodesAreUniform` | src/fuzzhelm/fuzzy/defuzz.py:60-71 | the antisymmetric formula is the uniform grid from lo to hi |
| `Defuzz.EngineMesh` | src/fuzzhelm/fuzzy/mamdani.py:66-70 | for every scheme the engine's mesh has positive weights, nodes within the range, and is symmetric |
| `Defuzz.CentroidInside` | src/fuzzhelm/fuzzy/defuzz.py:98-104 | the clipping never acts: an active aggregate has its centroid within [lo, hi]; an empty one gives exactly 0 |
| `Defuzz.SymmetricIsCentred` | src/fuzzhelm/fuzzy/defuzz.py:60-66 | a symmetric activation has its centroid exactly in the middle |
| `Defuzz.InferU` | src/fuzzhelm/fuzzy/mamdani.py:146-153 | the fast path returns the prescribed output |
| `Defuzz.Infer` | src/fuzzhelm/fuzzy/mamdani.py:155-176 | the traced path returns the prescribed output, the rules that fired, and the rule aggregate at every node |
| `Defuzz.FastEqualsTraced` | src/fuzzhelm/fuzzy/mamdani.py:146-176 | both paths return the one prescribed number |
| `Defuzz.PrescribedUnique` | src/fuzzhelm/fuzzy/mamdani.py:146-176 | the prescribed output is determined, so `infer_u` equals `infer(...).u_raw` |
| `Defuzz.OutputInRange` | src/fuzzhelm/fuzzy/mamdani.py:150-175 | the output is 0 if nothing fires and otherwise within the output range or 0 |
| `RateLimit.StretchBound` | src/fuzzhelm/ingest/ratelimit.py:99-162 | in any stretch of any run, for any clock, weight admitted is at most capacity plus rate times elapsed bucket time plus 1e-9 per request |
| `RateLimit.WindowBound` | src/fuzzhelm/ingest/ratelimit.py:111-136 | whatever happens while the clock readings stay in a window, for any clock and any state before: at most capacity plus rate times window plus 1e-9 per request |
| `RateLimit.BudgetHoldsInRuns` | src/fuzzhelm/ingest/ratelimit.py:165-169 | the exchange bucket admits at most L in any 60 seconds of clock readings of any run, for any clock: up to 1e-9 per request, and exactly if L is below 999999999 |
| `RateLimit.WaitIsEnough` | src/fuzzhelm/ingest/ratelimit.py:123-127 | after the computed wait and any lateness an admissible request is granted |
| `RateLimit.DeniedOnlyWhenSpent` | src/fuzzhelm/ingest/ratelimit.py:129-136 | nothing is wasted: after a full bucket a request is denied only if it would take the total beyond the capacity |
| `RateLimit.AfterReport` | src/fuzzhelm/ingest/ratelimit.py:153-162 | after a report no more is let through than the exchange has left, after a drain nothing, each plus what time earns |
| `RateLimit.ReportOnlyLowers` | src/fuzzhelm/ingest/ratelimit.py:153-157 | a report never gives tokens |
| `RateLimit.TokenBucket.Try` | src/fuzzhelm/ingest/ratelimit.py:129-136 | the mutable bucket follows the function |
| `RateLimit.TokenBucket.Acquire` | src/fuzzhelm/ingest/ratelimit.py:138-149 | acquiring tries until it is granted and sleeps exactly the computed waits, whatever others (headers, drains, tries outside the lock) and the clock do during any finite number of its sleeps; after those it ends, with one sleep if the clock is not behind the bucket; an inadmissible weight is refused |
| `RateLimit.AcquiringIsARun` | src/fuzzhelm/ingest/ratelimit.py:138-162 | an acquisition with all that happens during its sleeps is a stretch of an ordinary run, so the bounds cover it; it admits its own weight exactly once |
| `RateLimit.TokenBucket.ObserveUsedWeight` | src/fuzzhelm/ingest/ratelimit.py:153-157 | the mutable bucket follows the function |

## Left out

- BarOrders.CrossedLevelCloses: says nothing about a level that the bar only touches with its extreme, where another level at the same price may end the way first.
- Aggregator's bounded memory of released candles: only that it remembers nothing that was not delivered.
- BrokerTheorems.CrossedStopsDoNotSurvive: says nothing about stops that share their level with another one at the bar's extreme, because which of them survives depends on their order, their quantities and the close.
- Health counters, data-quality scores, statistics, lag and journals of the pipeline: bookkeeping beside the protocol.
- Watchdogs, control records, reconnects and frame parsing (`process` up to the event): they only decide which events arrive, and any events may arrive.
- Backfill hook: its answers are a finite list, after which it raises, so every finite part of a real session is covered.
- Event identity: uids and canonical digests are taken to be collision-free.
- Aggregator's `current` candle and its unordered mode.
- Several instruments in one broker: instruments do not interact there; the model has one per broker. The account has any number.
- Fill prices: `quote` is an arbitrary function of the execution number, side, reference price and quantity, so rounding, noise, the running sigma and volume statistics are not modelled.
- Decimal precision and float rounding: all arithmetic is over reals.
- Risk state machine, guard, sizing, hysteresis and decision core: the latch and the approved target are arbitrary inputs of each step.
- Position, equity and decision records of the trading loop, and funding-rate lookup: the rate and the liquidation level are arbitrary inputs of each step.
- Trading loop's submissions go to the broker directly; the router in between adds nothing when no answer is lost.
- Fresh order ids: the id generator is modelled as one that never repeats an id the broker knows.
- Membership functions: degrees are arbitrary numbers with a final 1 for "any"; sorting of the fired rules and the batch inference are left out.
- `exact_centroid` and `convergence_study`: numerical studies.
- Simple moving average, log returns and volatility estimators: they repeat the sliding-window argument or rest on logarithms.
- Constructor argument checks (positive capacity, window sizes): they are preconditions of the constructors.
- Request weights of endpoints and HTTP details.
- Detectors, agreement, digest, journal, replay, API, UI, database and configuration.
