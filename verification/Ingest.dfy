/** The ingest pipeline as a value: deduplication, staleness, gap detection, ordered release and backfill.
    `IngestPipeline.dfy` holds the mutable pipeline that is proved against these functions. */
module Ingest {
  import opened Base
  import opened Events
  import opened GapLedger
  import opened Release
  import Dedup

  datatype PipeConfig = PipeConfig(instrument: string, tf: string, tfNs: int, graceNs: int, maxReorder: int,
                                   retention: nat, dedupMax: Option<nat>, hasBackfill: bool)

  type ValidPipeConfig = c: PipeConfig | c.tfNs > 0 witness PipeConfig("", "", 1, 0, 0, 0, None, false)

  function DetConfig(cfg: ValidPipeConfig): ValidConfig {
    Config(cfg.instrument, cfg.tf, cfg.tfNs, cfg.graceNs, cfg.maxReorder)
  }

  function RelConfig(cfg: ValidPipeConfig): ValidAggConfig {
    AggConfig(cfg.tf, cfg.tfNs, Some(cfg.instrument), cfg.retention)
  }

  /** `candles`, `trades` and `gapLog` are what the sinks received. `origin` is the minute at which the kline
      series of this session begins; no operation reads it. */
  datatype Pipe = Pipe(det: Ledger, agg: Agg, store: Dedup.Store, lastBook: Option<int>, lastMark: Option<int>,
                       toFill: seq<int>, candles: seq<Candle>, trades: seq<Event>, gapLog: seq<GapRecord>,
                       origin: Option<int>)

  const START := Pipe(GapLedger.EMPTY, Fresh(None), Dedup.EMPTY, None, None, [], [], [], [], None)

  /** Rejected by the quality checks; a candle of the pipeline's timeframe must open on the grid. */
  predicate Invalid(cfg: ValidPipeConfig, e: Event) {
    !e.ok || (e.payload.Kline? && e.payload.candle.tf == cfg.tf && e.payload.candle.openNs % cfg.tfNs != 0)
  }

  predicate Stale(p: Pipe, e: Event) {
    (e.payload.Book? && p.lastBook.Some? && e.payload.lastUpdateId < p.lastBook.value)
    || (e.payload.MarkPrice? && p.lastMark.Some? && e.tsEvent < p.lastMark.value)
  }

  function Freshen(p: Pipe, e: Event): Pipe {
    if e.payload.Book? then p.(lastBook := Some(e.payload.lastUpdateId))
    else if e.payload.MarkPrice? then p.(lastMark := Some(e.tsEvent))
    else p
  }

  /** Report changed gaps and queue the open ones for filling. */
  function Report(p: Pipe, changed: seq<GapRecord>): Pipe {
    p.(gapLog := p.gapLog + changed, toFill := p.toFill + OpenIds(changed))
  }

  /** A candle whose minute was given up closes no gap: the consumer will not see it. */
  function AdmitKline(p: Pipe, cfg: ValidPipeConfig, c: Candle, ts: int): Pipe {
    var givenUp := c.closed && c.tf == cfg.tf && IsSkipped(p.agg, c.openNs);
    var (det, changed) := if givenUp then OnTime(p.det, DetConfig(cfg), ts) else OnKline(p.det, DetConfig(cfg), c, ts);
    var (agg, out) := Release.Offer(p.agg, RelConfig(cfg), c);
    var origin := if p.det.kLo.None? && det.kLo.Some? then Some(c.openNs) else p.origin;
    Report(p.(det := det, agg := agg, candles := p.candles + out, origin := origin), changed)
  }

  function AdmitTrade(p: Pipe, cfg: ValidPipeConfig, e: Event, isNew: bool): Pipe
    requires e.payload.Trade?
  {
    var (det, changed) := OnTrade(p.det, DetConfig(cfg), e.payload.instrument, e.payload.aggId, e.tsEvent);
    Report(p.(det := det, trades := if isNew then p.trades + [e] else p.trades), changed)
  }

  function AdmitOther(p: Pipe, cfg: ValidPipeConfig, ts: int): Pipe {
    var (det, changed) := OnTime(p.det, DetConfig(cfg), ts);
    Report(p.(det := det), changed)
  }

  /** One event, from the stream or from REST, up to the point where filling may start. */
  function Admit(p: Pipe, cfg: ValidPipeConfig, e: Event): Pipe {
    if Invalid(cfg, e) then p
    else
      var (store, outcome) := Dedup.Offer(p.store, cfg.dedupMax, e);
      var q := p.(store := store);
      if outcome.Duplicate? || Stale(q, e) then q
      else
        var r := Freshen(q, e);
        match e.payload
        case Kline(c) => AdmitKline(r, cfg, c, e.tsEvent)
        case Trade(_, _) => AdmitTrade(r, cfg, e, outcome.New?)
        case _ => AdmitOther(r, cfg, e.tsEvent)
  }

  function AdmitAll(p: Pipe, cfg: ValidPipeConfig, es: seq<Event>): Pipe
    decreases |es|
  {
    if es == [] then p else AdmitAll(Admit(p, cfg, es[0]), cfg, es[1..])
  }

  function SkipKeys(p: Pipe, cfg: ValidPipeConfig, keys: seq<int>): Pipe
    decreases |keys|
  {
    if keys == [] then p
    else
      var (agg, out) := Skip(p.agg, RelConfig(cfg), keys[0], keys[0]);
      SkipKeys(p.(agg := agg, candles := p.candles + out), cfg, keys[1..])
  }

  /** Unblock the release: what is still missing in gap `gid` will not come. */
  function SkipMissing(p: Pipe, cfg: ValidPipeConfig, gid: int): Pipe {
    if gid !in p.det.gaps || gid !in p.det.missing then p.(det := p.det.(fault := true))
    else if !p.det.gaps[gid].stream.Klines? then p
    else SkipKeys(p, cfg, SortedKeys(p.det.missing[gid]))
  }

  function BeginAttempt(p: Pipe, gid: int): Pipe {
    var det := BeginFill(p.det, gid);
    p.(det := det, gapLog := p.gapLog + if gid in det.gaps then [det.gaps[gid]] else [])
  }

  function EndAttempt(p: Pipe, cfg: ValidPipeConfig, gid: int): Pipe {
    var det := Resolve(p.det, gid);
    var q := p.(det := det, gapLog := p.gapLog + if gid in det.gaps then [det.gaps[gid]] else []);
    if gid in det.gaps && det.gaps[gid].status.Filled? then q else SkipMissing(q, cfg, gid)
  }

  /** The gap at the head of the queue needs no request. */
  predicate NoRequest(p: Pipe, cfg: ValidPipeConfig)
    requires p.toFill != []
  {
    !cfg.hasBackfill || (p.toFill[0] in p.det.gaps && p.det.gaps[p.toFill[0]].status.Filled?)
  }

  function PopIdle(p: Pipe, cfg: ValidPipeConfig): Pipe
    requires p.toFill != [] && NoRequest(p, cfg)
  {
    var gid, q := p.toFill[0], p.(toFill := p.toFill[1..]);
    if gid in p.det.gaps && p.det.gaps[gid].status.Filled? then q else SkipMissing(q, cfg, gid)
  }

  /** One attempt: begin, accept what the hook returned, resolve. */
  function Attempt(p: Pipe, cfg: ValidPipeConfig, reply: seq<Event>): Pipe
    requires p.toFill != []
  {
    var gid := p.toFill[0];
    EndAttempt(AdmitAll(BeginAttempt(p.(toFill := p.toFill[1..]), gid), cfg, reply), cfg, gid)
  }

  lemma {:induction false} SkipKeysQueue(p: Pipe, cfg: ValidPipeConfig, keys: seq<int>)
    ensures var q := SkipKeys(p, cfg, keys); q == p.(agg := q.agg, candles := q.candles)
    decreases |keys|
  {
    if keys != [] {
      var (agg, out) := Skip(p.agg, RelConfig(cfg), keys[0], keys[0]);
      SkipKeysQueue(p.(agg := agg, candles := p.candles + out), cfg, keys[1..]);
    }
  }

  lemma SkipMissingQueue(p: Pipe, cfg: ValidPipeConfig, gid: int)
    ensures SkipMissing(p, cfg, gid).toFill == p.toFill
  {
    if gid in p.det.missing {
      SkipKeysQueue(p, cfg, SortedKeys(p.det.missing[gid]));
    }
  }

  /** `replies` is what the backfill hook returns on its next calls; after that it raises (an empty reply).
      The result is the pipeline with an empty queue and the replies not used. */
  function FillLoop(p: Pipe, cfg: ValidPipeConfig, replies: seq<seq<Event>>): (Pipe, seq<seq<Event>>)
    decreases |replies|, |p.toFill|
  {
    if p.toFill == [] then (p, replies)
    else if NoRequest(p, cfg) then
      SkipMissingQueue(p.(toFill := p.toFill[1..]), cfg, p.toFill[0]);
      FillLoop(PopIdle(p, cfg), cfg, replies)
    else if replies == [] then
      var gid := p.toFill[0];
      var q := BeginAttempt(p.(toFill := p.toFill[1..]), gid);
      SkipMissingQueue(q.(det := Resolve(q.det, gid),
                          gapLog := q.gapLog + if gid in Resolve(q.det, gid).gaps then [Resolve(q.det, gid).gaps[gid]]
                            else []),
                       cfg, gid);
      FillLoop(Attempt(p, cfg, []), cfg, [])
    else FillLoop(Attempt(p, cfg, replies[0]), cfg, replies[1..])
  }

  /** What happens to a session: an event arrives or a connection drops (`market` carries the trades). */
  datatype Item = Arrival(e: Event) | Dropped(market: bool)

  function Process(p: Pipe, cfg: ValidPipeConfig, replies: seq<seq<Event>>, item: Item): (Pipe, seq<seq<Event>>) {
    match item
    case Arrival(e) => FillLoop(Admit(p, cfg, e), cfg, replies)
    case Dropped(market) =>
      if market then
        var (det, changed) := Flush(p.det, DetConfig(cfg));
        FillLoop(Report(p.(det := det), changed), cfg, replies)
      else (p, replies)
  }

  function Run(cfg: ValidPipeConfig, replies: seq<seq<Event>>, items: seq<Item>): (Pipe, seq<seq<Event>>) {
    if items == [] then (START, replies)
    else
      var (p, rest) := Run(cfg, replies, items[..|items| - 1]);
      Process(p, cfg, rest, items[|items| - 1])
  }

  function Finish(p: Pipe, cfg: ValidPipeConfig, replies: seq<seq<Event>>): Pipe {
    var (det, changed) := Flush(p.det, DetConfig(cfg));
    var (q, _) := FillLoop(Report(p.(det := det), changed), cfg, replies);
    var (agg, out) := FlushAll(q.agg, RelConfig(cfg));
    q.(agg := agg, candles := q.candles + out)
  }
}
