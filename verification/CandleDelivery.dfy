/** What arrives is delivered: from the first candle of the series on, every closed candle of the stream reaches the
    consumer unless its minute was given up before, and the consumer receives nothing that did not arrive. */
module CandleDelivery {
  import opened Base
  import opened Events
  import opened GapLedger
  import opened LedgerProofs
  import opened Release
  import opened ReleaseProofs
  import opened Ingest
  import opened IngestProofs
  import Dedup

  /** The natural key behind the uid hash of a candle: instrument, timeframe and open time. */
  type CandleKey = int -> Option<(string, string, int)>

  ghost predicate Keyed(key: CandleKey, e: Event) {
    key(e.uid) == if e.payload.Kline? then Some((e.payload.candle.instrument, e.payload.candle.tf,
      e.payload.candle.openNs)) else None
  }

  /** A candle of the pipeline's own series, closed or not. */
  predicate Own(cfg: ValidPipeConfig, e: Event) {
    e.payload.Kline? && e.payload.candle.tf == cfg.tf && e.payload.candle.instrument == cfg.instrument
  }

  predicate OwnClosed(cfg: ValidPipeConfig, e: Event) {
    Own(cfg, e) && e.payload.candle.closed
  }

  /** The minutes delivered or held. */
  ghost function There(a: Agg): set<int> {
    set c | c in Content(a, []) :: c.openNs
  }

  /** Minute `m` lies before the series, is there, or was given up. */
  ghost predicate Accounted(p: Pipe, m: int) {
    p.origin.Some? && (m < p.origin.value || m in There(p.agg) || m in p.agg.skipped)
  }

  /** Nothing that is there is lost and nothing given up is taken back. */
  ghost predicate Grows(p: Pipe, q: Pipe) {
    && (p.origin.Some? ==> q.origin == p.origin)
    && Content(p.agg, []) <= Content(q.agg, []) && p.agg.skipped <= q.agg.skipped
  }

  lemma GrowsKeeps(p: Pipe, q: Pipe, m: int)
    requires Grows(p, q)
    ensures Accounted(p, m) ==> Accounted(q, m)
  {
  }

  lemma GrowsAll(p: Pipe, q: Pipe)
    requires Grows(p, q)
    ensures forall m :: Accounted(p, m) ==> Accounted(q, m)
  {
    forall m ensures Accounted(p, m) ==> Accounted(q, m) {
      GrowsKeeps(p, q, m);
    }
  }

  /** Every candle of the series in the store is accounted for. */
  ghost predicate StoreTaken(p: Pipe, cfg: ValidPipeConfig, key: CandleKey) {
    forall u | u in p.store.events ::
      var e := p.store.events[u];
      e.uid == u && Keyed(key, e) && (Own(cfg, e) ==> p.origin.Some?)
        && (OwnClosed(cfg, e) ==> Accounted(p, e.payload.candle.openNs))
  }

  /** Everything delivered or held is among the events `from`. */
  ghost predicate Genuine(p: Pipe, from: set<Event>) {
    && (forall t | t in p.trades :: t in from)
    && forall c | c in Content(p.agg, []) :: c.closed && exists e :: e in from && e.payload == Kline(c)
  }

  ghost predicate State(p: Pipe, cfg: ValidPipeConfig, key: CandleKey, from: set<Event>) {
    StoreTaken(p, cfg, key) && Genuine(p, from)
  }

  ghost predicate AllFrom(key: CandleKey, from: set<Event>, es: seq<Event>) {
    forall e | e in es :: Keyed(key, e) && e in from
  }

  // ---------------------------------------------------------------- one event

  lemma SameContent(p: Pipe, q: Pipe, cfg: ValidPipeConfig, key: CandleKey, from: set<Event>)
    requires State(p, cfg, key, from) && Grows(p, q) && Content(q.agg, []) == Content(p.agg, [])
    requires q.store == p.store && q.trades == p.trades
    ensures State(q, cfg, key, from)
  {
    GrowsAll(p, q);
    hide Content, Accounted;
  }

  /** A candle of the series takes up itself or nothing. */
  lemma OfferTakes(a: Agg, cfg: ValidPipeConfig, origin: Option<int>, c: Candle)
    requires ReleaseOk(a, cfg.tfNs, origin)
    requires c.tf == cfg.tf && c.instrument == cfg.instrument
             && (origin.Some? ==> OnGrid(origin.value, cfg.tfNs, c.openNs))
    ensures var b := Release.Offer(a, RelConfig(cfg), c).0;
            && Content(a, []) <= Content(b, []) <= Content(a, []) + (if c.closed then {c} else {})
                 && b.skipped == a.skipped
  {
    var f := if origin.Some? then origin.value else c.openNs;
    assert OnGrid(c.openNs, cfg.tfNs, c.openNs);
    assert a == Fresh(None) ==> a.log + [] == [];
    hide Content;
    OfferKeeps(a, RelConfig(cfg), f, c);
  }

  lemma ThereIsMinutes(p: Pipe, cfg: ValidPipeConfig, cur: Option<int>, h: History)
    requires InvWith(p, cfg, cur, h)
    ensures There(p.agg) == Minutes(p.agg)
  {
    var f := if p.origin.Some? then p.origin.value else 0;
    ReleaseOrdered(p.agg, cfg.tfNs, p.origin, f);
    HeldKeys(p.agg, cfg.tfNs, f);
    MinutesOfContent(p.agg);
  }

  lemma OwnTaken(p: Pipe, cfg: ValidPipeConfig, cur: Option<int>, h: History, c: Candle, ts: int)
    requires InvWith(p, cfg, cur, h) && c.tf == cfg.tf && c.instrument == cfg.instrument && c.openNs % cfg.tfNs == 0
    requires !(c.closed && IsSkipped(p.agg, c.openNs))
    ensures var q := AdmitKline(p, cfg, c, ts);
            && Grows(p, q) && Content(q.agg, []) <= Content(p.agg, []) + (if c.closed then {c} else {})
            && q.agg.skipped == p.agg.skipped
            && q.origin.Some? && (p.origin.None? ==> q.origin == Some(c.openNs))
                 && (c.closed ==> Accounted(q, c.openNs))
  {
    var q, h' := AdmitKline(p, cfg, c, ts), SeeKline(h, c);
    OwnCandle(p, cfg, cur, h, c, ts);
    if p.origin.Some? { AlignedOnGrid(p.origin.value, c.openNs, cfg.tfNs); }
    OfferTakes(p.agg, cfg, p.origin, c);
    ThereIsMinutes(q, cfg, cur, h');
    hide AdmitKline, Content, Minutes, There;
    if c.closed { AlignedOnGrid(q.origin.value, c.openNs, cfg.tfNs); }
    hide Inv, QueueOk, OnGrid;
  }

  /** What a candle does to the release: one of the series ends up accounted for. */
  lemma KlineTaken(p: Pipe, cfg: ValidPipeConfig, cur: Option<int>, h: History, c: Candle, ts: int)
    requires InvWith(p, cfg, cur, h) && (c.tf == cfg.tf ==> c.openNs % cfg.tfNs == 0)
    ensures var q := AdmitKline(p, cfg, c, ts);
            && Grows(p, q) && Content(q.agg, []) <= Content(p.agg, []) + (if c.closed then {c} else {})
            && q.agg.skipped == p.agg.skipped
            && (c.tf == cfg.tf && c.instrument == cfg.instrument ==>
                  q.origin.Some? && (p.origin.None? ==> q.origin == Some(c.openNs))
                    && (c.closed ==> Accounted(q, c.openNs)))
  {
    Unpack(p, cfg, cur, h);
    hide InvWith, Content, OnTime;
    if c.closed && c.tf == cfg.tf && IsSkipped(p.agg, c.openNs) {
      GivenUpIgnored(p, cfg, h, c);
      KlineFirst(p.det, cfg.tfNs, h.first, h.got);
    } else if c.tf == cfg.tf && c.instrument == cfg.instrument {
      OwnTaken(p, cfg, cur, h, c, ts);
    }
  }

  /** A duplicate of a closed candle: the version in the store is closed too, so the minute was dealt with. */
  lemma DuplicateTaken(p: Pipe, cfg: ValidPipeConfig, key: CandleKey, e: Event)
    requires StoreTaken(p, cfg, key) && Keyed(key, e) && Dedup.Offer(p.store, cfg.dedupMax, e).1.Duplicate?
    ensures Dedup.Offer(p.store, cfg.dedupMax, e).0 == p.store
    ensures (Own(cfg, e) ==> p.origin.Some?) && (OwnClosed(cfg, e) ==> Accounted(p, e.payload.candle.openNs))
  {
    var x := p.store.events[e.uid];
    assert Keyed(key, x) && !Dedup.Outranks(e, x);
    hide Accounted;
  }

  lemma StoreStep(p: Pipe, q: Pipe, cfg: ValidPipeConfig, key: CandleKey, e: Event)
    requires StoreTaken(p, cfg, key) && Keyed(key, e) && Grows(p, q)
             && q.store == Dedup.Offer(p.store, cfg.dedupMax, e).0
    requires (Own(cfg, e) ==> q.origin.Some?) && (OwnClosed(cfg, e) ==> Accounted(q, e.payload.candle.openNs))
    ensures StoreTaken(q, cfg, key)
  {
    GrowsAll(p, q);
    hide Accounted, Dedup.Outranks;
  }

  lemma GenuineStep(p: Pipe, q: Pipe, from: set<Event>, e: Event)
    requires Genuine(p, from) && e in from
    requires q.trades == p.trades || q.trades == p.trades + [e]
    requires Content(q.agg, []) <= Content(p.agg, []) + if Dedup.IsClosedCandle(e) then {e.payload.candle} else {}
    ensures Genuine(q, from)
  {
    hide Content;
    forall c | c in Content(q.agg, []) ensures c.closed && exists x :: x in from && x.payload == Kline(c) {
      if c !in Content(p.agg, []) { assert e in from && e.payload == Kline(c); }
    }
  }

  /** What one event does once it is known to be new or better. */
  function Dispatch(p: Pipe, cfg: ValidPipeConfig, e: Event, isNew: bool): Pipe {
    match e.payload
    case Kline(c) => AdmitKline(p, cfg, c, e.tsEvent)
    case Trade(_, _) => AdmitTrade(p, cfg, e, isNew)
    case _ => AdmitOther(p, cfg, e.tsEvent)
  }

  lemma KlineFrame(p: Pipe, cfg: ValidPipeConfig, c: Candle, ts: int)
    ensures var q := AdmitKline(p, cfg, c, ts); q.trades == p.trades && q.store == p.store
  {
    hide OnKline, OnTime, Release.Offer, IsSkipped;
  }

  lemma DispatchMoves(p: Pipe, cfg: ValidPipeConfig, cur: Option<int>, h: History, e: Event, isNew: bool)
    requires InvWith(p, cfg, cur, h) && !Invalid(cfg, e)
    ensures Moves(p, Dispatch(p, cfg, e, isNew), cfg, e) && Dispatch(p, cfg, e, isNew).store == p.store
  {
    hide InvWith, Content, Accounted, AdmitKline, OnTime, OnTrade;
    if e.payload.Kline? {
      KlineTaken(p, cfg, cur, h, e.payload.candle, e.tsEvent);
      KlineFrame(p, cfg, e.payload.candle, e.tsEvent);
    }
  }

  /** How one valid event moves everything but the store. */
  ghost predicate Moves(p: Pipe, q: Pipe, cfg: ValidPipeConfig, e: Event) {
    && Grows(p, q) && q.agg.skipped == p.agg.skipped && (q.trades == p.trades || q.trades == p.trades + [e])
    && Content(q.agg, []) <= Content(p.agg, []) + (if Dedup.IsClosedCandle(e) then {e.payload.candle} else {})
    && (Own(cfg, e) ==> q.origin.Some? && (p.origin.None? ==> q.origin == Some(e.payload.candle.openNs)))
    && (OwnClosed(cfg, e) ==> Accounted(q, e.payload.candle.openNs))
  }

  lemma AdmitIsDispatch(p: Pipe, cfg: ValidPipeConfig, e: Event)
    requires !Invalid(cfg, e)
    ensures var (store, outcome) := Dedup.Offer(p.store, cfg.dedupMax, e);
            var q := p.(store := store);
            Admit(p, cfg, e) == if outcome.Duplicate? || Stale(q, e) then q
              else Dispatch(Freshen(q, e), cfg, e, outcome.New?)
  {
    hide Dedup.Offer, AdmitKline, AdmitTrade, AdmitOther, Stale, Freshen;
  }

  lemma AdmitMoves(p: Pipe, cfg: ValidPipeConfig, cur: Option<int>, e: Event)
    requires PipeInv(p, cfg, cur) && !Invalid(cfg, e) && !Dedup.Offer(p.store, cfg.dedupMax, e).1.Duplicate?
    ensures Moves(p, Admit(p, cfg, e), cfg, e) && Admit(p, cfg, e).store == Dedup.Offer(p.store, cfg.dedupMax, e).0
  {
    var h :| InvWith(p, cfg, cur, h);
    var q := p.(store := Dedup.Offer(p.store, cfg.dedupMax, e).0);
    var r := Freshen(q, e);
    SideFields(p, r, cfg, cur, h);
    AdmitIsDispatch(p, cfg, e);
    hide Admit, InvWith, Content, Dedup.Offer, Dispatch;
    DispatchMoves(r, cfg, cur, h, e, Dedup.Offer(p.store, cfg.dedupMax, e).1.New?);
  }

  /** Event `e` came when the pipeline was as `before`, and it is `p` now: a valid candle of the series began the series
      or found it begun; if it was closed, its minute lies before the series, is there, or had been given up before it
      came. */
  ghost predicate Handled(before: Pipe, p: Pipe, cfg: ValidPipeConfig, e: Event) {
    !Invalid(cfg, e) && Own(cfg, e) ==>
      var m := e.payload.candle.openNs;
      && p.origin.Some? && (before.origin.None? ==> p.origin == Some(m))
      && (e.payload.candle.closed ==> m < p.origin.value || m in There(p.agg) || m in before.agg.skipped)
  }

  lemma StaysHandled(before: Pipe, p: Pipe, q: Pipe, cfg: ValidPipeConfig, e: Event)
    requires Handled(before, p, cfg, e) && Grows(p, q)
    ensures Handled(before, q, cfg, e)
  {
  }

  /** One event, from the stream or from REST. */
  lemma AdmitTakes(p: Pipe, cfg: ValidPipeConfig, cur: Option<int>, key: CandleKey, from: set<Event>, e: Event)
    requires PipeInv(p, cfg, cur) && State(p, cfg, key, from) && Keyed(key, e) && e in from
    ensures var q := Admit(p, cfg, e); State(q, cfg, key, from) && Grows(p, q) && Handled(p, q, cfg, e)
  {
    if !Invalid(cfg, e) {
      hide PipeInv, Content, Dedup.Offer, There;
      if Dedup.Offer(p.store, cfg.dedupMax, e).1.Duplicate? {
        DuplicateTaken(p, cfg, key, e);
      } else {
        AdmitMoves(p, cfg, cur, e);
        hide Admit, Genuine, StoreTaken;
        StoreStep(p, Admit(p, cfg, e), cfg, key, e);
        GenuineStep(p, Admit(p, cfg, e), from, e);
      }
    }
  }

  lemma {:induction false} AdmitAllTakes(p: Pipe, cfg: ValidPipeConfig, cur: Option<int>, key: CandleKey,
      from: set<Event>, es: seq<Event>)
    requires PipeInv(p, cfg, cur) && State(p, cfg, key, from) && AllFrom(key, from, es)
    ensures var q := AdmitAll(p, cfg, es); PipeInv(q, cfg, cur) && State(q, cfg, key, from) && Grows(p, q)
    decreases |es|
  {
    hide PipeInv, State, Content, Admit;
    if es != [] {
      var e := es[0];
      assert e in es;
      AdmitKeeps(p, cfg, cur, e);
      AdmitTakes(p, cfg, cur, key, from, e);
      AdmitAllTakes(Admit(p, cfg, e), cfg, cur, key, from, es[1..]);
    }
  }

  // ---------------------------------------------------------------- filling

  lemma PopIdleTakes(p: Pipe, cfg: ValidPipeConfig, key: CandleKey, from: set<Event>)
    requires PipeInv(p, cfg, None) && State(p, cfg, key, from) && p.toFill != [] && NoRequest(p, cfg)
    ensures var q := PopIdle(p, cfg); State(q, cfg, key, from) && Grows(p, q)
  {
    var h :| InvWith(p, cfg, None, h);
    TakeHead(p, cfg, h);
    var gid, q := p.toFill[0], p.(toFill := p.toFill[1..]);
    hide InvWith, InvBut, State, Content, SkipMissing, Accounted;
    if !q.det.gaps[gid].status.Filled? {
      SkipMissingKeeps(q, cfg, h, gid);
    }
    SameContent(p, PopIdle(p, cfg), cfg, key, from);
  }

  lemma EndTakes(p: Pipe, cfg: ValidPipeConfig, gid: int, key: CandleKey, from: set<Event>)
    requires PipeInv(p, cfg, Some(gid)) && State(p, cfg, key, from)
    ensures var q := EndAttempt(p, cfg, gid); State(q, cfg, key, from) && Grows(p, q)
  {
    var h :| InvWith(p, cfg, Some(gid), h);
    ResolveStep(p, cfg, h, gid);
    var det := Resolve(p.det, gid);
    var q := p.(det := det, gapLog := p.gapLog + [det.gaps[gid]]);
    hide InvWith, InvBut, Resolve, State, Content, SkipMissing, Accounted;
    if !det.gaps[gid].status.Filled? {
      SkipMissingKeeps(q, cfg, h, gid);
    }
    SameContent(p, EndAttempt(p, cfg, gid), cfg, key, from);
  }

  lemma BeginTakes(p: Pipe, cfg: ValidPipeConfig, key: CandleKey, from: set<Event>)
    requires PipeInv(p, cfg, None) && State(p, cfg, key, from) && p.toFill != [] && !NoRequest(p, cfg)
    ensures var gid := p.toFill[0];
            var b := BeginAttempt(p.(toFill := p.toFill[1..]), gid);
            PipeInv(b, cfg, Some(gid)) && State(b, cfg, key, from) && Grows(p, b)
  {
    var h :| InvWith(p, cfg, None, h);
    TakeHead(p, cfg, h);
    var (gid, q) := (p.toFill[0], p.(toFill := p.toFill[1..]));
    var b := BeginAttempt(q, gid);
    hide InvWith, InvBut, State, Content;
    BeginKeeps(q, cfg, h, gid);
    SameContent(p, b, cfg, key, from);
  }

  lemma AttemptTakes(p: Pipe, cfg: ValidPipeConfig, key: CandleKey, from: set<Event>, reply: seq<Event>)
    requires PipeInv(p, cfg, None) && State(p, cfg, key, from) && AllFrom(key, from, reply) && p.toFill != []
             && !NoRequest(p, cfg)
    ensures var q := Attempt(p, cfg, reply); State(q, cfg, key, from) && Grows(p, q)
  {
    hide PipeInv, State, Content, BeginAttempt, AdmitAll, EndAttempt;
    var gid := p.toFill[0];
    var b := BeginAttempt(p.(toFill := p.toFill[1..]), gid);
    BeginTakes(p, cfg, key, from);
    AdmitAllTakes(b, cfg, Some(gid), key, from, reply);
    EndTakes(AdmitAll(b, cfg, reply), cfg, gid, key, from);
  }

  ghost predicate RepliesFrom(key: CandleKey, from: set<Event>, replies: seq<seq<Event>>) {
    forall i | 0 <= i < |replies| :: AllFrom(key, from, replies[i])
  }

  lemma {:induction false} FillLoopTakes(p: Pipe, cfg: ValidPipeConfig, key: CandleKey, from: set<Event>,
      replies: seq<seq<Event>>)
    requires PipeInv(p, cfg, None) && State(p, cfg, key, from) && RepliesFrom(key, from, replies)
    ensures var (q, rest) := FillLoop(p, cfg, replies);
            State(q, cfg, key, from) && Grows(p, q) && RepliesFrom(key, from, rest)
    decreases |replies|, |p.toFill|
  {
    hide PipeInv, State, Content, Attempt, PopIdle, AllFrom;
    if p.toFill != [] {
      if NoRequest(p, cfg) {
        PopIdleKeeps(p, cfg);
        PopIdleTakes(p, cfg, key, from);
        IdleShrinks(p, cfg);
        FillLoopTakes(PopIdle(p, cfg), cfg, key, from, replies);
      } else if replies == [] {
        NothingFrom(key, from);
        AttemptKeeps(p, cfg, []);
        AttemptTakes(p, cfg, key, from, []);
        EmptyAttemptShrinks(p, cfg);
        FillLoopTakes(Attempt(p, cfg, []), cfg, key, from, []);
      } else {
        AttemptKeeps(p, cfg, replies[0]);
        AttemptTakes(p, cfg, key, from, replies[0]);
        FillLoopTakes(Attempt(p, cfg, replies[0]), cfg, key, from, replies[1..]);
      }
    }
  }

  lemma NothingFrom(key: CandleKey, from: set<Event>)
    ensures AllFrom(key, from, [])
  {
  }

  // ---------------------------------------------------------------- whole sessions

  ghost predicate SessionFrom(key: CandleKey, from: set<Event>, replies: seq<seq<Event>>, items: seq<Item>) {
    RepliesFrom(key, from, replies) && forall x | x in items && x.Arrival? :: Keyed(key, x.e) && x.e in from
  }

  /** The pipeline when the item at `k` came. */
  function Before(cfg: ValidPipeConfig, replies: seq<seq<Event>>, items: seq<Item>, k: nat): Pipe
    requires k <= |items|
  {
    Run(cfg, replies, items[..k]).0
  }

  lemma ProcessTakes(p: Pipe, cfg: ValidPipeConfig, key: CandleKey, from: set<Event>, replies: seq<seq<Event>>,
      item: Item)
    requires PipeInv(p, cfg, None) && State(p, cfg, key, from) && RepliesFrom(key, from, replies)
    requires item.Arrival? ==> Keyed(key, item.e) && item.e in from
    ensures var (q, rest) := Process(p, cfg, replies, item);
            && State(q, cfg, key, from) && RepliesFrom(key, from, rest) && Grows(p, q)
            && (item.Arrival? ==> Handled(p, q, cfg, item.e))
  {
    hide PipeInv, State, Content, RepliesFrom, Admit, FillLoop, Handled, Flush;
    match item {
      case Arrival(e) =>
        AdmitKeeps(p, cfg, None, e);
        AdmitTakes(p, cfg, None, key, from, e);
        FillLoopTakes(Admit(p, cfg, e), cfg, key, from, replies);
        StaysHandled(p, Admit(p, cfg, e), Process(p, cfg, replies, item).0, cfg, e);
      case Dropped(market) =>
        if market {
          FlushReportTakes(p, cfg, key, from, replies);
        }
    }
  }

  /** Confirming all holes, as at a drop and at the end, and filling what was found. */
  lemma FlushReportTakes(p: Pipe, cfg: ValidPipeConfig, key: CandleKey, from: set<Event>, replies: seq<seq<Event>>)
    requires PipeInv(p, cfg, None) && State(p, cfg, key, from) && RepliesFrom(key, from, replies)
    ensures var (det, changed) := Flush(p.det, DetConfig(cfg));
            var (q, rest) := FillLoop(Report(p.(det := det), changed), cfg, replies);
            && PipeInv(q, cfg, None) && State(q, cfg, key, from) && RepliesFrom(key, from, rest) && Grows(p, q)
  {
    var (det, changed) := Flush(p.det, DetConfig(cfg));
    var a := Report(p.(det := det), changed);
    hide PipeInv, State, Content, RepliesFrom, FillLoop, Flush;
    FlushReportKeeps(p, cfg);
    SameContent(p, a, cfg, key, from);
    FillLoopKeeps(a, cfg, replies);
    FillLoopTakes(a, cfg, key, from, replies);
  }

  /** Since every item came, nothing was lost up to state `p`, and all that arrived is handled. */
  ghost predicate AllHandled(cfg: ValidPipeConfig, replies: seq<seq<Event>>, items: seq<Item>, p: Pipe) {
    && (forall k | 0 <= k <= |items| :: Grows(Before(cfg, replies, items, k), p))
    && (forall k | 0 <= k < |items| && items[k].Arrival? :: Handled(Before(cfg, replies, items, k), p, cfg, items[k].e))
  }

  lemma AllHandledOn(cfg: ValidPipeConfig, replies: seq<seq<Event>>, items: seq<Item>, p: Pipe, q: Pipe)
    requires AllHandled(cfg, replies, items, p) && Grows(p, q)
    ensures AllHandled(cfg, replies, items, q)
  {
    hide Run, Handled, Grows;
    forall k | 0 <= k <= |items| ensures Grows(Before(cfg, replies, items, k), q) {
      GrowsOn(Before(cfg, replies, items, k), p, q);
    }
    forall k | 0 <= k < |items| && items[k].Arrival?
      ensures Handled(Before(cfg, replies, items, k), q, cfg, items[k].e)
    {
      StaysHandled(Before(cfg, replies, items, k), p, q, cfg, items[k].e);
    }
  }

  lemma OneMore(cfg: ValidPipeConfig, replies: seq<seq<Event>>, items: seq<Item>, item: Item)
    requires var q := Run(cfg, replies, items + [item]).0;
             AllHandled(cfg, replies, items, q) && (item.Arrival?
               ==> Handled(Run(cfg, replies, items).0, q, cfg, item.e))
    ensures AllHandled(cfg, replies, items + [item], Run(cfg, replies, items + [item]).0)
  {
    hide Run, Handled, Grows;
    var more := items + [item];
    var q := Run(cfg, replies, more).0;
    GrowsItself(q);
    assert more[..|more|] == more;
    forall k | 0 <= k <= |items| ensures Before(cfg, replies, more, k) == Before(cfg, replies, items, k) {
      assert more[..k] == items[..k];
    }
    assert items[..|items|] == items;
    assert AllHandled(cfg, replies, items, q);
    forall k | 0 <= k < |more| && more[k].Arrival? ensures Handled(Before(cfg, replies, more, k), q, cfg, more[k].e) {
      if k < |items| { assert more[k] == items[k]; }
    }
  }

  /** In every session: nothing is lost between two items, and what arrived stays handled. */
  lemma {:induction false} RunTakes(cfg: ValidPipeConfig, key: CandleKey, from: set<Event>, replies: seq<seq<Event>>,
      items: seq<Item>)
    requires SessionFrom(key, from, replies, items)
    ensures var (p, rest) := Run(cfg, replies, items);
            State(p, cfg, key, from) && RepliesFrom(key, from, rest) && AllHandled(cfg, replies, items, p)
  {
    hide State, RepliesFrom, PipeInv, Handled, Keyed, Grows, AllHandled, Process;
    if items == [] {
      StartTakes(cfg, key, from, replies);
    } else {
      var n := |items| - 1;
      var (init, item) := (items[..n], items[n]);
      assert item in items && forall x | x in init :: x in items;
      RunTakes(cfg, key, from, replies, init);
      RunKeeps(cfg, replies, init);
      var (p, rest) := Run(cfg, replies, init);
      ProcessTakes(p, cfg, key, from, rest, item);
      var q := Process(p, cfg, rest, item).0;
      AllHandledOn(cfg, replies, init, p, q);
      assert items == init + [item];
      OneMore(cfg, replies, init, item);
    }
  }

  lemma GrowsItself(p: Pipe)
    ensures Grows(p, p)
  {
  }

  lemma GrowsOn(p: Pipe, q: Pipe, r: Pipe)
    requires Grows(p, q) && Grows(q, r)
    ensures Grows(p, r)
  {
  }

  lemma StartTakes(cfg: ValidPipeConfig, key: CandleKey, from: set<Event>, replies: seq<seq<Event>>)
    ensures State(START, cfg, key, from) && AllHandled(cfg, replies, [], START)
  {
    assert Content(START.agg, []) == {};
  }

  // ---------------------------------------------------------------- the end of a session

  /** A minute that is there is off the ledger; one that was given up is on it. */
  lemma ThereOrListed(p: Pipe, cfg: ValidPipeConfig, m: int)
    requires PipeInv(p, cfg, None) && p.origin.Some? && p.origin.value <= m && OnGrid(p.origin.value, cfg.tfNs, m)
    ensures m in Minutes(p.agg) ==> !Listed(p, m)
    ensures m in p.agg.skipped ==> Listed(p, m)
  {
    var h :| InvWith(p, cfg, None, h);
    MissingIsOwned(p.det, Klines, m);
    LedgerMatchesRelease(p, cfg, None, m);
    if (Klines, m) in p.det.owner {
      MissingNotThere(p.det, p.agg, cfg.tfNs, h, m);
    }
  }

  lemma HandledAtEnd(before: Pipe, r: Pipe, cfg: ValidPipeConfig, e: Event)
    requires PipeInv(r, cfg, None) && Handled(before, r, cfg, e) && Grows(before, r) && !Invalid(cfg, e) && Own(cfg, e)
    ensures var m := e.payload.candle.openNs;
            && r.origin.Some? && (before.origin.None? ==> r.origin == Some(m))
            && (e.payload.candle.closed && r.origin.value <= m ==>
                  && (m in Minutes(r.agg) <==> m !in before.agg.skipped)
                  && (m in Minutes(r.agg) <==> !Listed(r, m)))
  {
    var h :| InvWith(r, cfg, None, h);
    ThereIsMinutes(r, cfg, None, h);
    hide InvWith, There, Minutes, Content, Listed;
    var m := e.payload.candle.openNs;
    if e.payload.candle.closed && r.origin.value <= m {
      OriginAligned(r, cfg, h);
      AlignedOnGrid(r.origin.value, m, cfg.tfNs);
      hide PipeInv;
      ThereOrListed(r, cfg, m);
    }
  }

  lemma OriginAligned(p: Pipe, cfg: ValidPipeConfig, h: History)
    requires InvWith(p, cfg, None, h) && p.origin.Some?
    ensures p.origin.value % cfg.tfNs == 0
  {
  }

  /** Zero loss: in every session the first valid candle of the series is where it begins, and from there on a valid
      closed candle of the stream has reached the consumer in the end exactly if its minute had not been given up before
      it came, and exactly if the ledger does not list it. */
  lemma CandlesDelivered(cfg: ValidPipeConfig, key: CandleKey, from: set<Event>, replies: seq<seq<Event>>,
      items: seq<Item>, k: nat)
    requires SessionFrom(key, from, replies, items)
    requires k < |items| && items[k].Arrival? && !Invalid(cfg, items[k].e) && Own(cfg, items[k].e)
    ensures var (p, rest) := Run(cfg, replies, items);
            var (q, before, c) := (Finish(p, cfg, rest), Before(cfg, replies, items, k), items[k].e.payload.candle);
            && q.origin.Some? && (before.origin.None? ==> q.origin == Some(c.openNs))
            && (c.closed && q.origin.value <= c.openNs ==>
                  && (c.openNs in Opens(q.candles) <==> c.openNs !in before.agg.skipped)
                  && (c.openNs in Opens(q.candles) <==> !Listed(q, c.openNs)))
  {
    hide Run, State, RepliesFrom, Process, PipeInv, Handled, Grows, Keyed, FillLoop, Flush, Content, Minutes, FlushAll;
    var (p, rest) := Run(cfg, replies, items);
    var before := Before(cfg, replies, items, k);
    RunTakes(cfg, key, from, replies, items);
    RunKeeps(cfg, replies, items);
    FlushReportTakes(p, cfg, key, from, rest);
    var (det, changed) := Flush(p.det, DetConfig(cfg));
    var r := FillLoop(Report(p.(det := det), changed), cfg, rest).0;
    StaysHandled(before, p, r, cfg, items[k].e);
    GrowsOn(before, p, r);
    HandledAtEnd(before, r, cfg, items[k].e);
    FlushedLog(r, cfg);
    HeldBeyond(r, cfg, None);
  }

  /** Nothing is invented: every candle and every trade delivered is one that came from the stream or from REST. */
  lemma DeliveredCame(cfg: ValidPipeConfig, key: CandleKey, from: set<Event>, replies: seq<seq<Event>>,
      items: seq<Item>)
    requires SessionFrom(key, from, replies, items)
    ensures var (p, rest) := Run(cfg, replies, items);
            var q := Finish(p, cfg, rest);
            && (forall t | t in q.trades :: t in from)
            && forall c | c in q.candles :: c.closed && exists e :: e in from && e.payload == Kline(c)
  {
    hide Run, RepliesFrom, PipeInv, Handled, Grows, Keyed, FillLoop, Flush, Content, Minutes, FlushAll, StoreTaken,
      AllHandled;
    var (p, rest) := Run(cfg, replies, items);
    RunTakes(cfg, key, from, replies, items);
    RunKeeps(cfg, replies, items);
    FlushReportTakes(p, cfg, key, from, rest);
    var (det, changed) := Flush(p.det, DetConfig(cfg));
    var r := FillLoop(Report(p.(det := det), changed), cfg, rest).0;
    FlushedContent(r, cfg);
    HeldBeyond(r, cfg, None);
  }

  lemma FlushedContent(r: Pipe, cfg: ValidPipeConfig)
    requires PipeInv(r, cfg, None)
    ensures var (agg, out) := FlushAll(r.agg, RelConfig(cfg));
            agg.log == r.agg.log + out && forall c | c in agg.log :: c in Content(r.agg, [])
  {
    var h :| InvWith(r, cfg, None, h);
    var f := if r.origin.Some? then r.origin.value else 0;
    ReleaseOrdered(r.agg, cfg.tfNs, r.origin, f);
    hide InvWith, Ordered, FlushAll, PipeInv, Content;
    FlushKeeps(r.agg, RelConfig(cfg), f);
    var log := FlushAll(r.agg, RelConfig(cfg)).0.log;
    forall c | c in log ensures c in Content(r.agg, []) {
      assert c in set x | x in log;
    }
  }
}
