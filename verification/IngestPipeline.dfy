/** The mutable ingest pipeline: `_accept`, `_on_gaps` and `_fill_loop` call each other as in the source, and each
    is proved equal to the function on the pipeline state. */
module IngestPipeline {
  import opened Base
  import opened Events
  import opened GapLedger
  import opened Ingest
  import IngestProofs
  import Release
  import GapDetector
  import CandleAggregator
  import Deduplicator

  /** The loop of the specification, one round at a time. */
  lemma LoopStep(p: Pipe, cfg: ValidPipeConfig, replies: seq<seq<Event>>)
    requires p.toFill != []
    ensures NoRequest(p, cfg) ==> Ingest.FillLoop(p, cfg, replies) == Ingest.FillLoop(PopIdle(p, cfg), cfg, replies)
                                  && |PopIdle(p, cfg).toFill| < |p.toFill|
    ensures !NoRequest(p, cfg) && replies != [] ==>
              Ingest.FillLoop(p, cfg, replies) == Ingest.FillLoop(Attempt(p, cfg, replies[0]), cfg, replies[1..])
    ensures !NoRequest(p, cfg) && replies == [] ==>
              Ingest.FillLoop(p, cfg, replies) == Ingest.FillLoop(Attempt(p, cfg, []), cfg, [])
                && |Attempt(p, cfg, []).toFill| < |p.toFill|
  {
    if NoRequest(p, cfg) {
      IngestProofs.IdleShrinks(p, cfg);
    } else {
      IngestProofs.EmptyAttemptShrinks(p, cfg);
    }
    hide Attempt, PopIdle;
  }

  lemma LoopEnds(p: Pipe, cfg: ValidPipeConfig, replies: seq<seq<Event>>)
    ensures p.toFill == [] ==> Ingest.FillLoop(p, cfg, replies) == (p, replies)
  {
  }

  lemma PopIs(p: Pipe, cfg: ValidPipeConfig)
    requires p.toFill != [] && NoRequest(p, cfg)
    ensures var gid, q := p.toFill[0], p.(toFill := p.toFill[1..]);
            PopIdle(p, cfg) == if gid in p.det.gaps && p.det.gaps[gid].status.Filled? then q
              else Ingest.SkipMissing(q, cfg, gid)
  {
  }

  lemma AttemptIs(p: Pipe, cfg: ValidPipeConfig, reply: seq<Event>)
    requires p.toFill != []
    ensures var gid := p.toFill[0];
            Attempt(p, cfg, reply) == EndAttempt(AdmitAll(BeginAttempt(p.(toFill := p.toFill[1..]), gid), cfg, reply),
              cfg, gid)
  {
  }

  class Pipeline {
    const cfg: ValidPipeConfig
    const detector: GapDetector.Detector
    const aggregator: CandleAggregator.Aggregator
    const dedup: Deduplicator.Deduper
    var lastBook: Option<int>
    var lastMark: Option<int>
    var toFill: seq<int>
    var filling: bool
    /** What the backfill hook will answer on its next calls; afterwards it raises. */
    var replies: seq<seq<Event>>
    // sinks
    var candles: seq<Candle>
    var trades: seq<Event>
    var gapLog: seq<GapRecord>
    ghost var origin: Option<int>

    ghost predicate Wired() {
      detector.cfg == DetConfig(cfg) && aggregator.cfg == RelConfig(cfg) && dedup.max == cfg.dedupMax
    }

    ghost function View(): Pipe
      reads this, detector, aggregator, dedup
    {
      Pipe(detector.View(), aggregator.View(), dedup.View(), lastBook, lastMark, toFill, candles, trades, gapLog,
        origin)
    }

    constructor (cfg: ValidPipeConfig, replies: seq<seq<Event>>)
      ensures this.cfg == cfg && this.replies == replies && !filling && Wired() && View() == START
      ensures fresh(detector) && fresh(aggregator) && fresh(dedup)
    {
      this.cfg := cfg;
      this.replies := replies;
      detector := new GapDetector.Detector(DetConfig(cfg));
      aggregator := new CandleAggregator.Aggregator(RelConfig(cfg), None);
      dedup := new Deduplicator.Deduper(cfg.dedupMax);
      lastBook, lastMark, toFill, filling := None, None, [], false;
      candles, trades, gapLog, origin := [], [], [], None;
    }

    method CheckStale(e: Event) returns (stale: bool)
      requires Wired()
      modifies this
      ensures stale == Stale(old(View()), e) && unchanged(detector, aggregator, dedup)
      ensures View() == if stale then old(View()) else Freshen(old(View()), e)
      ensures filling == old(filling) && replies == old(replies)
    {
      stale := false;
      if e.payload.Book? {
        if lastBook.Some? && e.payload.lastUpdateId < lastBook.value {
          return true;
        }
        lastBook := Some(e.payload.lastUpdateId);
      } else if e.payload.MarkPrice? {
        if lastMark.Some? && e.tsEvent < lastMark.value {
          return true;
        }
        lastMark := Some(e.tsEvent);
      }
    }

    /** One event; outside a fill the queue it leaves is worked off at once. */
    method Accept(e: Event)
      requires Wired()
      modifies this, detector, aggregator, dedup
      ensures filling == old(filling)
      ensures old(filling) ==> View() == Admit(old(View()), cfg, e) && replies == old(replies)
      ensures !old(filling) && old(toFill) == [] ==>
                (View(), replies) == Ingest.FillLoop(Admit(old(View()), cfg, e), cfg, old(replies))
      decreases if filling then 0 else 1, 4
    {
      if Invalid(cfg, e) {
        return;
      }
      var outcome := dedup.Offer(e);
      if outcome.Duplicate? {
        return;
      }
      var stale := CheckStale(e);
      if stale {
        return;
      }
      var changed: seq<GapRecord>;
      match e.payload {
        case Kline(c) => changed := SeeCandle(c, e.tsEvent);
        case Trade(_, _) => changed := SeeTrade(e, outcome.New?);
        case _ => changed := detector.OnTime(e.tsEvent);
      }
      assert Report(View(), changed) == Admit(old(View()), cfg, e);
      OnGaps(changed);
    }

    method SeeCandle(c: Candle, ts: int) returns (changed: seq<GapRecord>)
      requires Wired()
      modifies this, detector, aggregator
      ensures Report(View(), changed) == AdmitKline(old(View()), cfg, c, ts)
      ensures filling == old(filling) && replies == old(replies)
    {
      hide GapLedger.OnTime, GapLedger.OnKline, Release.Offer;
      var skipped := aggregator.IsSkipped(c.openNs);
      if c.closed && c.tf == cfg.tf && skipped {
        changed := detector.OnTime(ts);
      } else {
        changed := detector.OnKline(c, ts);
      }
      if old(detector.kLo).None? && detector.kLo.Some? {
        origin := Some(c.openNs);
      }
      var out := aggregator.Offer(c);
      candles := candles + out;
    }

    method SeeTrade(e: Event, isNew: bool) returns (changed: seq<GapRecord>)
      requires Wired() && e.payload.Trade?
      modifies this, detector
      ensures Report(View(), changed) == AdmitTrade(old(View()), cfg, e, isNew)
      ensures filling == old(filling) && replies == old(replies)
    {
      if isNew {
        trades := trades + [e];
      }
      changed := detector.OnTrade(e.payload.instrument, e.payload.aggId, e.tsEvent);
    }

    method OnGaps(changed: seq<GapRecord>)
      requires Wired()
      modifies this, detector, aggregator, dedup
      ensures filling == old(filling)
      ensures old(filling) ==> View() == Report(old(View()), changed) && replies == old(replies)
      ensures !old(filling) ==> (View(), replies) == Ingest.FillLoop(Report(old(View()), changed), cfg, old(replies))
      decreases if filling then 0 else 1, 3
    {
      hide Ingest.FillLoop;
      for i := 0 to |changed|
        invariant filling == old(filling) && replies == old(replies) && unchanged(detector, aggregator, dedup)
        invariant Report(View(), changed[i..]) == Report(old(View()), changed)
      {
        var g := changed[i];
        assert changed[i..] == [g] + changed[i + 1..];
        gapLog := gapLog + [g];
        if g.status.Open? {
          toFill := toFill + [g.id];
        }
        assert gapLog + changed[i + 1..] == (gapLog[..|gapLog| - 1]) + changed[i..];
      }
      assert changed[|changed|..] == [];
      assert gapLog + [] == gapLog && toFill + OpenIds([]) == toFill;
      if !filling {
        FillLoop();
      }
    }

    method FillLoop()
      requires Wired() && !filling
      modifies this, detector, aggregator, dedup
      ensures !filling && (View(), replies) == Ingest.FillLoop(old(View()), cfg, old(replies))
      decreases 1, 2
    {
      hide Ingest.FillLoop;
      filling := true;
      while toFill != []
        invariant filling
        invariant Ingest.FillLoop(View(), cfg, replies) == Ingest.FillLoop(old(View()), cfg, old(replies))
        decreases |replies|, |toFill|
      {
        FillHead();
      }
      LoopEnds(View(), cfg, replies);
      filling := false;
    }

    /** The gap at the head of the queue. */
    method FillHead()
      requires Wired() && filling && toFill != []
      modifies this, detector, aggregator, dedup
      ensures filling && Ingest.FillLoop(View(), cfg, replies) == Ingest.FillLoop(old(View()), cfg, old(replies))
      ensures |replies| < |old(replies)| || (|replies| == |old(replies)| && |toFill| < |old(toFill)|)
      decreases 1, 1
    {
      hide Ingest.FillLoop, Attempt, PopIdle;
      ghost var before := View();
      LoopStep(before, cfg, replies);
      var gid := toFill[0];
      toFill := toFill[1..];
      if gid in detector.gaps && detector.gaps[gid].status.Filled? {
        PopIs(before, cfg);
      } else if !cfg.hasBackfill {
        PopIs(before, cfg);
        SkipMissing(gid);
      } else {
        var reply := if replies == [] then [] else replies[0];
        AttemptIs(before, cfg, reply);
        replies := if replies == [] then [] else replies[1..];
        FillOne(gid, reply);
      }
    }

    /** One attempt at gap `gid`. */
    method FillOne(gid: int, reply: seq<Event>)
      requires Wired() && filling
      modifies this, detector, aggregator, dedup
      ensures filling && replies == old(replies)
      ensures View() == EndAttempt(AdmitAll(BeginAttempt(old(View()), gid), cfg, reply), cfg, gid)
      decreases 1, 0
    {
      hide Admit, GapLedger.BeginFill, GapLedger.Resolve, Ingest.SkipMissing;
      detector.BeginFill(gid);
      assert gapLog + [] == gapLog;
      if gid in detector.gaps {
        gapLog := gapLog + [detector.gaps[gid]];
      }
      ghost var begun := View();
      for i := 0 to |reply|
        invariant filling && replies == old(replies)
        invariant AdmitAll(View(), cfg, reply[i..]) == AdmitAll(begun, cfg, reply)
      {
        assert reply[i..][0] == reply[i] && reply[i..][1..] == reply[i + 1..];
        Accept(reply[i]);
      }
      detector.Resolve(gid);
      assert gapLog + [] == gapLog && reply[|reply|..] == [];
      if gid in detector.gaps {
        gapLog := gapLog + [detector.gaps[gid]];
      }
      if !(gid in detector.gaps && detector.gaps[gid].status.Filled?) {
        SkipMissing(gid);
      }
    }

    method SkipMissing(gid: int)
      requires Wired()
      modifies this, detector, aggregator
      ensures View() == Ingest.SkipMissing(old(View()), cfg, gid)
      ensures filling == old(filling) && replies == old(replies)
    {
      if gid !in detector.gaps || gid !in detector.missing {
        detector.fault := true;
        return;
      }
      if !detector.gaps[gid].stream.Klines? {
        return;
      }
      var keys := SortedKeys(detector.missing[gid]);
      for i := 0 to |keys|
        invariant filling == old(filling) && replies == old(replies)
        invariant SkipKeys(View(), cfg, keys[i..]) == SkipKeys(old(View()), cfg, keys)
      {
        assert keys[i..][0] == keys[i] && keys[i..][1..] == keys[i + 1..];
        var out := aggregator.Skip(keys[i], keys[i]);
        candles := candles + out;
      }
    }

    /** A whole session and its end. */
    method Run(items: seq<Item>)
      requires Wired() && !filling && View() == START
      modifies this, detector, aggregator, dedup
      ensures !filling
      ensures var (p, rest) := Ingest.Run(cfg, old(replies), items); View() == Finish(p, cfg, rest)
      ensures IngestProofs.ReleaseProofs.Increasing(candles) && !detector.fault
    {
      hide Ingest.FillLoop, Admit, GapLedger.Flush;
      for i := 0 to |items|
        invariant !filling
        invariant (View(), replies) == Ingest.Run(cfg, old(replies), items[..i])
      {
        assert items[..i + 1][..i] == items[..i] && items[..i + 1][i] == items[i];
        IngestProofs.RunKeeps(cfg, old(replies), items[..i]);
        match items[i] {
          case Arrival(e) => Accept(e);
          case Dropped(market) =>
            if market {
              var changed := detector.Flush();
              OnGaps(changed);
            }
        }
      }
      assert items[..|items|] == items;
      var changed := detector.Flush();
      OnGaps(changed);
      var out := aggregator.Flush();
      candles := candles + out;
      IngestProofs.FinalReport(cfg, old(replies), items, 0);
    }
  }
}
