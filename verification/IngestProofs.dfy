/** The ingest pipeline over whole sessions: the gap ledger never lies, no transition is illegal, candles are
    delivered in order and exactly once, and nothing settled is withheld. */
module IngestProofs {
  import opened Base
  import opened Events
  import opened GapLedger
  import opened LedgerProofs
  import opened LedgerTiming
  import opened Release
  import opened ReleaseProofs
  import opened Ingest
  import Dedup

  // ---------------------------------------------------------------- invariant

  /** Minutes the aggregator has delivered or is holding. */
  ghost function Minutes(a: Agg): set<int> {
    Opens(a.log) + a.held.Keys
  }

  /** The release side: in order, complete up to its frontier; nothing it has lies before the origin. */
  ghost predicate ReleaseOk(a: Agg, tf: int, origin: Option<int>)
    requires tf > 0
  {
    match origin
    case None => a == Fresh(None)
    case Some(f) =>
      && Good(a, tf, f) && Covered(a, tf, f, []) && a.next.Some? && f <= a.next.value
      && forall m | m in Minutes(a) :: f <= m && OnGrid(f, tf, m)
  }

  /** The two views of the minutes agree: received closed means delivered or held; given up means still missing. */
  ghost predicate InSync(d: Ledger, a: Agg, tf: int, h: History)
    requires tf > 0
  {
    && (h.first.Some? ==> forall m | h.first.value <= m && OnGrid(h.first.value, tf, m) ::
         m in h.got <==> m in Minutes(a))
    && forall m | m in a.skipped :: (Klines, m) in d.owner
  }

  /** Each gap is queued once; only the gap being filled is FILLING; a gap that left the queue blocks nothing. */
  ghost predicate QueueOk(p: Pipe, cfg: ValidPipeConfig, cur: Option<int>) {
    && p.det.gaps.Keys == p.det.missing.Keys
    && (forall i, j | 0 <= i < j < |p.toFill| :: p.toFill[i] != p.toFill[j])
    && (forall g | g in p.toFill :: g in p.det.gaps && (p.det.gaps[g].status.Open? || p.det.gaps[g].status.Filled?)
                                    && p.det.gaps[g].attempts == 0 && g < p.det.nextId && cur != Some(g))
    && (forall g | g in p.det.gaps :: (p.det.gaps[g].status.Filling? <==> cur == Some(g))
         && p.det.gaps[g].attempts <= 1)
    && (cur.Some? ==> cur.value in p.det.gaps)
    && forall g | g in p.det.gaps && g !in p.toFill && cur != Some(g) :: Done(p, cfg, g)
  }

  /** A gap that has been dealt with. */
  ghost predicate Done(p: Pipe, cfg: ValidPipeConfig, g: int)
    requires g in p.det.gaps && g in p.det.missing
  {
    && (cfg.hasBackfill ==> !p.det.gaps[g].status.Open?)
    && (p.det.gaps[g].stream.Klines? ==> p.det.missing[g] <= p.agg.skipped)
  }

  /** The invariant with the receiving history made explicit. */
  ghost predicate InvWith(p: Pipe, cfg: ValidPipeConfig, cur: Option<int>, h: History) {
    && Inv(p.det, cfg.tfNs, h) && h.first == p.origin && Prompt(p.det, DetConfig(cfg), p.origin)
    && ReleaseOk(p.agg, cfg.tfNs, p.origin) && (p.origin.Some? ==> p.origin.value % cfg.tfNs == 0)
    && InSync(p.det, p.agg, cfg.tfNs, h)
    && QueueOk(p, cfg, cur)
    && p.candles == p.agg.log
  }

  /** What holds between any two steps of a session; `cur` is the gap being filled, if any. */
  ghost predicate PipeInv(p: Pipe, cfg: ValidPipeConfig, cur: Option<int>) {
    exists h :: InvWith(p, cfg, cur, h)
  }

  // ---------------------------------------------------------------- queue

  lemma QueuedOnce(toFill: seq<int>, next: int, next': int)
    requires (forall i, j | 0 <= i < j < |toFill| :: toFill[i] != toFill[j]) && forall g | g in toFill :: g < next
    ensures var r := toFill + Ids(next, next'); forall i, j | 0 <= i < j < |r| :: r[i] != r[j]
  {
    var r := toFill + Ids(next, next');
    forall i, j | 0 <= i < j < |r| ensures r[i] != r[j] {
      if i < |toFill| { assert toFill[i] in toFill; }
    }
  }

  /** A detector operation followed by its report keeps the queue in order. */
  lemma ReportKeeps(p: Pipe, cfg: ValidPipeConfig, cur: Option<int>, q: Pipe, changed: seq<GapRecord>)
    requires QueueOk(p, cfg, cur) && Evolves(p.det, q.det, changed) && Inverse(p.det) && Inverse(q.det)
             && Records(q.det)
    requires q.toFill == p.toFill && p.agg.skipped <= q.agg.skipped
    ensures QueueOk(Report(q, changed), cfg, cur)
  {
    var r := Report(q, changed);
    if cur.Some? {
      var c := cur.value;
      assert c in p.det.gaps;
      assert c in q.det.gaps;
    }
    var ids := Ids(p.det.nextId, q.det.nextId);
    assert r.toFill == p.toFill + ids;
    assert forall g | g in p.toFill :: g < p.det.nextId;
    QueuedOnce(p.toFill, p.det.nextId, q.det.nextId);
    forall g | g in q.det.gaps && g !in p.det.gaps ensures g in ids {
      assert ids[g - p.det.nextId] == g;
    }
    forall g | g in r.toFill
      ensures g in r.det.gaps && (r.det.gaps[g].status.Open? || r.det.gaps[g].status.Filled?)
              && r.det.gaps[g].attempts == 0 && g < r.det.nextId && cur != Some(g)
    {
      if g in p.toFill {
        assert g in p.det.gaps;
      } else {
        assert g in ids;
        NewGapOpen(p.det, q.det, changed, g);
        assert RecordOk(q.det.gaps[g], q.det.missing[g]);
      }
    }
    forall g | g in r.det.gaps ensures r.det.gaps[g].attempts <= 1 {
      if g !in p.det.gaps { assert RecordOk(q.det.gaps[g], q.det.missing[g]); }
    }
    forall g | g in r.det.gaps && g !in r.toFill && cur != Some(g) ensures Done(r, cfg, g) {
      assert g in p.det.gaps && g !in p.toFill;
      assert Done(p, cfg, g);
    }
  }

  lemma {:induction false} OpenIdsAreReported(out: seq<GapRecord>, g: int)
    requires g in OpenIds(out)
    ensures exists i :: 0 <= i < |out| && out[i].id == g && out[i].status.Open?
  {
    if g == out[0].id && out[0].status.Open? {
    } else {
      OpenIdsAreReported(out[1..], g);
      var i :| 0 <= i < |out[1..]| && out[1..][i].id == g && out[1..][i].status.Open?;
      assert out[i + 1] == out[1..][i];
    }
  }

  lemma NewGapOpen(d: Ledger, e: Ledger, out: seq<GapRecord>, g: int)
    requires Evolves(d, e, out) && g in Ids(d.nextId, e.nextId) && forall q | q in d.gaps :: q < d.nextId
    ensures g in e.gaps && g !in d.gaps && e.gaps[g].status.Open? && d.nextId <= g < e.nextId
  {
    OpenIdsAreReported(out, g);
  }

  // ---------------------------------------------------------------- one event

  lemma AlignedOnGrid(f: int, o: int, tf: int)
    requires tf > 0 && f % tf == 0 && o % tf == 0
    ensures OnGrid(f, tf, o)
  {
    var i, j := f / tf, o / tf;
    assert o - f == (j - i) * tf by {
      assert f == i * tf;
      assert o == j * tf;
    }
    Multiple(j - i, tf);
  }

  /** A given-up minute stays missing as long as it is not received. */
  lemma SkippedStayMissing(d: Ledger, e: Ledger, a: Agg, tf: int, h: History, h': History)
    requires tf > 0 && KlineAcc(d, tf, h.first, h.got, []) && KlineAcc(e, tf, h'.first, h'.got, [])
    requires h.first.Some? ==> h'.first == h.first
    requires d.kLo.Some? ==> e.kLo.Some? && d.kLo.value <= e.kLo.value
    requires forall m | m in a.skipped :: (Klines, m) in d.owner
    requires forall m | m in a.skipped :: m in h'.got ==> m in h.got
    ensures forall m | m in a.skipped :: (Klines, m) in e.owner
  {
    forall m | m in a.skipped ensures (Klines, m) in e.owner {
      assert (Klines, m) in d.owner;
      assert d.kLo.Some?;
      assert ExactlyOne(m in h.got, (Klines, m) in d.owner, m in []);
      assert ExactlyOne(m in h'.got, (Klines, m) in e.owner, m in []);
    }
  }

  /** Nothing that is delivered or held has been given up. */
  lemma SkippedNotThere(d: Ledger, a: Agg, tf: int, h: History, m: int)
    requires tf > 0 && KlineAcc(d, tf, h.first, h.got, []) && InSync(d, a, tf, h) && m in a.skipped
    ensures h.first.Some? && h.first.value <= m && OnGrid(h.first.value, tf, m) && m !in Minutes(a) && m !in h.got
  {
    assert (Klines, m) in d.owner;
    assert ExactlyOne(m in h.got, (Klines, m) in d.owner, m in []);
  }

  /** The detector moved without receiving a minute. */
  lemma TimePasses(p: Pipe, cfg: ValidPipeConfig, cur: Option<int>, h: History, h': History, q: Pipe,
      changed: seq<GapRecord>)
    requires InvWith(p, cfg, cur, h) && Inv(q.det, cfg.tfNs, h') && Evolves(p.det, q.det, changed)
    requires h'.first == h.first && h'.got == h.got && Prompt(q.det, DetConfig(cfg), h'.first)
    requires q.agg == p.agg && q.origin == p.origin && q.toFill == p.toFill && q.candles == p.candles
    ensures InvWith(Report(q, changed), cfg, cur, h')
  {
    hide KlineAcc, TradeAcc, QueueOk, Records, Inverse, Prompt;
    ReportKeeps(p, cfg, cur, q, changed);
    SkippedStayMissing(p.det, q.det, p.agg, cfg.tfNs, h, h');
  }

  lemma AdmitOtherKeeps(p: Pipe, cfg: ValidPipeConfig, cur: Option<int>, h: History, ts: int)
    requires InvWith(p, cfg, cur, h)
    ensures InvWith(AdmitOther(p, cfg, ts), cfg, cur, h)
  {
    hide InvWith, Inv;
    Unpack(p, cfg, cur, h);
    OnTimeKeeps(p.det, DetConfig(cfg), h, ts);
    OnTimePrompt(p.det, DetConfig(cfg), h, ts);
    var (det, changed) := OnTime(p.det, DetConfig(cfg), ts);
    TimePasses(p, cfg, cur, h, h, p.(det := det), changed);
  }

  lemma Unpack(p: Pipe, cfg: ValidPipeConfig, cur: Option<int>, h: History)
    requires InvWith(p, cfg, cur, h)
    ensures Inv(p.det, cfg.tfNs, h) && h.first == p.origin && ReleaseOk(p.agg, cfg.tfNs, p.origin)
            && InSync(p.det, p.agg, cfg.tfNs, h) && Prompt(p.det, DetConfig(cfg), h.first)
  {
  }

  lemma AdmitTradeKeeps(p: Pipe, cfg: ValidPipeConfig, cur: Option<int>, h: History, e: Event, isNew: bool)
    requires InvWith(p, cfg, cur, h) && e.payload.Trade?
    ensures PipeInv(AdmitTrade(p, cfg, e, isNew), cfg, cur)
  {
    hide InvWith, Inv;
    Unpack(p, cfg, cur, h);
    var a := e.payload.aggId;
    OnTradeKeeps(p.det, DetConfig(cfg), h, e.payload.instrument, a, e.tsEvent);
    OnTradePrompt(p.det, DetConfig(cfg), h, e.payload.instrument, a, e.tsEvent);
    var (det, changed) := OnTrade(p.det, DetConfig(cfg), e.payload.instrument, a, e.tsEvent);
    var h' := if e.payload.instrument == cfg.instrument then SeeTrade(h, a) else h;
    TimePasses(p, cfg, cur, h, h', p.(det := det, trades := if isNew then p.trades + [e] else p.trades), changed);
    assert InvWith(AdmitTrade(p, cfg, e, isNew), cfg, cur, h');
  }

  lemma FirstClosed(a: Agg, cfg: ValidPipeConfig, c: Candle)
    requires a == Fresh(None) && c.tf == cfg.tf && c.instrument == cfg.instrument && c.closed
    ensures var b := Release.Offer(a, RelConfig(cfg), c).0;
            && Good(b, cfg.tfNs, c.openNs) && Covered(b, cfg.tfNs, c.openNs, []) && b.next.Some?
                 && c.openNs <= b.next.value
            && b.skipped == {} && Content(b, []) == {c}
  {
    var tf, o := cfg.tfNs, c.openNs;
    assert OnGrid(o, tf, o);
    var a1 := a.(next := Some(o), held := map[o := c]);
    assert a.held[o := c] == map[o := c];
    assert a1.log + [] == [];
    assert Ordered(a1, tf, o, []) && Covered(a1, tf, o, []);
    assert Content(a1, []) == {c} by { assert a1.held[o] == c; }
    hide Ordered, Covered, Content;
    DrainKeeps(a1, RelConfig(cfg), o);
  }

  /** The first candle of the series: detector and aggregator start at the same minute. */
  lemma FirstCandle(a: Agg, cfg: ValidPipeConfig, c: Candle)
    requires a == Fresh(None) && c.tf == cfg.tf && c.instrument == cfg.instrument
    ensures var b := Release.Offer(a, RelConfig(cfg), c).0;
            ReleaseOk(b, cfg.tfNs, Some(c.openNs)) && Minutes(b) == (if c.closed then {c.openNs} else {})
              && b.skipped == {}
  {
    var b := Release.Offer(a, RelConfig(cfg), c).0;
    assert OnGrid(c.openNs, cfg.tfNs, c.openNs);
    if c.closed {
      FirstClosed(a, cfg, c);
      hide Release.Offer, Covered, Content;
      HeldKeys(b, cfg.tfNs, c.openNs);
      hide Ordered;
      MinutesOfContent(b);
      assert (set x | x in {c} :: x.openNs) == {c.openNs};
    } else {
      assert b == a.(next := Some(c.openNs));
      assert b.log + [] == [] && Minutes(b) == {};
    }
  }

  lemma HeldKeys(a: Agg, tf: int, origin: int)
    requires tf > 0 && Ordered(a, tf, origin, [])
    ensures forall o | o in a.held :: a.held[o].openNs == o
  {
  }

  lemma MinutesOfContent(a: Agg)
    requires forall o | o in a.held :: a.held[o].openNs == o
    ensures Minutes(a) == set c | c in Content(a, []) :: c.openNs
  {
    assert a.log + [] == a.log;
    forall m ensures m in Minutes(a) <==> m in set c | c in Content(a, []) :: c.openNs {
      if m in a.held { assert a.held[m] in Content(a, []); }
    }
  }

  /** A later candle: a closed minute from the origin on that was not given up ends up delivered or held. */
  lemma LaterCandle(a: Agg, cfg: ValidPipeConfig, f: int, c: Candle)
    requires ReleaseOk(a, cfg.tfNs, Some(f)) && c.tf == cfg.tf && c.instrument == cfg.instrument
             && OnGrid(f, cfg.tfNs, c.openNs)
    ensures var b := Release.Offer(a, RelConfig(cfg), c).0;
            && ReleaseOk(b, cfg.tfNs, Some(f)) && b.skipped == a.skipped
            && Minutes(b) == Minutes(a) + (if c.closed && f <= c.openNs && c.openNs !in a.skipped then {c.openNs}
                 else {})
  {
    hide Ordered, Covered, Content, OnGrid, Release.Offer, Minutes;
    var tf, o, cf := cfg.tfNs, c.openNs, RelConfig(cfg);
    NextOnGrid(a, tf, f);
    OfferKeeps(a, cf, f, c);
    var b := Release.Offer(a, cf, c).0;
    HeldKeys(a, tf, f);
    HeldKeys(b, tf, f);
    MinutesOfContent(a);
    MinutesOfContent(b);
    if Takes(a, cf, c) {
      assert Minutes(b) == Minutes(a) + {o};
    } else if c.closed && f <= o && o !in a.skipped {
      AlreadyThere(a, cf, f, c);
    }
  }

  lemma AlreadyThere(a: Agg, cf: ValidAggConfig, f: int, c: Candle)
    requires Good(a, cf.tfNs, f) && Covered(a, cf.tfNs, f, []) && a.next.Some?
    requires Accepts(cf, c) && c.closed && f <= c.openNs && OnGrid(f, cf.tfNs, c.openNs) && c.openNs !in a.skipped
             && !Takes(a, cf, c)
    ensures c.openNs in Minutes(a)
  {
    assert a.log + [] == a.log;
  }

  lemma OfferLog(a: Agg, cfg: ValidPipeConfig, origin: Option<int>, c: Candle)
    requires ReleaseOk(a, cfg.tfNs, origin)
    requires c.tf == cfg.tf && c.instrument == cfg.instrument
             && (origin.Some? ==> OnGrid(origin.value, cfg.tfNs, c.openNs))
    ensures Release.Offer(a, RelConfig(cfg), c).0.log == a.log + Release.Offer(a, RelConfig(cfg), c).1
  {
    var f := if origin.Some? then origin.value else c.openNs;
    assert OnGrid(c.openNs, cfg.tfNs, c.openNs);
    assert a == Fresh(None) ==> a.log + [] == [];
    OfferKeeps(a, RelConfig(cfg), f, c);
  }

  lemma SyncFirst(d: Ledger, e: Ledger, b: Agg, tf: int, h: History, c: Candle)
    requires tf > 0 && KlineAcc(d, tf, h.first, h.got, []) && h.first.None?
    requires b.skipped == {} && Minutes(b) == if c.closed then {c.openNs} else {}
    ensures InSync(e, b, tf, SeeKline(h, c))
  {
  }

  lemma SyncLater(d: Ledger, e: Ledger, a: Agg, b: Agg, tf: int, h: History, c: Candle)
    requires tf > 0 && KlineAcc(d, tf, h.first, h.got, []) && KlineAcc(e, tf, h.first, SeeKline(h, c).got, [])
    requires h.first.Some? && InSync(d, a, tf, h)
    requires d.kLo.Some? ==> e.kLo.Some? && d.kLo.value <= e.kLo.value
    requires b.skipped == a.skipped && (c.closed ==> c.openNs !in a.skipped)
    requires Minutes(b) == Minutes(a) + if c.closed && h.first.value <= c.openNs then {c.openNs} else {}
    ensures InSync(e, b, tf, SeeKline(h, c))
  {
    hide KlineAcc;
    SkippedStayMissing(d, e, a, tf, h, SeeKline(h, c));
  }

  /** A candle of the series that was not given up. */
  lemma OwnCandle(p: Pipe, cfg: ValidPipeConfig, cur: Option<int>, h: History, c: Candle, ts: int)
    requires InvWith(p, cfg, cur, h) && c.tf == cfg.tf && c.instrument == cfg.instrument && c.openNs % cfg.tfNs == 0
    requires !(c.closed && IsSkipped(p.agg, c.openNs))
    ensures InvWith(AdmitKline(p, cfg, c, ts), cfg, cur, SeeKline(h, c))
  {
    hide KlineAcc, TradeAcc, QueueOk, Records, Inverse, Evolves, ReleaseOk, InSync, Minutes, Release.Offer, OnKline,
      Prompt,
      OnGrid;
    var tf, h' := cfg.tfNs, SeeKline(h, c);
    OnKlineKeeps(p.det, DetConfig(cfg), h, c, ts);
    OnKlinePrompt(p.det, DetConfig(cfg), h, c, ts);
    var (det, changed) := OnKline(p.det, DetConfig(cfg), c, ts);
    var (agg, out) := Release.Offer(p.agg, RelConfig(cfg), c);
    KlineFirst(p.det, tf, h.first, h.got);
    KlineFirst(det, tf, h'.first, h'.got);
    if p.origin.None? {
      FreshRelease(p.agg, tf);
      FirstCandle(p.agg, cfg, c);
      SyncFirst(p.det, det, agg, tf, h, c);
      OfferLog(p.agg, cfg, None, c);
    } else {
      AlignedOnGrid(p.origin.value, c.openNs, tf);
      LaterCandle(p.agg, cfg, p.origin.value, c);
      OfferLog(p.agg, cfg, p.origin, c);
      if c.closed { NotSkipped(p.det, p.agg, tf, h, p.origin.value, c.openNs); }
      FrontierMoves(p.det, det, changed);
      SyncLater(p.det, det, p.agg, agg, tf, h, c);
    }
    var origin := if p.det.kLo.None? && det.kLo.Some? then Some(c.openNs) else p.origin;
    ReportKeeps(p, cfg, cur, p.(det := det, agg := agg, candles := p.candles + out, origin := origin), changed);
  }

  lemma FreshRelease(a: Agg, tf: int)
    requires tf > 0 && ReleaseOk(a, tf, None)
    ensures a == Fresh(None) && a.skipped == {} && a.log == []
  {
  }

  lemma FrontierMoves(d: Ledger, e: Ledger, out: seq<GapRecord>)
    requires Evolves(d, e, out)
    ensures d.kLo.Some? ==> e.kLo.Some? && d.kLo.value <= e.kLo.value
  {
  }

  lemma NotSkipped(d: Ledger, a: Agg, tf: int, h: History, f: int, o: int)
    requires tf > 0 && KlineAcc(d, tf, h.first, h.got, []) && InSync(d, a, tf, h) && ReleaseOk(a, tf, Some(f))
             && !IsSkipped(a, o)
    ensures o !in a.skipped
  {
    if o in a.skipped {
      SkippedNotThere(d, a, tf, h, o);
      assert false;
    }
  }

  /** Any accepted candle keeps the invariant. */
  lemma AdmitKlineKeeps(p: Pipe, cfg: ValidPipeConfig, cur: Option<int>, h: History, c: Candle, ts: int)
    requires InvWith(p, cfg, cur, h) && (c.tf == cfg.tf ==> c.openNs % cfg.tfNs == 0)
    ensures PipeInv(AdmitKline(p, cfg, c, ts), cfg, cur)
  {
    hide InvWith, Inv, OnTime;
    var own := c.tf == cfg.tf && c.instrument == cfg.instrument;
    var givenUp := c.closed && c.tf == cfg.tf && IsSkipped(p.agg, c.openNs);
    Unpack(p, cfg, cur, h);
    if givenUp {
      OnTimeKeeps(p.det, DetConfig(cfg), h, ts);
      OnTimePrompt(p.det, DetConfig(cfg), h, ts);
      var (det, changed) := OnTime(p.det, DetConfig(cfg), ts);
      GivenUpIgnored(p, cfg, h, c);
      TimePasses(p, cfg, cur, h, h, p.(det := det), changed);
      assert p.candles + [] == p.candles;
      assert InvWith(AdmitKline(p, cfg, c, ts), cfg, cur, h);
    } else if own {
      OwnCandle(p, cfg, cur, h, c, ts);
    } else {
      OnKlineKeeps(p.det, DetConfig(cfg), h, c, ts);
      TimePasses(p, cfg, cur, h, h, p, []);
      assert p.candles + [] == p.candles;
      assert InvWith(AdmitKline(p, cfg, c, ts), cfg, cur, h);
    }
  }

  lemma GivenUpIgnored(p: Pipe, cfg: ValidPipeConfig, h: History, c: Candle)
    requires Inv(p.det, cfg.tfNs, h) && h.first == p.origin && ReleaseOk(p.agg, cfg.tfNs, p.origin)
             && InSync(p.det, p.agg, cfg.tfNs, h)
    requires c.closed && c.tf == cfg.tf && IsSkipped(p.agg, c.openNs)
    ensures Release.Offer(p.agg, RelConfig(cfg), c) == (p.agg, []) && p.det.kLo.Some?
  {
    SkippedNotThere(p.det, p.agg, cfg.tfNs, h, c.openNs);
  }

  /** One event of any kind, from the stream or from REST, keeps the invariant. */
  lemma AdmitKeeps(p: Pipe, cfg: ValidPipeConfig, cur: Option<int>, e: Event)
    requires PipeInv(p, cfg, cur)
    ensures PipeInv(Admit(p, cfg, e), cfg, cur)
  {
    var h :| InvWith(p, cfg, cur, h);
    if !Invalid(cfg, e) {
      var (store, outcome) := Dedup.Offer(p.store, cfg.dedupMax, e);
      var q := p.(store := store);
      SideFields(p, q, cfg, cur, h);
      assert PipeInv(q, cfg, cur);
      if !outcome.Duplicate? && !Stale(q, e) {
        var r := Freshen(q, e);
        SideFields(q, r, cfg, cur, h);
        hide InvWith;
        match e.payload {
          case Kline(c) => AdmitKlineKeeps(r, cfg, cur, h, c, e.tsEvent);
          case Trade(_, _) => AdmitTradeKeeps(r, cfg, cur, h, e, outcome.New?);
          case _ => AdmitOtherKeeps(r, cfg, cur, h, e.tsEvent);
        }
      }
    }
  }

  lemma SideFields(p: Pipe, q: Pipe, cfg: ValidPipeConfig, cur: Option<int>, h: History)
    requires InvWith(p, cfg, cur, h)
    requires q == p.(store := q.store, lastBook := q.lastBook, lastMark := q.lastMark, trades := q.trades,
             gapLog := q.gapLog)
    ensures InvWith(q, cfg, cur, h)
  {
    hide Inv, ReleaseOk, InSync;
    forall g | g in q.det.gaps && g !in q.toFill && cur != Some(g) ensures Done(q, cfg, g) {
      assert Done(p, cfg, g);
    }
  }

  lemma {:induction false} AdmitAllKeeps(p: Pipe, cfg: ValidPipeConfig, cur: Option<int>, es: seq<Event>)
    requires PipeInv(p, cfg, cur)
    ensures PipeInv(AdmitAll(p, cfg, es), cfg, cur)
    decreases |es|
  {
    if es != [] {
      AdmitKeeps(p, cfg, cur, es[0]);
      AdmitAllKeeps(Admit(p, cfg, es[0]), cfg, cur, es[1..]);
    }
  }

  // ---------------------------------------------------------------- giving minutes up

  /** Everything but the treatment of gap `g`, whose minutes are being given up. */
  ghost predicate InvBut(p: Pipe, cfg: ValidPipeConfig, h: History) {
    && Inv(p.det, cfg.tfNs, h) && h.first == p.origin && Prompt(p.det, DetConfig(cfg), p.origin)
    && ReleaseOk(p.agg, cfg.tfNs, p.origin) && (p.origin.Some? ==> p.origin.value % cfg.tfNs == 0)
    && InSync(p.det, p.agg, cfg.tfNs, h)
    && p.candles == p.agg.log
  }

  /** A missing minute is not there, so giving it up marks it and keeps everything else. */
  lemma GiveUpOne(p: Pipe, cfg: ValidPipeConfig, h: History, m: int)
    requires InvBut(p, cfg, h) && (Klines, m) in p.det.owner
    ensures var (agg, out) := Skip(p.agg, RelConfig(cfg), m, m);
            && InvBut(p.(agg := agg, candles := p.candles + out), cfg, h) && agg.skipped == p.agg.skipped + {m}
            && Content(agg, []) == Content(p.agg, [])
  {
    var tf, a := cfg.tfNs, p.agg;
    MissingNotThere(p.det, a, tf, h, m);
    var f := h.first.value;
    MarkOne(a, cfg, m, tf, f);
    hide KlineAcc, TradeAcc, Records, Inverse, Ordered, Covered, Content, OnGrid, Skip, GiveUp, Minutes, InSync;
    NextOnGrid(a, tf, f);
    SkipKeeps(a, RelConfig(cfg), f, m, m);
    var (b, out) := Skip(a, RelConfig(cfg), m, m);
    HeldKeys(a, tf, f);
    HeldKeys(b, tf, f);
    MinutesOfContent(a);
    MinutesOfContent(b);
    SyncSkip(p.det, a, b, tf, h, m);
  }

  lemma SyncSkip(d: Ledger, a: Agg, b: Agg, tf: int, h: History, m: int)
    requires tf > 0 && InSync(d, a, tf, h) && (Klines, m) in d.owner && Minutes(b) == Minutes(a)
             && b.skipped == a.skipped + {m}
    ensures InSync(d, b, tf, h)
  {
  }

  lemma MissingNotThere(d: Ledger, a: Agg, tf: int, h: History, m: int)
    requires tf > 0 && Inv(d, tf, h) && InSync(d, a, tf, h) && (Klines, m) in d.owner
    ensures h.first.Some? && h.first.value <= m && OnGrid(h.first.value, tf, m) && m !in Minutes(a)
  {
    assert ExactlyOne(m in h.got, (Klines, m) in d.owner, m in []);
  }

  lemma MarkOne(a: Agg, cfg: ValidPipeConfig, m: int, tf: int, f: int)
    requires tf > 0 && ReleaseOk(a, tf, Some(f)) && m !in Minutes(a)
    ensures GiveUp(a, RelConfig(cfg), m, m).skipped == a.skipped + {m}
  {
    MarkKeeps(a, RelConfig(cfg), m, m);
  }

  lemma HeadAndTail(keys: seq<int>)
    requires keys != []
    ensures (set x | x in keys) == {keys[0]} + set x | x in keys[1..]
  {
    assert keys == [keys[0]] + keys[1..];
  }

  lemma {:induction false} SkipKeysKeeps(p: Pipe, cfg: ValidPipeConfig, h: History, keys: seq<int>)
    requires InvBut(p, cfg, h) && forall m | m in keys :: (Klines, m) in p.det.owner
    ensures var q := SkipKeys(p, cfg, keys);
            && InvBut(q, cfg, h) && q == p.(agg := q.agg, candles := q.candles)
            && q.agg.skipped == p.agg.skipped + (set m | m in keys) && Content(q.agg, []) == Content(p.agg, [])
    decreases |keys|
  {
    if keys != [] {
      hide InvBut, Skip, Content;
      var m := keys[0];
      assert m in keys;
      GiveUpOne(p, cfg, h, m);
      var (agg, out) := Skip(p.agg, RelConfig(cfg), m, m);
      assert forall x | x in keys[1..] :: x in keys;
      SkipKeysKeeps(p.(agg := agg, candles := p.candles + out), cfg, h, keys[1..]);
      HeadAndTail(keys);
    }
  }

  /** Giving up the rest of gap `gid` settles it: no FILLING gap and nothing of it left to wait for. */
  lemma SkipMissingKeeps(p: Pipe, cfg: ValidPipeConfig, h: History, gid: int)
    requires InvBut(p, cfg, h) && gid in p.det.gaps
    ensures var q := SkipMissing(p, cfg, gid);
            && InvBut(q, cfg, h) && q == p.(agg := q.agg, candles := q.candles) && p.agg.skipped <= q.agg.skipped
            && (p.det.gaps[gid].stream.Klines? ==> p.det.missing[gid] <= q.agg.skipped)
            && Content(q.agg, []) == Content(p.agg, [])
  {
    hide Content;
    if p.det.gaps[gid].stream.Klines? {
      SkipKeysKeeps(p, cfg, h, SortedKeys(p.det.missing[gid]));
    }
  }

  // ---------------------------------------------------------------- attempts

  /** The queue while gap `gid` has been taken from it but is neither being filled nor settled. */
  ghost predicate QueueWithout(p: Pipe, cfg: ValidPipeConfig, gid: int) {
    && p.det.gaps.Keys == p.det.missing.Keys && gid in p.det.gaps
    && (forall i, j | 0 <= i < j < |p.toFill| :: p.toFill[i] != p.toFill[j])
    && (forall g | g in p.toFill :: g in p.det.gaps && (p.det.gaps[g].status.Open? || p.det.gaps[g].status.Filled?)
                                    && p.det.gaps[g].attempts == 0 && g < p.det.nextId && g != gid)
    && (forall g | g in p.det.gaps && g != gid :: !p.det.gaps[g].status.Filling?)
    && (forall g | g in p.det.gaps :: p.det.gaps[g].attempts <= 1)
    && forall g | g in p.det.gaps && g !in p.toFill && g != gid :: Done(p, cfg, g)
  }

  lemma Settle(p: Pipe, q: Pipe, cfg: ValidPipeConfig, gid: int, h: History)
    requires QueueWithout(p, cfg, gid) && InvBut(q, cfg, h) && !p.det.gaps[gid].status.Filling?
    requires q == p.(agg := q.agg, candles := q.candles) && p.agg.skipped <= q.agg.skipped && Done(q, cfg, gid)
    ensures InvWith(q, cfg, None, h)
  {
    hide Inv, ReleaseOk, InSync;
    forall g | g in q.det.gaps && g !in q.toFill ensures Done(q, cfg, g) {
      if g != gid { assert Done(p, cfg, g); }
    }
  }

  lemma TakeHead(p: Pipe, cfg: ValidPipeConfig, h: History)
    requires InvWith(p, cfg, None, h) && p.toFill != []
    ensures var gid, q := p.toFill[0], p.(toFill := p.toFill[1..]);
            && InvBut(q, cfg, h) && QueueWithout(q, cfg, gid)
            && (q.det.gaps[gid].status.Open? || q.det.gaps[gid].status.Filled?) && q.det.gaps[gid].attempts == 0
  {
    hide Inv, ReleaseOk, InSync;
    var gid, rest := p.toFill[0], p.toFill[1..];
    var q := p.(toFill := rest);
    assert gid in p.toFill;
    assert p.toFill == [gid] + rest;
    forall g | g in rest ensures g != gid {
      var i :| 0 <= i < |rest| && rest[i] == g;
      assert p.toFill[i + 1] == g;
    }
    forall i, j | 0 <= i < j < |rest| ensures rest[i] != rest[j] {
      assert p.toFill[i + 1] != p.toFill[j + 1];
    }
    forall g | g in q.det.gaps && g !in q.toFill && g != gid ensures Done(q, cfg, g) {
      assert Done(p, cfg, g);
    }
  }

  lemma PopIdleKeeps(p: Pipe, cfg: ValidPipeConfig)
    requires PipeInv(p, cfg, None) && p.toFill != [] && NoRequest(p, cfg)
    ensures PipeInv(PopIdle(p, cfg), cfg, None)
  {
    var h :| InvWith(p, cfg, None, h);
    TakeHead(p, cfg, h);
    var gid, q := p.toFill[0], p.(toFill := p.toFill[1..]);
    hide InvWith, InvBut;
    if q.det.gaps[gid].status.Filled? {
      FilledHasNothing(q, cfg, h, gid);
      Settle(q, q, cfg, gid, h);
    } else {
      SkipMissingKeeps(q, cfg, h, gid);
      Settle(q, SkipMissing(q, cfg, gid), cfg, gid, h);
    }
  }

  lemma FilledHasNothing(p: Pipe, cfg: ValidPipeConfig, h: History, gid: int)
    requires InvBut(p, cfg, h) && gid in p.det.gaps && p.det.gaps[gid].status.Filled?
    ensures gid in p.det.missing && p.det.missing[gid] == {}
  {
    assert RecordOk(p.det.gaps[gid], p.det.missing[gid]);
  }

  lemma BeginKeeps(p: Pipe, cfg: ValidPipeConfig, h: History, gid: int)
    requires InvBut(p, cfg, h) && QueueWithout(p, cfg, gid) && p.det.gaps[gid].status.Open?
             && p.det.gaps[gid].attempts == 0
    ensures InvWith(BeginAttempt(p, gid), cfg, Some(gid), h)
  {
    hide ReleaseOk, KlineAcc, TradeAcc, Records, Minutes;
    BeginFillKeeps(p.det, cfg.tfNs, h, gid);
    var q := BeginAttempt(p, gid);
    forall g | g in q.det.gaps && g !in q.toFill && g != gid ensures Done(q, cfg, g) {
      assert Done(p, cfg, g);
    }
  }

  /** `resolve` is called on a FILLING gap, so it is legal; what it leaves missing is given up. */
  lemma EndKeeps(p: Pipe, cfg: ValidPipeConfig, gid: int)
    requires PipeInv(p, cfg, Some(gid))
    ensures PipeInv(EndAttempt(p, cfg, gid), cfg, None)
  {
    var h :| InvWith(p, cfg, Some(gid), h);
    ResolveStep(p, cfg, h, gid);
    var det := Resolve(p.det, gid);
    var q := p.(det := det, gapLog := p.gapLog + [det.gaps[gid]]);
    hide InvWith, InvBut, Resolve;
    if det.gaps[gid].status.Filled? {
      FilledHasNothing(q, cfg, h, gid);
      Settle(q, q, cfg, gid, h);
    } else {
      SkipMissingKeeps(q, cfg, h, gid);
      Settle(q, SkipMissing(q, cfg, gid), cfg, gid, h);
    }
  }

  lemma ResolveStep(p: Pipe, cfg: ValidPipeConfig, h: History, gid: int)
    requires InvWith(p, cfg, Some(gid), h)
    ensures var det := Resolve(p.det, gid);
            && gid in det.gaps
            && InvBut(p.(det := det, gapLog := p.gapLog + [det.gaps[gid]]), cfg, h)
            && QueueWithout(p.(det := det, gapLog := p.gapLog + [det.gaps[gid]]), cfg, gid)
            && !det.gaps[gid].status.Filling? && !det.gaps[gid].status.Open?
  {
    hide ReleaseOk, KlineAcc, TradeAcc, Records, Minutes;
    ResolveKeeps(p.det, cfg.tfNs, h, gid);
    var det := Resolve(p.det, gid);
    var q := p.(det := det, gapLog := p.gapLog + [det.gaps[gid]]);
    forall g | g in q.det.gaps && g !in q.toFill && g != gid ensures Done(q, cfg, g) {
      assert Done(p, cfg, g);
    }
  }

  /** One attempt, whatever the hook returns. */
  lemma AttemptKeeps(p: Pipe, cfg: ValidPipeConfig, reply: seq<Event>)
    requires PipeInv(p, cfg, None) && p.toFill != [] && !NoRequest(p, cfg)
    ensures PipeInv(Attempt(p, cfg, reply), cfg, None)
  {
    var h :| InvWith(p, cfg, None, h);
    TakeHead(p, cfg, h);
    var gid, q := p.toFill[0], p.(toFill := p.toFill[1..]);
    hide InvWith, InvBut;
    BeginKeeps(q, cfg, h, gid);
    AdmitAllKeeps(BeginAttempt(q, gid), cfg, Some(gid), reply);
    EndKeeps(AdmitAll(BeginAttempt(q, gid), cfg, reply), cfg, gid);
  }

  lemma {:induction false} FillLoopKeeps(p: Pipe, cfg: ValidPipeConfig, replies: seq<seq<Event>>)
    requires PipeInv(p, cfg, None)
    ensures PipeInv(FillLoop(p, cfg, replies).0, cfg, None) && FillLoop(p, cfg, replies).0.toFill == []
    decreases |replies|, |p.toFill|
  {
    hide PipeInv, Attempt, PopIdle;
    if p.toFill != [] {
      if NoRequest(p, cfg) {
        PopIdleKeeps(p, cfg);
        IdleShrinks(p, cfg);
        FillLoopKeeps(PopIdle(p, cfg), cfg, replies);
      } else if replies == [] {
        AttemptKeeps(p, cfg, []);
        EmptyAttemptShrinks(p, cfg);
        FillLoopKeeps(Attempt(p, cfg, []), cfg, []);
      } else {
        AttemptKeeps(p, cfg, replies[0]);
        FillLoopKeeps(Attempt(p, cfg, replies[0]), cfg, replies[1..]);
      }
    }
  }

  lemma IdleShrinks(p: Pipe, cfg: ValidPipeConfig)
    requires p.toFill != [] && NoRequest(p, cfg)
    ensures PopIdle(p, cfg).toFill == p.toFill[1..]
  {
    SkipMissingQueue(p.(toFill := p.toFill[1..]), cfg, p.toFill[0]);
  }

  lemma EmptyAttemptShrinks(p: Pipe, cfg: ValidPipeConfig)
    requires p.toFill != []
    ensures Attempt(p, cfg, []).toFill == p.toFill[1..]
  {
    var gid := p.toFill[0];
    var q := BeginAttempt(p.(toFill := p.toFill[1..]), gid);
    var r := q.(det := Resolve(q.det, gid),
                gapLog := q.gapLog + if gid in Resolve(q.det, gid).gaps then [Resolve(q.det, gid).gaps[gid]] else []);
    SkipMissingQueue(r, cfg, gid);
  }

  // ---------------------------------------------------------------- whole sessions

  lemma StartKeeps(cfg: ValidPipeConfig)
    ensures PipeInv(START, cfg, None)
  {
    var h := History(None, {}, None, {});
    assert START.agg.log + [] == [];
    assert InvWith(START, cfg, None, h);
  }

  lemma FlushReportKeeps(p: Pipe, cfg: ValidPipeConfig)
    requires PipeInv(p, cfg, None)
    ensures var (det, changed) := Flush(p.det, DetConfig(cfg)); PipeInv(Report(p.(det := det), changed), cfg, None)
  {
    var h :| InvWith(p, cfg, None, h);
    hide InvWith, Inv;
    Unpack(p, cfg, None, h);
    ConfirmKeeps(p.det, DetConfig(cfg), true, h);
    FlushPrompt(p.det, DetConfig(cfg), h);
    var (det, changed) := Flush(p.det, DetConfig(cfg));
    TimePasses(p, cfg, None, h, h, p.(det := det), changed);
    assert InvWith(Report(p.(det := det), changed), cfg, None, h);
  }

  lemma ProcessKeeps(p: Pipe, cfg: ValidPipeConfig, replies: seq<seq<Event>>, item: Item)
    requires PipeInv(p, cfg, None) && p.toFill == []
    ensures var q := Process(p, cfg, replies, item).0; PipeInv(q, cfg, None) && q.toFill == []
  {
    hide PipeInv;
    match item {
      case Arrival(e) =>
        AdmitKeeps(p, cfg, None, e);
        FillLoopKeeps(Admit(p, cfg, e), cfg, replies);
      case Dropped(market) =>
        if market {
          FlushReportKeeps(p, cfg);
          var (det, changed) := Flush(p.det, DetConfig(cfg));
          FillLoopKeeps(Report(p.(det := det), changed), cfg, replies);
        }
    }
  }

  /** Every session, whatever arrives and whatever the backfill hook answers. */
  lemma {:induction false} RunKeeps(cfg: ValidPipeConfig, replies: seq<seq<Event>>, items: seq<Item>)
    ensures var p := Run(cfg, replies, items).0; PipeInv(p, cfg, None) && p.toFill == []
  {
    if items == [] {
      StartKeeps(cfg);
    } else {
      hide PipeInv;
      RunKeeps(cfg, replies, items[..|items| - 1]);
      var (p, rest) := Run(cfg, replies, items[..|items| - 1]);
      ProcessKeeps(p, cfg, rest, items[|items| - 1]);
    }
  }

  // ---------------------------------------------------------------- what the invariant means

  /** A minute of the session that the detector has settled. */
  ghost predicate Settled(p: Pipe, cfg: ValidPipeConfig, m: int) {
    p.origin.Some? && p.det.kLo.Some? && p.origin.value <= m < p.det.kLo.value && OnGrid(p.origin.value, cfg.tfNs, m)
  }

  ghost predicate Listed(p: Pipe, m: int) {
    p.det.gaps.Keys == p.det.missing.Keys && !MissingNowhere(p.det, Klines, m)
  }

  /** At any moment, also in the middle of a fill: a settled minute is off the ledger exactly when it was delivered or
      is held, and a minute that was given up stays on the ledger. */
  lemma LedgerMatchesRelease(p: Pipe, cfg: ValidPipeConfig, cur: Option<int>, m: int)
    requires PipeInv(p, cfg, cur)
    ensures Settled(p, cfg, m) ==> (Listed(p, m) <==> m !in Minutes(p.agg))
    ensures m in p.agg.skipped ==> Listed(p, m)
  {
    var h :| InvWith(p, cfg, cur, h);
    MissingIsOwned(p.det, Klines, m);
    if Settled(p, cfg, m) {
      assert ExactlyOne(m in h.got, (Klines, m) in p.det.owner, m in []);
    }
  }

  /** Between items the release frontier has reached the settle frontier: nothing settled is withheld. */
  lemma NothingWithheld(p: Pipe, cfg: ValidPipeConfig)
    requires PipeInv(p, cfg, None) && p.toFill == []
    ensures p.det.kLo.Some? <==> p.agg.next.Some?
    ensures p.det.kLo.Some? ==> p.det.kLo.value <= p.agg.next.value
  {
    var h :| InvWith(p, cfg, None, h);
    KlineFirst(p.det, cfg.tfNs, h.first, h.got);
    if p.det.kLo.Some? && p.agg.next.value < p.det.kLo.value {
      var n := p.agg.next.value;
      assert p.agg.log + [] == p.agg.log;
      assert n !in Minutes(p.agg);
      assert ExactlyOne(n in h.got, (Klines, n) in p.det.owner, n in []);
      MissingIsGivenUp(p, cfg, h, n);
      assert false;
    }
  }

  /** Between items, whatever the ledger lists has been given up by the release. */
  lemma MissingIsGivenUp(p: Pipe, cfg: ValidPipeConfig, h: History, n: int)
    requires InvWith(p, cfg, None, h) && p.toFill == [] && (Klines, n) in p.det.owner
    ensures n in p.agg.skipped
  {
    var k := (Klines, n);
    var g := p.det.owner[k];
    assert g in p.det.gaps && p.det.gaps[g].stream == k.0 && k.1 in p.det.missing[g];
    assert Done(p, cfg, g);
  }

  /** The ledger never lies: between items of any session a settled minute is delivered or listed as missing, never
      both. */
  lemma LedgerNeverLies(cfg: ValidPipeConfig, replies: seq<seq<Event>>, items: seq<Item>, m: int)
    ensures var p := Run(cfg, replies, items).0;
            Settled(p, cfg, m) ==> (Listed(p, m) <==> m !in Opens(p.candles))
  {
    var p := Run(cfg, replies, items).0;
    RunKeeps(cfg, replies, items);
    LedgerMatchesRelease(p, cfg, None, m);
    NothingWithheld(p, cfg);
    HeldBeyond(p, cfg, None);
  }

  /** Between items of any session a minute of the series is settled exactly if it closed at least a grace period before
      the latest exchange time seen - so from then on it is delivered or listed as missing - and no candidate hole is
      overdue. */
  lemma SettledInTime(cfg: ValidPipeConfig, replies: seq<seq<Event>>, items: seq<Item>, m: int)
    ensures var p := Run(cfg, replies, items).0;
            && (p.origin.Some? && p.origin.value <= m && OnGrid(p.origin.value, cfg.tfNs, m) ==>
                  && p.det.latest.Some?
                  && (Settled(p, cfg, m) <==> m + cfg.tfNs + cfg.graceNs <= p.det.latest.value)
                  && (m + cfg.tfNs + cfg.graceNs <= p.det.latest.value ==> (Listed(p, m) <==> m !in Opens(p.candles))))
            && forall h | h in p.det.pending ::
                 |h.missing| <= cfg.maxReorder
                 && (if p.det.latest.None? then 0 else p.det.latest.value) - h.created < cfg.graceNs
  {
    var p := Run(cfg, replies, items).0;
    RunKeeps(cfg, replies, items);
    LedgerNeverLies(cfg, replies, items, m);
    hide Run;
    var h :| InvWith(p, cfg, None, h);
    FirstIsFirst(p.det, DetConfig(cfg), h);
    hide Inv, InSync, ReleaseOk, QueueOk, Listed;
    if p.origin.Some? && p.origin.value <= m && OnGrid(p.origin.value, cfg.tfNs, m) {
      OldMinutesSettled(p.det, DetConfig(cfg), h, m);
    }
  }

  lemma HeldBeyond(p: Pipe, cfg: ValidPipeConfig, cur: Option<int>)
    requires PipeInv(p, cfg, cur)
    ensures p.candles == p.agg.log && Increasing(p.candles) && !p.det.fault
    ensures forall o | o in p.agg.held :: p.agg.next.Some? && p.agg.next.value <= o
  {
    var h :| InvWith(p, cfg, cur, h);
    assert p.agg.log + [] == p.agg.log;
  }

  /** Candles reach the consumer in strictly increasing order, each minute at most once, at every moment. */
  lemma DeliveredInOrderOnce(cfg: ValidPipeConfig, replies: seq<seq<Event>>, items: seq<Item>)
    ensures Increasing(Run(cfg, replies, items).0.candles)
  {
    RunKeeps(cfg, replies, items);
    HeldBeyond(Run(cfg, replies, items).0, cfg, None);
  }

  /** No session raises on an illegal transition; FILLED means nothing missing and nothing missing means FILLED;
      each gap is tried at most once, and with a hook present none is left OPEN or FILLING. */
  lemma StatusesAreTrue(cfg: ValidPipeConfig, replies: seq<seq<Event>>, items: seq<Item>)
    ensures var d := Run(cfg, replies, items).0.det;
            && !d.fault && Inverse(d)
            && forall g | g in d.gaps ::
                 && (d.gaps[g].status.Filled? <==> d.missing[g] == {})
                 && (d.gaps[g].status.Filled? ==> d.gaps[g].filledRows == d.gaps[g].expected)
                 && d.gaps[g].attempts <= 1 && !d.gaps[g].status.Filling?
                 && (cfg.hasBackfill ==> !d.gaps[g].status.Open?)
  {
    RunKeeps(cfg, replies, items);
    var p := Run(cfg, replies, items).0;
    hide Run;
    var h :| InvWith(p, cfg, None, h);
    hide ReleaseOk, InSync, KlineAcc, TradeAcc;
    forall g | g in p.det.gaps
      ensures (p.det.gaps[g].status.Filled? <==> p.det.missing[g] == {})
              && (p.det.gaps[g].status.Filled? ==> p.det.gaps[g].filledRows == p.det.gaps[g].expected)
              && (cfg.hasBackfill ==> !p.det.gaps[g].status.Open?)
    {
      assert RecordOk(p.det.gaps[g], p.det.missing[g]);
      assert Done(p, cfg, g);
    }
  }

  /** Every minute in the range of a gap is settled. */
  lemma GapRangeSettled(p: Pipe, cfg: ValidPipeConfig, cur: Option<int>, g: int, m: int)
    requires PipeInv(p, cfg, cur) && g in p.det.gaps && p.det.gaps[g].stream.Klines?
    requires p.det.gaps[g].tsLo <= m <= p.det.gaps[g].tsHi && p.origin.Some? && OnGrid(p.origin.value, cfg.tfNs, m)
    ensures Settled(p, cfg, m) && (Listed(p, m) ==> p.det.gaps.Keys == p.det.missing.Keys && m in p.det.missing[g])
  {
    var h :| InvWith(p, cfg, cur, h);
    assert RangeOk(p.det, cfg.tfNs, p.origin.value, [], g);
    MissingIsOwned(p.det, Klines, m);
  }

  /** A FILLED kline gap covers only minutes that the consumer received. */
  lemma FilledMeansDelivered(cfg: ValidPipeConfig, replies: seq<seq<Event>>, items: seq<Item>, g: int, m: int)
    requires var p := Run(cfg, replies, items).0;
             && g in p.det.gaps && p.det.gaps[g].stream.Klines? && p.det.gaps[g].status.Filled?
             && p.det.gaps[g].tsLo <= m <= p.det.gaps[g].tsHi && p.origin.Some? && OnGrid(p.origin.value, cfg.tfNs, m)
    ensures m in Opens(Run(cfg, replies, items).0.candles)
  {
    var p := Run(cfg, replies, items).0;
    RunKeeps(cfg, replies, items);
    LedgerNeverLies(cfg, replies, items, m);
    StatusesAreTrue(cfg, replies, items);
    GapRangeSettled(p, cfg, None, g, m);
  }

  /** The end of a session: everything held is delivered in order, and the final ledger still tells the truth. */
  lemma FinalReport(cfg: ValidPipeConfig, replies: seq<seq<Event>>, items: seq<Item>, m: int)
    ensures var (p, rest) := Run(cfg, replies, items);
            var q := Finish(p, cfg, rest);
            && Increasing(q.candles) && !q.det.fault && q.agg.held == map[]
            && (Settled(q, cfg, m) ==> (Listed(q, m) <==> m !in Opens(q.candles)))
  {
    var (p, rest) := Run(cfg, replies, items);
    RunKeeps(cfg, replies, items);
    hide Run;
    FlushReportKeeps(p, cfg);
    var (det, changed) := Flush(p.det, DetConfig(cfg));
    FillLoopKeeps(Report(p.(det := det), changed), cfg, rest);
    var r := FillLoop(Report(p.(det := det), changed), cfg, rest).0;
    hide FillLoop, Flush;
    FinishStep(r, cfg, m);
  }

  lemma FinishStep(r: Pipe, cfg: ValidPipeConfig, m: int)
    requires PipeInv(r, cfg, None)
    ensures var (agg, out) := FlushAll(r.agg, RelConfig(cfg));
            var q := r.(agg := agg, candles := r.candles + out);
            && Increasing(q.candles) && !q.det.fault && q.agg.held == map[]
            && (Settled(q, cfg, m) ==> (Listed(q, m) <==> m !in Opens(q.candles)))
  {
    hide InvWith, PipeInv, FlushAll, Minutes;
    HeldBeyond(r, cfg, None);
    LedgerMatchesRelease(r, cfg, None, m);
    FlushedLog(r, cfg);
  }

  /** The final flush delivers exactly what was held, in order. */
  lemma FlushedLog(r: Pipe, cfg: ValidPipeConfig)
    requires PipeInv(r, cfg, None)
    ensures var (agg, out) := FlushAll(r.agg, RelConfig(cfg));
            Increasing(agg.log) && agg.log == r.agg.log + out && agg.held == map[] && Opens(agg.log) == Minutes(r.agg)
  {
    var h :| InvWith(r, cfg, None, h);
    var f := if r.origin.Some? then r.origin.value else 0;
    ReleaseOrdered(r.agg, cfg.tfNs, r.origin, f);
    hide InvWith, Ordered, FlushAll, PipeInv, Content, Minutes;
    FlushKeeps(r.agg, RelConfig(cfg), f);
    var agg := FlushAll(r.agg, RelConfig(cfg)).0;
    HeldKeys(r.agg, cfg.tfNs, f);
    MinutesOfContent(r.agg);
    OpensOfSet(agg.log);
  }

  lemma OpensOfSet(log: seq<Candle>)
    ensures Opens(log) == set c | c in (set x | x in log) :: c.openNs
  {
  }

  lemma ReleaseOrdered(a: Agg, tf: int, origin: Option<int>, f: int)
    requires tf > 0 && ReleaseOk(a, tf, origin) && (origin.Some? ==> f == origin.value)
    ensures Ordered(a, tf, f, [])
  {
    assert origin.None? ==> a.log + [] == [];
  }

  // ---------------------------------------------------------------- books and mark prices

  /** The newest book update and mark price that were let through. */
  ghost predicate NotOlder(was: Option<int>, now: Option<int>) {
    was.Some? ==> now.Some? && was.value <= now.value
  }

  /** A book update or mark price is let through if and only if it is not older than the newest one so far, which then
      moves on to it; an older one changes nothing but the deduplicator, and other events leave both marks alone. */
  lemma NewestOnly(p: Pipe, cfg: ValidPipeConfig, e: Event)
    requires !Invalid(cfg, e) && !Dedup.Offer(p.store, cfg.dedupMax, e).1.Duplicate?
    ensures var q := Admit(p, cfg, e);
            && NotOlder(p.lastBook, q.lastBook) && NotOlder(p.lastMark, q.lastMark)
            && (e.payload.Book? ==>
                  && q.lastBook.Some? && q.lastBook.value >= e.payload.lastUpdateId && q.lastMark == p.lastMark
                  && (if p.lastBook.Some? && e.payload.lastUpdateId < p.lastBook.value then q == p.(store := q.store)
                      else && q.lastBook.value == e.payload.lastUpdateId
                           && q.det == OnTime(p.det, DetConfig(cfg), e.tsEvent).0))
            && (e.payload.MarkPrice? ==>
                  && q.lastMark.Some? && q.lastMark.value >= e.tsEvent && q.lastBook == p.lastBook
                  && (if p.lastMark.Some? && e.tsEvent < p.lastMark.value then q == p.(store := q.store)
                      else q.lastMark.value == e.tsEvent && q.det == OnTime(p.det, DetConfig(cfg), e.tsEvent).0))
            && (!e.payload.Book? && !e.payload.MarkPrice? ==> q.lastBook == p.lastBook && q.lastMark == p.lastMark)
  {
    hide Dedup.Offer, OnKline, OnTime, OnTrade, Release.Offer;
  }
}
