/** Trades reach the consumer at least once, and again only after the deduplicator has forgotten them. */
module TradeDelivery {
  import opened Base
  import opened Events
  import opened GapLedger
  import opened Ingest
  import IngestProofs
  import Dedup

  /** `key` is the natural key behind the uid hash: the aggTrade id of a trade uid, None for other uids. */
  ghost predicate Keyed(key: int -> Option<int>, e: Event) {
    key(e.uid) == if e.payload.Trade? then Some(e.payload.aggId) else None
  }

  ghost predicate AllKeyed(key: int -> Option<int>, es: seq<Event>) {
    forall e | e in es :: Keyed(key, e)
  }

  ghost predicate SessionKeyed(key: int -> Option<int>, replies: seq<seq<Event>>, items: seq<Item>) {
    && (forall i | 0 <= i < |replies| :: AllKeyed(key, replies[i]))
    && (forall x | x in items && x.Arrival? :: Keyed(key, x.e))
    && forall u, v :: key(u).Some? && key(u) == key(v) ==> u == v
  }

  /** The trade uids among `inserted`, in order. */
  ghost function TradeUids(inserted: seq<int>, key: int -> Option<int>): seq<int> {
    if inserted == [] then []
    else
      var n := |inserted| - 1;
      TradeUids(inserted[..n], key) + if key(inserted[n]).Some? then [inserted[n]] else []
  }

  function UidsOf(ts: seq<Event>): (us: seq<int>)
    ensures |us| == |ts| && forall i | 0 <= i < |ts| :: us[i] == ts[i].uid
  {
    if ts == [] then [] else UidsOf(ts[..|ts| - 1]) + [ts[|ts| - 1].uid]
  }

  /** The consumer has received, in order, exactly the trades that the deduplicator stored as new. */
  ghost predicate TradeInv(p: Pipe, cfg: ValidPipeConfig, key: int -> Option<int>) {
    && Dedup.Windowed(p.store, cfg.dedupMax)
    && UidsOf(p.trades) == TradeUids(p.store.inserted, key)
    && forall t | t in p.trades :: t.payload.Trade? && Keyed(key, t)
  }

  ghost predicate Delivered(p: Pipe, u: int) {
    exists t :: t in p.trades && t.uid == u
  }

  /** Later states deliver at least what earlier ones did. */
  ghost predicate Extends(p: Pipe, q: Pipe) {
    p.trades <= q.trades
  }

  lemma {:induction false} TradeUidsHas(inserted: seq<int>, key: int -> Option<int>, u: int)
    requires u in inserted && key(u).Some?
    ensures u in TradeUids(inserted, key)
  {
    var n := |inserted| - 1;
    assert inserted == inserted[..n] + [inserted[n]];
    if u != inserted[n] {
      TradeUidsHas(inserted[..n], key, u);
    }
  }

  lemma StoredIsDelivered(p: Pipe, cfg: ValidPipeConfig, key: int -> Option<int>, u: int)
    requires TradeInv(p, cfg, key) && u in p.store.inserted && key(u).Some?
    ensures Delivered(p, u)
  {
    TradeUidsHas(p.store.inserted, key, u);
    var us := UidsOf(p.trades);
    var i :| 0 <= i < |us| && us[i] == u;
    assert p.trades[i] in p.trades;
  }

  lemma AdmitOnce(p: Pipe, cfg: ValidPipeConfig, key: int -> Option<int>, e: Event)
    requires TradeInv(p, cfg, key) && Keyed(key, e)
    ensures var q := Admit(p, cfg, e);
            && TradeInv(q, cfg, key) && Extends(p, q)
            && (!Invalid(cfg, e) && e.payload.Trade? ==> Delivered(q, e.uid))
  {
    var q := Admit(p, cfg, e);
    if !Invalid(cfg, e) {
      Dedup.OfferKeepsWindow(p.store, cfg.dedupMax, e);
      AdmitEffect(p, cfg, e);
      var isNew := Dedup.Offer(p.store, cfg.dedupMax, e).1.New?;
      hide Admit, Dedup.Offer, Dedup.Windowed;
      Appended(p, q, key, e, isNew);
      if e.payload.Trade? {
        RecentIsStored(p.store.inserted, cfg.dedupMax, e.uid);
        assert e.uid in q.store.inserted;
        hide TradeUids, UidsOf;
        StoredIsDelivered(q, cfg, key, e.uid);
      }
    }
  }

  /** What an event does to the store and to the trades delivered. */
  lemma AdmitEffect(p: Pipe, cfg: ValidPipeConfig, e: Event)
    requires !Invalid(cfg, e)
    ensures var (q, offer) := (Admit(p, cfg, e), Dedup.Offer(p.store, cfg.dedupMax, e));
            q.store == offer.0 && q.trades == if offer.1.New? && e.payload.Trade? then p.trades + [e] else p.trades
  {
    hide Dedup.Offer;
  }

  lemma RecentIsStored(inserted: seq<int>, max: Option<nat>, u: int)
    ensures u in Dedup.Recent(inserted, max) ==> u in inserted
  {
  }

  lemma Appended(p: Pipe, q: Pipe, key: int -> Option<int>, e: Event, isNew: bool)
    requires UidsOf(p.trades) == TradeUids(p.store.inserted, key) && Keyed(key, e)
    requires q.store.inserted == if isNew then p.store.inserted + [e.uid] else p.store.inserted
    requires q.trades == if isNew && e.payload.Trade? then p.trades + [e] else p.trades
    ensures UidsOf(q.trades) == TradeUids(q.store.inserted, key)
  {
    assert (p.trades + [e])[..|p.trades|] == p.trades;
    assert (p.store.inserted + [e.uid])[..|p.store.inserted|] == p.store.inserted;
    assert TradeUids(p.store.inserted, key) + [] == TradeUids(p.store.inserted, key);
  }

  lemma {:induction false} AdmitAllOnce(p: Pipe, cfg: ValidPipeConfig, key: int -> Option<int>, es: seq<Event>)
    requires TradeInv(p, cfg, key) && AllKeyed(key, es)
    ensures TradeInv(AdmitAll(p, cfg, es), cfg, key) && Extends(p, AdmitAll(p, cfg, es))
    decreases |es|
  {
    if es != [] {
      var e := es[0];
      assert e in es;
      AdmitOnce(p, cfg, key, e);
      hide Admit;
      AdmitAllOnce(Admit(p, cfg, e), cfg, key, es[1..]);
    }
  }

  lemma SameDelivery(p: Pipe, q: Pipe, cfg: ValidPipeConfig, key: int -> Option<int>)
    requires TradeInv(p, cfg, key) && q.trades == p.trades && q.store == p.store
    ensures TradeInv(q, cfg, key)
  {
  }

  lemma SkipMissingFrame(p: Pipe, cfg: ValidPipeConfig, gid: int)
    ensures var q := SkipMissing(p, cfg, gid); q.trades == p.trades && q.store == p.store
  {
    if gid in p.det.missing {
      SkipKeysQueue(p, cfg, SortedKeys(p.det.missing[gid]));
    }
  }

  lemma EndAttemptFrame(p: Pipe, cfg: ValidPipeConfig, gid: int)
    ensures var q := EndAttempt(p, cfg, gid); q.trades == p.trades && q.store == p.store
  {
    var det := Resolve(p.det, gid);
    SkipMissingFrame(p.(det := det, gapLog := p.gapLog + if gid in det.gaps then [det.gaps[gid]] else []), cfg, gid);
  }

  lemma AttemptOnce(p: Pipe, cfg: ValidPipeConfig, key: int -> Option<int>, reply: seq<Event>)
    requires TradeInv(p, cfg, key) && AllKeyed(key, reply) && p.toFill != []
    ensures TradeInv(Attempt(p, cfg, reply), cfg, key) && Extends(p, Attempt(p, cfg, reply))
  {
    var gid := p.toFill[0];
    var b := BeginAttempt(p.(toFill := p.toFill[1..]), gid);
    SameDelivery(p, b, cfg, key);
    AdmitAllOnce(b, cfg, key, reply);
    var c := AdmitAll(b, cfg, reply);
    EndAttemptFrame(c, cfg, gid);
    SameDelivery(c, EndAttempt(c, cfg, gid), cfg, key);
  }

  lemma {:induction false} FillLoopOnce(p: Pipe, cfg: ValidPipeConfig, key: int -> Option<int>,
      replies: seq<seq<Event>>)
    requires TradeInv(p, cfg, key) && forall i | 0 <= i < |replies| :: AllKeyed(key, replies[i])
    ensures var (q, rest) := FillLoop(p, cfg, replies);
            && TradeInv(q, cfg, key) && Extends(p, q) && forall i | 0 <= i < |rest| :: AllKeyed(key, rest[i])
    decreases |replies|, |p.toFill|
  {
    hide TradeInv, AllKeyed, Attempt;
    if p.toFill != [] {
      if NoRequest(p, cfg) {
        var q := PopIdle(p, cfg);
        SkipMissingFrame(p.(toFill := p.toFill[1..]), cfg, p.toFill[0]);
        SkipMissingQueue(p.(toFill := p.toFill[1..]), cfg, p.toFill[0]);
        SameDelivery(p, q, cfg, key);
        FillLoopOnce(q, cfg, key, replies);
      } else if replies == [] {
        NothingKeyed(key);
        AttemptOnce(p, cfg, key, []);
        IngestProofs.EmptyAttemptShrinks(p, cfg);
        FillLoopOnce(Attempt(p, cfg, []), cfg, key, []);
      } else {
        AttemptOnce(p, cfg, key, replies[0]);
        FillLoopOnce(Attempt(p, cfg, replies[0]), cfg, key, replies[1..]);
      }
    }
  }

  lemma NothingKeyed(key: int -> Option<int>)
    ensures AllKeyed(key, [])
  {
  }

  lemma {:induction false} RunOnce(cfg: ValidPipeConfig, key: int -> Option<int>, replies: seq<seq<Event>>,
      items: seq<Item>)
    requires SessionKeyed(key, replies, items)
    ensures var (p, rest) := Run(cfg, replies, items);
            && TradeInv(p, cfg, key) && (forall i | 0 <= i < |rest| :: AllKeyed(key, rest[i]))
            && forall x | x in items && x.Arrival? && !Invalid(cfg, x.e) && x.e.payload.Trade? :: Delivered(p, x.e.uid)
  {
    if items != [] {
      var n := |items| - 1;
      var init, item := items[..n], items[n];
      assert items == init + [item];
      RunOnce(cfg, key, replies, init);
      var (p, rest) := Run(cfg, replies, init);
      hide Run, TradeInv, AllKeyed, Admit, FillLoop;
      var a := p;
      match item {
        case Arrival(e) =>
          assert Keyed(key, item.e);
          AdmitOnce(p, cfg, key, e);
          a := Admit(p, cfg, e);
          FillLoopOnce(a, cfg, key, rest);
        case Dropped(market) =>
          if market {
            var (det, changed) := Flush(p.det, DetConfig(cfg));
            a := Report(p.(det := det), changed);
            SameDelivery(p, a, cfg, key);
            FillLoopOnce(a, cfg, key, rest);
          }
      }
      var q := Process(p, cfg, rest, item).0;
      forall x | x in items && x.Arrival? && !Invalid(cfg, x.e) && x.e.payload.Trade? ensures Delivered(q, x.e.uid) {
        StaysDelivered(p, a, x.e.uid);
        StaysDelivered(a, q, x.e.uid);
        assert x in init || x == item;
      }
    }
  }

  lemma StaysDelivered(p: Pipe, q: Pipe, u: int)
    requires Extends(p, q)
    ensures Delivered(p, u) ==> Delivered(q, u)
  {
    if Delivered(p, u) {
      var t :| t in p.trades && t.uid == u;
      assert t in q.trades;
    }
  }

  /** Position `i` of the trade uids is position `at` of all uids. */
  lemma {:induction false} TradeUidAt(inserted: seq<int>, key: int -> Option<int>, i: nat) returns (at: nat)
    requires i < |TradeUids(inserted, key)|
    ensures at < |inserted| && inserted[at] == TradeUids(inserted, key)[i]
            && TradeUids(inserted[..at], key) == TradeUids(inserted, key)[..i]
  {
    var n := |inserted| - 1;
    var us := TradeUids(inserted[..n], key);
    if i < |us| {
      at := TradeUidAt(inserted[..n], key, i);
      assert inserted[..n][..at] == inserted[..at];
      assert TradeUids(inserted, key)[..i] == us[..i];
    } else {
      at := n;
      assert TradeUids(inserted, key)[..i] == us;
    }
  }

  /** Equal trade uids come from different positions. */
  lemma TradeUidsSpaced(s: Dedup.Store, key: int -> Option<int>, max: Option<nat>, i: nat, j: nat)
    requires Dedup.Spaced(s.inserted, max) && i < j < |TradeUids(s.inserted, key)|
    requires TradeUids(s.inserted, key)[i] == TradeUids(s.inserted, key)[j]
    ensures Dedup.Forgot(s, max, TradeUids(s.inserted, key)[i])
  {
    var b := TradeUidAt(s.inserted, key, j);
    var a := TradeUidAt(s.inserted[..b], key, i);
    assert s.inserted[..b][a] == s.inserted[a];
  }

  // ---------------------------------------------------------------- delivered twice

  /** The aggTrade id `a` reached the consumer more than once. */
  ghost predicate DeliveredTwice(p: Pipe, a: int) {
    exists i, j :: 0 <= i < j < |p.trades| && p.trades[i].payload.Trade? && p.trades[j].payload.Trade?
                   && p.trades[i].payload.aggId == a == p.trades[j].payload.aggId
  }

  /** The reverse of `TradeUidAt`: where a trade uid stands among the trade uids. */
  lemma {:induction false} TradeUidPlace(inserted: seq<int>, key: int -> Option<int>, at: nat)
    requires at < |inserted| && key(inserted[at]).Some?
    ensures var i := |TradeUids(inserted[..at], key)|;
            i < |TradeUids(inserted, key)| && TradeUids(inserted, key)[i] == inserted[at]
  {
    var n := |inserted| - 1;
    if at < n {
      TradeUidPlace(inserted[..n], key, at);
      assert inserted[..n][..at] == inserted[..at];
    }
  }

  /** A uid that was stored twice stands twice among the trade uids. */
  lemma StoredTwice(inserted: seq<int>, key: int -> Option<int>, a: nat, b: nat)
    requires a < b < |inserted| && inserted[a] == inserted[b] && key(inserted[a]).Some?
    ensures var (us, i, j) := (TradeUids(inserted, key), |TradeUids(inserted[..a], key)|,
            |TradeUids(inserted[..b], key)|);
            i < j < |us| && us[i] == inserted[a] == us[j]
  {
    TradeUidPlace(inserted, key, a);
    TradeUidPlace(inserted, key, b);
    TradeUidPlace(inserted[..b], key, a);
    assert inserted[..b][..a] == inserted[..a];
  }

  /** In every session an aggTrade id is delivered twice if and only if the deduplicator has a size limit and stored the
      trade again after at least that many other uids. */
  lemma TwiceIffForgotten(cfg: ValidPipeConfig, key: int -> Option<int>, replies: seq<seq<Event>>, items: seq<Item>,
      u: int)
    requires SessionKeyed(key, replies, items) && key(u).Some?
    ensures var p := Run(cfg, replies, items).0;
            DeliveredTwice(p, key(u).value) <==> Dedup.Forgot(p.store, cfg.dedupMax, u)
  {
    RunOnce(cfg, key, replies, items);
    var p := Run(cfg, replies, items).0;
    hide Run;
    var s := p.store.inserted;
    if DeliveredTwice(p, key(u).value) {
      var i, j :| 0 <= i < j < |p.trades| && p.trades[i].payload.aggId == key(u).value == p.trades[j].payload.aggId;
      assert p.trades[i] in p.trades && p.trades[j] in p.trades;
      assert Keyed(key, p.trades[i]) && Keyed(key, p.trades[j]);
      assert UidsOf(p.trades)[i] == u == UidsOf(p.trades)[j];
      TradeUidsSpaced(p.store, key, cfg.dedupMax, i, j);
    }
    if Dedup.Forgot(p.store, cfg.dedupMax, u) {
      var a, b :| 0 <= a < b < |s| && s[a] == s[b] == u;
      StoredTwice(s, key, a, b);
      var i, j := |TradeUids(s[..a], key)|, |TradeUids(s[..b], key)|;
      assert p.trades[i] in p.trades && p.trades[j] in p.trades;
      assert Keyed(key, p.trades[i]) && Keyed(key, p.trades[j]);
      assert UidsOf(p.trades)[i] == u == UidsOf(p.trades)[j];
    }
  }

  /** Every valid trade of the stream is delivered, whatever is dropped, repeated, reordered or backfilled. An aggTrade
      id is delivered a second time if and only if the deduplicator has a size limit and, after at least that many other
      uids, stored the trade again. */
  lemma TradesAtLeastOnce(cfg: ValidPipeConfig, key: int -> Option<int>, replies: seq<seq<Event>>, items: seq<Item>)
    requires SessionKeyed(key, replies, items)
    ensures var p := Run(cfg, replies, items).0;
            && (forall t | t in p.trades :: t.payload.Trade? && Keyed(key, t))
            && (forall x | x in items && x.Arrival? && !Invalid(cfg, x.e) && x.e.payload.Trade? ::
                  exists t :: t in p.trades && t.payload.aggId == x.e.payload.aggId)
            && (forall u | key(u).Some? :: DeliveredTwice(p, key(u).value) <==> Dedup.Forgot(p.store, cfg.dedupMax, u))
  {
    RunOnce(cfg, key, replies, items);
    var p := Run(cfg, replies, items).0;
    hide Run;
    forall u | key(u).Some? ensures DeliveredTwice(p, key(u).value) <==> Dedup.Forgot(p.store, cfg.dedupMax, u) {
      TwiceIffForgotten(cfg, key, replies, items, u);
    }
    hide Dedup.Forgot, DeliveredTwice;
    forall x | x in items && x.Arrival? && !Invalid(cfg, x.e) && x.e.payload.Trade?
      ensures exists t :: t in p.trades && t.payload.aggId == x.e.payload.aggId
    {
      assert Delivered(p, x.e.uid);
      var t :| t in p.trades && t.uid == x.e.uid;
      assert Keyed(key, t) && Keyed(key, x.e);
    }
  }

  /** Zero loss, zero repetition: without a size limit, or while at most one more uid than the limit was stored, every
      valid trade of the stream is delivered and no aggTrade id twice. */
  lemma TradesExactlyOnce(cfg: ValidPipeConfig, key: int -> Option<int>, replies: seq<seq<Event>>, items: seq<Item>)
    requires SessionKeyed(key, replies, items)
    requires cfg.dedupMax.None? || |Run(cfg, replies, items).0.store.inserted| <= cfg.dedupMax.value + 1
    ensures var p := Run(cfg, replies, items).0;
            && (forall t | t in p.trades :: t.payload.Trade?)
            && (forall i, j | 0 <= i < j < |p.trades| :: p.trades[i].payload.aggId != p.trades[j].payload.aggId)
            && forall x | x in items && x.Arrival? && !Invalid(cfg, x.e) && x.e.payload.Trade? ::
                 exists t :: t in p.trades && t.payload.aggId == x.e.payload.aggId
  {
    TradesAtLeastOnce(cfg, key, replies, items);
    var p := Run(cfg, replies, items).0;
    hide Run;
    forall i, j | 0 <= i < j < |p.trades| ensures p.trades[i].payload.aggId != p.trades[j].payload.aggId {
      assert p.trades[i] in p.trades && p.trades[j] in p.trades;
      assert key(p.trades[i].uid).Some?;
      assert !Dedup.Forgot(p.store, cfg.dedupMax, p.trades[i].uid);
    }
  }

  // ---------------------------------------------------------------- when a trade comes twice

  /** Seen before the event: after any session the next valid trade is handed on exactly if its uid is not among the
      last ones stored, so it is a repetition exactly if it was stored before and has left that window. */
  lemma NextTradeRepeats(cfg: ValidPipeConfig, key: int -> Option<int>, replies: seq<seq<Event>>, items: seq<Item>,
      e: Event)
    requires SessionKeyed(key, replies, items) && Keyed(key, e) && e.payload.Trade? && !Invalid(cfg, e)
    ensures var p := Run(cfg, replies, items).0;
            && Admit(p, cfg, e).trades == (if e.uid in Dedup.Recent(p.store.inserted, cfg.dedupMax) then p.trades
                 else p.trades + [e])
            && ((exists t :: t in p.trades && t.payload.Trade? && t.payload.aggId == e.payload.aggId)
                 <==> e.uid in p.store.inserted)
  {
    RunOnce(cfg, key, replies, items);
    var p := Run(cfg, replies, items).0;
    hide Run;
    Dedup.OfferKeepsWindow(p.store, cfg.dedupMax, e);
    AdmitEffect(p, cfg, e);
    hide Admit, Dedup.Offer, TradeInv;
    StoredIffDelivered(p, cfg, key, e);
  }

  lemma StoredIffDelivered(p: Pipe, cfg: ValidPipeConfig, key: int -> Option<int>, e: Event)
    requires TradeInv(p, cfg, key) && Keyed(key, e) && e.payload.Trade?
    requires forall u, v :: key(u).Some? && key(u) == key(v) ==> u == v
    ensures (exists t :: t in p.trades && t.payload.Trade? && t.payload.aggId == e.payload.aggId)
            <==> e.uid in p.store.inserted
  {
    hide Dedup.Windowed, TradeUids, UidsOf;
    if e.uid in p.store.inserted {
      StoredIsDelivered(p, cfg, key, e.uid);
      var t :| t in p.trades && t.uid == e.uid;
      assert Keyed(key, t);
    }
    if t :| t in p.trades && t.payload.Trade? && t.payload.aggId == e.payload.aggId {
      assert Keyed(key, t);
      var i :| 0 <= i < |p.trades| && p.trades[i] == t;
      assert UidsOf(p.trades)[i] == e.uid;
      var at := TradeUidAt(p.store.inserted, key, i);
    }
  }

  /** Without a backfill hook a fill loop only gives minutes up. */
  lemma {:induction false} IdleLoop(p: Pipe, cfg: ValidPipeConfig, replies: seq<seq<Event>>)
    requires !cfg.hasBackfill
    ensures var q := FillLoop(p, cfg, replies).0; q.trades == p.trades && q.store == p.store
    decreases |p.toFill|
  {
    if p.toFill != [] {
      SkipMissingFrame(p.(toFill := p.toFill[1..]), cfg, p.toFill[0]);
      SkipMissingQueue(p.(toFill := p.toFill[1..]), cfg, p.toFill[0]);
      IdleLoop(PopIdle(p, cfg), cfg, replies);
    }
  }

  function SomeTrade(a: int): Event {
    Event(a, a, 1, 0, 0, true, Trade("", a))
  }

  /** The trades 0, 1, ..., n - 1, one after the other. */
  function Numbered(n: nat): (items: seq<Item>)
    ensures |items| == n && forall i | 0 <= i < n :: items[i] == Arrival(SomeTrade(i))
  {
    if n == 0 then [] else Numbered(n - 1) + [Arrival(SomeTrade(n - 1))]
  }

  /** The trades 0, 1, ..., n - 1 were stored and delivered. */
  ghost predicate Counted(p: Pipe, cfg: ValidPipeConfig, n: nat) {
    && Dedup.Windowed(p.store, cfg.dedupMax) && |p.store.inserted| == |p.trades| == n
    && forall i | 0 <= i < n :: p.store.inserted[i] == i && p.trades[i] == SomeTrade(i)
  }

  lemma NotYetStored(p: Pipe, cfg: ValidPipeConfig, n: nat)
    requires Counted(p, cfg, n)
    ensures n !in Dedup.Recent(p.store.inserted, cfg.dedupMax)
    ensures cfg.dedupMax.Some? && n == cfg.dedupMax.value + 1 ==> 0 !in Dedup.Recent(p.store.inserted, cfg.dedupMax)
  {
    hide Dedup.Windowed;
  }

  lemma {:induction false} NumberedRun(cfg: ValidPipeConfig, n: nat)
    requires !cfg.hasBackfill
    ensures Counted(Run(cfg, [], Numbered(n)).0, cfg, n)
  {
    hide Run, Counted, Dedup.Windowed, Dedup.Recent, Dedup.Offer;
    if n == 0 {
      NothingRun(cfg);
    } else {
      NumberedRun(cfg, n - 1);
      NumberedNext(cfg, n - 1);
    }
  }

  lemma NothingRun(cfg: ValidPipeConfig)
    ensures Counted(Run(cfg, [], []).0, cfg, 0)
  {
  }

  lemma NumberedNext(cfg: ValidPipeConfig, n: nat)
    requires !cfg.hasBackfill && Counted(Run(cfg, [], Numbered(n)).0, cfg, n)
    ensures Counted(Run(cfg, [], Numbered(n + 1)).0, cfg, n + 1)
  {
    hide Run, Dedup.Windowed, Dedup.Recent, Dedup.Offer;
    var p := Run(cfg, [], Numbered(n)).0;
    NotYetStored(p, cfg, n);
    NextArrival(cfg, Numbered(n), SomeTrade(n));
  }

  /** Without a hook, a valid trade after any session whose store is a window. */
  lemma NextArrival(cfg: ValidPipeConfig, items: seq<Item>, e: Event)
    requires !cfg.hasBackfill && !Invalid(cfg, e) && e.payload.Trade?
    requires Dedup.Windowed(Run(cfg, [], items).0.store, cfg.dedupMax)
    ensures var (p, q) := (Run(cfg, [], items).0, Run(cfg, [], items + [Arrival(e)]).0);
            var isNew := e.uid !in Dedup.Recent(p.store.inserted, cfg.dedupMax);
            && Dedup.Windowed(q.store, cfg.dedupMax)
            && q.store.inserted == (if isNew then p.store.inserted + [e.uid] else p.store.inserted)
            && q.trades == if isNew then p.trades + [e] else p.trades
  {
    assert (items + [Arrival(e)])[..|items|] == items;
    var (p, rest) := Run(cfg, [], items);
    Dedup.OfferKeepsWindow(p.store, cfg.dedupMax, e);
    AdmitEffect(p, cfg, e);
    IdleLoop(Admit(p, cfg, e), cfg, rest);
    hide Admit, FillLoop, Dedup.Windowed, Dedup.Offer, Dedup.Recent;
  }

  lemma NumberedKeyed(n: nat)
    ensures SessionKeyed(u => Some(u), [], Numbered(n) + [Arrival(SomeTrade(0))])
  {
  }

  /** For every size limit some session delivers a trade twice: as many other trades as the limit, then the first
      again. */
  lemma SomeTradeComesTwice(cfg: ValidPipeConfig)
    requires !cfg.hasBackfill && cfg.dedupMax.Some?
    ensures var items := Numbered(cfg.dedupMax.value + 1) + [Arrival(SomeTrade(0))];
            SessionKeyed(u => Some(u), [], items) && DeliveredTwice(Run(cfg, [], items).0, 0)
  {
    hide Run, SessionKeyed, Dedup.Windowed, Dedup.Recent, Dedup.Offer;
    var n := cfg.dedupMax.value + 1;
    var p, q := Run(cfg, [], Numbered(n)).0, Run(cfg, [], Numbered(n) + [Arrival(SomeTrade(0))]).0;
    NumberedKeyed(n);
    NumberedRun(cfg, n);
    NotYetStored(p, cfg, n);
    NextArrival(cfg, Numbered(n), SomeTrade(0));
    assert q.trades[0].payload.aggId == 0 == q.trades[n].payload.aggId;
  }
}
