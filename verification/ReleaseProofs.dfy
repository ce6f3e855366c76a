/** Ordered release: strictly increasing, exactly once, without unexplained holes, and independent of the
    order and repetition of the input. */
module ReleaseProofs {
  import opened Base
  import opened Events
  import opened Release

  // ---------------------------------------------------------------- invariant

  ghost predicate Increasing(cs: seq<Candle>) {
    forall i, j | 0 <= i < j < |cs| :: cs[i].openNs < cs[j].openNs
  }

  ghost function Opens(cs: seq<Candle>): set<int> {
    set c | c in cs :: c.openNs
  }

  /** The aggregator never goes back: everything delivered lies below the frontier, everything held at or above it.
      `out` has left `held` but is not yet recorded. */
  ghost predicate Ordered(a: Agg, tf: int, origin: int, out: seq<Candle>)
    requires tf > 0
  {
    && Increasing(a.log + out)
    && a.released.Keys <= Opens(a.log)
    && (forall o | o in a.held :: a.held[o].openNs == o)
    && (a.next.None? ==> a.held == map[] && a.log == [] && out == [])
    && (a.next.Some? ==>
          && OnGrid(origin, tf, a.next.value)
          && (forall o | o in a.held :: OnGrid(origin, tf, o) && a.next.value <= o)
          && (forall c | c in a.log + out :: c.openNs < a.next.value))
  }

  /** Every minute from `start` to the frontier was delivered or declared unobtainable. */
  ghost predicate Covered(a: Agg, tf: int, start: int, out: seq<Candle>)
    requires tf > 0
  {
    a.next.Some? ==>
      forall m | start <= m < a.next.value && OnGrid(start, tf, m) :: m in Opens(a.log + out) || m in a.skipped
  }

  ghost predicate Drained(a: Agg) {
    a.next.Some? ==> a.next.value !in a.held && a.next.value !in a.skipped
  }

  /** Everything the aggregator has: delivered or held. */
  ghost function Content(a: Agg, out: seq<Candle>): set<Candle> {
    (set c | c in a.log + out) + (set o | o in a.held :: a.held[o])
  }

  // ---------------------------------------------------------------- drain

  lemma DrainStep(a: Agg, tf: int, origin: int, out: seq<Candle>)
    requires tf > 0 && Ordered(a, tf, origin, out) && a.next.Some? && a.next.value in a.held
    ensures var n := a.next.value;
            var b := a.(held := a.held - {n}, next := Some(n + tf));
            Ordered(b, tf, origin, out + [a.held[n]]) && Content(b, out + [a.held[n]]) == Content(a, out)
  {
    var n := a.next.value;
    var c := a.held[n];
    var b := a.(held := a.held - {n}, next := Some(n + tf));
    assert a.log + (out + [c]) == (a.log + out) + [c];
    GridStep(origin, tf, n);
    forall o | o in b.held ensures n + tf <= o {
      if o < n + tf { GridGap(origin, tf, n, o); }
    }
    forall x ensures x in Content(b, out + [c]) <==> x in Content(a, out) {
      if x in Content(a, out) && x !in a.log + out {
        var o :| o in a.held && a.held[o] == x;
        if o != n { assert o in b.held; }
      }
    }
  }

  lemma SkipStep(a: Agg, tf: int, origin: int, out: seq<Candle>)
    requires tf > 0 && Ordered(a, tf, origin, out) && a.next.Some? && a.next.value !in a.held
    ensures Ordered(a.(next := Some(a.next.value + tf)), tf, origin, out)
    ensures Content(a.(next := Some(a.next.value + tf)), out) == Content(a, out)
  {
    var n := a.next.value;
    GridStep(origin, tf, n);
    forall o | o in a.held ensures n + tf <= o {
      if o < n + tf { GridGap(origin, tf, n, o); }
    }
  }

  lemma CoverStep(a: Agg, b: Agg, tf: int, start: int, out: seq<Candle>, out': seq<Candle>)
    requires tf > 0 && Covered(a, tf, start, out) && a.next.Some? && OnGrid(start, tf, a.next.value)
    requires b.next == Some(a.next.value + tf) && b.skipped == a.skipped && b.log == a.log && out <= out'
    requires a.next.value in a.skipped || a.next.value in Opens(a.log + out')
    ensures Covered(b, tf, start, out')
  {
    var n := a.next.value;
    forall m | start <= m < n + tf && OnGrid(start, tf, m) ensures m in Opens(b.log + out') || m in b.skipped {
      if m < n {
        assert forall c | c in a.log + out :: c in a.log + out';
      } else {
        GridGap(start, tf, n, m);
      }
    }
  }

  lemma CoverHeld(a: Agg, b: Agg, tf: int, start: int, out: seq<Candle>)
    requires tf > 0 && Covered(a, tf, start, out) && a.next.Some? && OnGrid(start, tf, a.next.value)
    requires a.next.value in a.held && a.held[a.next.value].openNs == a.next.value
    requires b.next == Some(a.next.value + tf) && b.skipped == a.skipped && b.log == a.log
    ensures Covered(b, tf, start, out + [a.held[a.next.value]])
  {
    hide Covered, OnGrid;
    var c := a.held[a.next.value];
    var all := a.log + (out + [c]);
    assert all[|all| - 1] == c && c in all;
    CoverStep(a, b, tf, start, out, out + [c]);
  }

  ghost predicate KeyedHeld(a: Agg) {
    forall o | o in a.held :: a.held[o].openNs == o
  }

  lemma KeyedWithout(a: Agg, b: Agg, n: int)
    requires KeyedHeld(a) && b.held == a.held - {n}
    ensures KeyedHeld(b) && (n in a.held ==> a.held[n].openNs == n)
  {
  }

  /** One round of the drain loop. */
  lemma DrainRound(a: Agg, cfg: ValidAggConfig, out: seq<Candle>)
    ensures a.next.None? ==> DrainFrom(a, cfg, out) == (a, out)
    ensures a.next.Some? ==>
              var n := a.next.value;
              DrainFrom(a, cfg, out) == if n in a.held
                then DrainFrom(a.(held := a.held - {n}, next := Some(n + cfg.tfNs)), cfg, out + [a.held[n]])
                                        else if n in a.skipped then DrainFrom(a.(next := Some(n + cfg.tfNs)), cfg, out)
                                        else (a, out)
  {
  }

  lemma {:induction false} DrainFromKeeps(a: Agg, cfg: ValidAggConfig, origin: int, out: seq<Candle>)
    requires Ordered(a, cfg.tfNs, origin, out)
    ensures var (b, out') := DrainFrom(a, cfg, out);
            && Ordered(b, cfg.tfNs, origin, out') && Drained(b) && Content(b, out') == Content(a, out)
            && b == a.(held := b.held, next := b.next)
            && b.next.Some? == a.next.Some? && (a.next.Some? ==> a.next.value <= b.next.value)
    decreases |a.held| + |SkippedAhead(a)|
  {
    hide Ordered, Content, SkippedAhead, DrainFrom;
    DrainRound(a, cfg, out);
    if a.next.Some? {
      var n := a.next.value;
      if n in a.held {
        var b := a.(held := a.held - {n}, next := Some(n + cfg.tfNs));
        SkippedAheadShrinks(a, b);
        DrainStep(a, cfg.tfNs, origin, out);
        DrainFromKeeps(b, cfg, origin, out + [a.held[n]]);
      } else if n in a.skipped {
        var b := a.(next := Some(n + cfg.tfNs));
        SkippedAheadShrinks(a, b);
        SkipStep(a, cfg.tfNs, origin, out);
        DrainFromKeeps(b, cfg, origin, out);
      }
    }
  }

  lemma {:induction false} DrainFromCovers(a: Agg, cfg: ValidAggConfig, start: int, out: seq<Candle>)
    requires Covered(a, cfg.tfNs, start, out) && (a.next.Some? ==> OnGrid(start, cfg.tfNs, a.next.value))
             && KeyedHeld(a)
    ensures Covered(DrainFrom(a, cfg, out).0, cfg.tfNs, start, DrainFrom(a, cfg, out).1)
    decreases |a.held| + |SkippedAhead(a)|
  {
    hide Covered, SkippedAhead, OnGrid, DrainFrom, KeyedHeld;
    DrainRound(a, cfg, out);
    if a.next.Some? && (a.next.value in a.held || a.next.value in a.skipped) {
      RoundCovers(a, cfg, start, out);
      var n := a.next.value;
      var b := a.(held := a.held - {n}, next := Some(n + cfg.tfNs));
      if n in a.held {
        DrainFromCovers(b, cfg, start, out + [a.held[n]]);
      } else {
        assert a.held - {n} == a.held;
        DrainFromCovers(b, cfg, start, out);
      }
    }
  }

  lemma HeldShrinks(held: map<int, Candle>, n: int)
    ensures |held - {n}| == |held| - if n in held then 1 else 0
  {
    assert (held - {n}).Keys == held.Keys - {n};
  }

  lemma RoundCovers(a: Agg, cfg: ValidAggConfig, start: int, out: seq<Candle>)
    requires Covered(a, cfg.tfNs, start, out) && KeyedHeld(a) && a.next.Some? && OnGrid(start, cfg.tfNs, a.next.value)
    requires a.next.value in a.held || a.next.value in a.skipped
    ensures var n := a.next.value;
            var b := a.(held := a.held - {n}, next := Some(n + cfg.tfNs));
            && Covered(b, cfg.tfNs, start, if n in a.held then out + [a.held[n]] else out)
            && KeyedHeld(b) && OnGrid(start, cfg.tfNs, n + cfg.tfNs)
            && |b.held| + |SkippedAhead(b)| < |a.held| + |SkippedAhead(a)|
  {
    hide Covered, SkippedAhead, OnGrid, KeyedHeld, Opens;
    var n := a.next.value;
    var b := a.(held := a.held - {n}, next := Some(n + cfg.tfNs));
    HeldShrinks(a.held, n);
    SkippedAheadShrinks(a, b);
    GridStep(start, cfg.tfNs, n);
    KeyedWithout(a, b, n);
    if n in a.held {
      CoverHeld(a, b, cfg.tfNs, start, out);
    } else {
      CoverStep(a, b, cfg.tfNs, start, out, out);
    }
  }

  // ---------------------------------------------------------------- recording what was delivered

  lemma {:induction false} RecordKeys(a: Agg, cs: seq<Candle>)
    ensures var b := Record(a, cs);
            b == a.(released := b.released, order := b.order) && b.released.Keys == a.released.Keys + Opens(cs)
    decreases |cs|
  {
    if cs != [] {
      var o := cs[0].openNs;
      RecordKeys(a.(released := a.released[o := cs[0]], order := if o in a.released then a.order else a.order + [o]),
        cs[1..]);
      assert Opens(cs) == {o} + Opens(cs[1..]) by {
        assert cs == [cs[0]] + cs[1..];
      }
    } else {
      assert Opens(cs) == {};
    }
  }

  lemma {:induction false} TrimKeys(a: Agg, retention: nat)
    ensures var b := Trim(a, retention);
            b == a.(released := b.released, order := b.order) && b.released.Keys <= a.released.Keys
    decreases |a.order|
  {
    if |a.released| > retention && a.order != [] {
      TrimKeys(a.(released := a.released - {a.order[0]}, order := a.order[1..]), retention);
    }
  }

  /** Delivering `out` loses nothing and keeps the order, whatever the memory bound. */
  lemma EmitKeeps(a: Agg, cfg: ValidAggConfig, origin: int, out: seq<Candle>)
    requires Ordered(a, cfg.tfNs, origin, out)
    ensures var b := Emit(a, cfg, out);
            && Ordered(b, cfg.tfNs, origin, []) && Content(b, []) == Content(a, out)
            && b == a.(released := b.released, order := b.order, log := a.log + out)
  {
    RecordKeys(a, out);
    TrimKeys(Record(a, out), cfg.retention);
    hide Record, Trim, OnGrid;
    var b := Emit(a, cfg, out);
    assert b.log + [] == a.log + out;
    assert Opens(a.log + out) == Opens(a.log) + Opens(out);
  }

  /** A whole drain. */
  lemma DrainKeeps(a: Agg, cfg: ValidAggConfig, origin: int)
    requires Ordered(a, cfg.tfNs, origin, [])
    ensures var (b, out) := Drain(a, cfg);
            && Ordered(b, cfg.tfNs, origin, []) && Drained(b) && Content(b, []) == Content(a, [])
            && b.log == a.log + out && b.skipped == a.skipped && b.next.Some? == a.next.Some?
            && (a.next.Some? ==> a.next.value <= b.next.value)
    ensures (a.next.Some? ==> OnGrid(origin, cfg.tfNs, a.next.value)) && Covered(a, cfg.tfNs, origin, [])
            ==> Covered(Drain(a, cfg).0, cfg.tfNs, origin, [])
  {
    DrainFromKeeps(a, cfg, origin, []);
    var (b, out) := DrainFrom(a, cfg, []);
    EmitKeeps(b, cfg, origin, out);
    if Covered(a, cfg.tfNs, origin, []) {
      DrainFromCovers(a, cfg, origin, []);
      assert b.log + out == Emit(b, cfg, out).log + [];
    }
  }

  // ---------------------------------------------------------------- offer, skip, flush

  /** The candle is taken up, either delivered or held. */
  predicate Takes(a: Agg, cfg: ValidAggConfig, c: Candle) {
    && Accepts(cfg, c) && c.closed && c.openNs !in a.released && c.openNs !in a.skipped && c.openNs !in a.held
    && (a.next.None? || a.next.value <= c.openNs)
  }

  ghost predicate Good(a: Agg, tf: int, origin: int)
    requires tf > 0
  {
    Ordered(a, tf, origin, []) && Drained(a)
  }

  lemma HoldStep(a: Agg, cfg: ValidAggConfig, origin: int, c: Candle)
    requires Good(a, cfg.tfNs, origin) && Takes(a, cfg, c) && OnGrid(origin, cfg.tfNs, c.openNs)
    ensures var b := (if a.next.None? then a.(next := Some(c.openNs)) else a).(held := a.held[c.openNs := c]);
            Ordered(b, cfg.tfNs, origin, []) && Content(b, []) == Content(a, []) + {c}
  {
    var o := c.openNs;
    var b := (if a.next.None? then a.(next := Some(o)) else a).(held := a.held[o := c]);
    forall x ensures x in Content(b, []) <==> x in Content(a, []) + {c} {
      if x == c { assert b.held[o] == x; }
      if x in Content(a, []) && x !in a.log + [] {
        var k :| k in a.held && a.held[k] == x;
        assert b.held[k] == x;
      }
    }
  }

  /** Offering keeps the order; the content grows by exactly the candles that are taken up. */
  lemma OfferKeeps(a: Agg, cfg: ValidAggConfig, origin: int, c: Candle)
    requires Good(a, cfg.tfNs, origin) && (Accepts(cfg, c) ==> OnGrid(origin, cfg.tfNs, c.openNs))
    requires a.next.None? ==> c.openNs !in a.skipped
    ensures var (b, out) := Offer(a, cfg, c);
            && Good(b, cfg.tfNs, origin) && b.log == a.log + out && b.skipped == a.skipped
            && Content(b, []) == Content(a, []) + (if Takes(a, cfg, c) then {c} else {})
            && (a.next.Some? ==> b.next.Some? && a.next.value <= b.next.value)
            && (a.next.None? && Accepts(cfg, c) ==> b.next.Some? && c.openNs <= b.next.value)
            && (a.next.None? && !Accepts(cfg, c) ==> b == a)
    ensures a.next.Some? && OnGrid(origin, cfg.tfNs, a.next.value) && Covered(a, cfg.tfNs, origin, [])
            ==> Covered(Offer(a, cfg, c).0, cfg.tfNs, origin, [])
  {
    if Takes(a, cfg, c) {
      hide Ordered, Content, OnGrid;
      HoldStep(a, cfg, origin, c);
      var b := (if a.next.None? then a.(next := Some(c.openNs)) else a).(held := a.held[c.openNs := c]);
      DrainKeeps(b, cfg, origin);
    } else {
      hide OnGrid;
      assert a.log + [] == a.log;
    }
  }

  lemma {:induction false} MarkKeeps(a: Agg, cfg: ValidAggConfig, lo: int, hi: int)
    ensures var b := GiveUp(a, cfg, lo, hi);
            && b == a.(skipped := b.skipped) && a.skipped <= b.skipped
            && forall m | m in b.skipped :: m in a.skipped || (lo <= m <= hi && m !in a.released && m !in a.held)
    ensures lo == hi ==> GiveUp(a, cfg, lo, hi).skipped == a.skipped + if lo in a.released || lo in a.held then {}
            else {lo}
    decreases hi - lo
  {
    if lo <= hi {
      MarkKeeps(if lo in a.released || lo in a.held then a else a.(skipped := a.skipped + {lo}), cfg, lo + cfg.tfNs,
        hi);
    }
  }

  /** Declaring minutes unobtainable changes no content and keeps the order. */
  lemma SkipKeeps(a: Agg, cfg: ValidAggConfig, origin: int, lo: int, hi: int)
    requires Good(a, cfg.tfNs, origin)
    ensures var (b, out) := Skip(a, cfg, lo, hi);
            && Good(b, cfg.tfNs, origin) && b.log == a.log + out && Content(b, []) == Content(a, [])
            && b.skipped == GiveUp(a, cfg, lo, hi).skipped && b.next.Some? == a.next.Some?
            && (a.next.Some? ==> a.next.value <= b.next.value)
    ensures a.next.Some? && OnGrid(origin, cfg.tfNs, a.next.value) && Covered(a, cfg.tfNs, origin, [])
            ==> Covered(Skip(a, cfg, lo, hi).0, cfg.tfNs, origin, [])
  {
    MarkKeeps(a, cfg, lo, hi);
    var b := GiveUp(a, cfg, lo, hi);
    assert Ordered(b, cfg.tfNs, origin, []);
    if b.next.Some? {
      DrainKeeps(b, cfg, origin);
    } else {
      assert a.log + [] == a.log;
    }
  }

  lemma {:induction false} InOrderSorted(held: map<int, Candle>)
    requires forall o | o in held :: held[o].openNs == o
    ensures Increasing(InOrder(held))
    ensures forall c :: c in InOrder(held) <==> exists o :: o in held && held[o] == c
    decreases |held|
  {
    if held != map[] {
      KeysNonEmpty(held);
      var k := MinOf(held.Keys);
      assert (held - {k}).Keys == held.Keys - {k};
      InOrderSorted(held - {k});
      var rest := InOrder(held - {k});
      forall c ensures c in InOrder(held) <==> exists o :: o in held && held[o] == c {
        if c in rest {
          var o :| o in held - {k} && (held - {k})[o] == c;
          assert held[o] == c;
        }
        if exists o :: o in held && held[o] == c {
          var o :| o in held && held[o] == c;
          if o != k { assert (held - {k})[o] == c; }
        }
      }
      forall i | 0 <= i < |rest| ensures k < rest[i].openNs {
        assert rest[i] in rest;
      }
    }
  }

  lemma IncreasingConcat(s: seq<Candle>, t: seq<Candle>, n: int)
    requires Increasing(s) && Increasing(t)
    requires (forall c | c in s :: c.openNs < n) && forall c | c in t :: n <= c.openNs
    ensures Increasing(s + t)
  {
    forall i, j | 0 <= i < j < |s + t| ensures (s + t)[i].openNs < (s + t)[j].openNs {
      if i < |s| <= j {
        assert s[i] in s && t[j - |s|] in t;
      }
    }
  }

  lemma ContentInOrder(a: Agg, out: seq<Candle>)
    requires forall c :: c in out <==> exists o :: o in a.held && a.held[o] == c
    ensures (set c | c in a.log + out) == Content(a, [])
  {
    assert a.log + [] == a.log;
  }

  lemma HeldAbove(a: Agg, tf: int, origin: int, out: seq<Candle>)
    requires tf > 0 && Ordered(a, tf, origin, []) && a.held != map[]
    requires forall c :: c in out <==> exists o :: o in a.held && a.held[o] == c
    requires Increasing(out)
    ensures Increasing(a.log + out)
  {
    assert a.log + [] == a.log;
    IncreasingConcat(a.log, out, a.next.value);
  }

  /** End of stream: everything held is delivered, in order, and nothing is lost. */
  lemma FlushKeeps(a: Agg, cfg: ValidAggConfig, origin: int)
    requires Ordered(a, cfg.tfNs, origin, [])
    ensures var (b, out) := FlushAll(a, cfg);
            && Increasing(b.log) && b.log == a.log + out && b.held == map[] && b.skipped == a.skipped
            && (set c | c in b.log) == Content(a, [])
  {
    var out := InOrder(a.held);
    InOrderSorted(a.held);
    ContentInOrder(a, out);
    if a.held != map[] {
      HeldAbove(a, cfg.tfNs, origin, out);
      hide Ordered, Content, Increasing, InOrder, Record, Trim, Opens;
      FlushLog(a, cfg);
    } else {
      assert a.log + [] == a.log;
    }
  }

  lemma EmitFrame(a: Agg, cfg: ValidAggConfig, out: seq<Candle>)
    ensures var b := Emit(a, cfg, out); b == a.(log := a.log + out, released := b.released, order := b.order)
  {
    hide Record, Trim, Opens;
    RecordKeys(a, out);
    TrimKeys(Record(a, out), cfg.retention);
  }

  lemma FlushLog(a: Agg, cfg: ValidAggConfig)
    requires a.held != map[]
    ensures var (b, out) := FlushAll(a, cfg);
            out == InOrder(a.held) && b.log == a.log + out && b.held == map[] && b.skipped == a.skipped
  {
    hide InOrder, Opens, Emit;
    var out := InOrder(a.held);
    EmitFrame(a.(held := map[], next := Some(out[|out| - 1].openNs + cfg.tfNs)), cfg, out);
  }

  // ---------------------------------------------------------------- independence of order and repetition

  function OfferAll(a: Agg, cfg: ValidAggConfig, cs: seq<Candle>): Agg {
    if cs == [] then a else Offer(OfferAll(a, cfg, cs[..|cs| - 1]), cfg, cs[|cs| - 1]).0
  }

  /** Closed candles of one series on the grid of `start`; one minute has one candle. */
  ghost predicate Consistent(cfg: ValidAggConfig, start: int, cs: seq<Candle>) {
    && (forall c | c in cs :: Accepts(cfg, c) && c.closed && OnGrid(start, cfg.tfNs, c.openNs))
    && forall c, c' | c in cs && c' in cs && c.openNs == c'.openNs :: c == c'
  }

  ghost function FromStart(start: int, cs: seq<Candle>): set<Candle> {
    set c | c in cs && start <= c.openNs
  }

  /** What the aggregator looks like while it is fed from `start` and nothing is skipped. */
  ghost predicate Feeding(a: Agg, tf: int, start: int)
    requires tf > 0
  {
    Good(a, tf, start) && Covered(a, tf, start, []) && a.skipped == {} && a.next.Some? && start <= a.next.value
  }

  lemma StartsFeeding(tf: int, start: int)
    requires tf > 0
    ensures Feeding(Fresh(Some(start)), tf, start) && Content(Fresh(Some(start)), []) == {}
  {
    assert OnGrid(start, tf, start);
    assert Fresh(Some(start)).log + [] == [];
  }

  /** A minute that is already there is not taken up again, and any other one from `start` on is. */
  lemma FeedStep(a: Agg, cfg: ValidAggConfig, start: int, c: Candle)
    requires Feeding(a, cfg.tfNs, start) && Accepts(cfg, c) && c.closed && OnGrid(start, cfg.tfNs, c.openNs)
    requires forall x | x in Content(a, []) && x.openNs == c.openNs :: x == c
    ensures Feeding(Offer(a, cfg, c).0, cfg.tfNs, start)
    ensures Content(Offer(a, cfg, c).0, []) == Content(a, []) + if start <= c.openNs then {c} else {}
  {
    hide Ordered, Covered, Content, OnGrid, Offer;
    NextOnGrid(a, cfg.tfNs, start);
    OfferKeeps(a, cfg, start, c);
    if start <= c.openNs && !Takes(a, cfg, c) {
      KnownMinute(a, cfg, start, c);
    }
  }

  /** Whatever arrived from `start` on is delivered or held, each candle once; nothing else is. */
  lemma {:induction false} OfferAllContent(cfg: ValidAggConfig, start: int, cs: seq<Candle>)
    requires Consistent(cfg, start, cs)
    ensures var a := OfferAll(Fresh(Some(start)), cfg, cs);
            Feeding(a, cfg.tfNs, start) && Content(a, []) == FromStart(start, cs)
  {
    hide Feeding, Content, OnGrid, Offer;
    if cs == [] {
      StartsFeeding(cfg.tfNs, start);
    } else {
      var n := |cs| - 1;
      assert cs == cs[..n] + [cs[n]];
      OfferAllContent(cfg, start, cs[..n]);
      FeedStep(OfferAll(Fresh(Some(start)), cfg, cs[..n]), cfg, start, cs[n]);
    }
  }

  lemma NextOnGrid(a: Agg, tf: int, origin: int)
    requires tf > 0 && Ordered(a, tf, origin, []) && a.next.Some?
    ensures OnGrid(origin, tf, a.next.value)
  {
  }

  /** A closed minute at or after `start` that is not taken up is one that is already there. */
  lemma KnownMinute(a: Agg, cfg: ValidAggConfig, start: int, c: Candle)
    requires Good(a, cfg.tfNs, start) && Covered(a, cfg.tfNs, start, []) && a.skipped == {} && a.next.Some?
    requires Accepts(cfg, c) && c.closed && OnGrid(start, cfg.tfNs, c.openNs) && start <= c.openNs && !Takes(a, cfg, c)
    ensures exists x :: x in Content(a, []) && x.openNs == c.openNs
  {
    var o := c.openNs;
    assert a.log + [] == a.log;
    if o in a.held {
      assert a.held[o] in Content(a, []);
    } else {
      assert o in Opens(a.log);
      var x :| x in a.log && x.openNs == o;
      assert x in Content(a, []);
    }
  }

  lemma IncreasingUnique(s: seq<Candle>, t: seq<Candle>)
    requires Increasing(s) && Increasing(t) && (set c | c in s) == (set c | c in t)
    ensures s == t
  {
    var S, T := set c | c in s, set c | c in t;
    forall c ensures c in s <==> c in t {
      assert c in s <==> c in S;
      assert c in t <==> c in T;
    }
    SortedUnique(s, t, (c: Candle) => (c.openNs, 0));
  }

  /** The delivered series (after the end of the stream) is the sorted set of what arrived from `start` on. */
  lemma DeliveredIsSortedInput(cfg: ValidAggConfig, start: int, cs: seq<Candle>)
    requires Consistent(cfg, start, cs)
    ensures var b := FlushAll(OfferAll(Fresh(Some(start)), cfg, cs), cfg).0;
            Increasing(b.log) && (set c | c in b.log) == FromStart(start, cs)
  {
    OfferAllContent(cfg, start, cs);
    FlushKeeps(OfferAll(Fresh(Some(start)), cfg, cs), cfg, start);
  }

  /** Any reordering or repetition of the same closed minutes delivers the same series, both at the end of the
      stream and at every earlier point. */
  lemma OrderAndRepetitionIrrelevant(cfg: ValidAggConfig, start: int, cs: seq<Candle>, ds: seq<Candle>)
    requires Consistent(cfg, start, cs) && Consistent(cfg, start, ds) && (set c | c in cs) == (set c | c in ds)
    ensures var a, b := OfferAll(Fresh(Some(start)), cfg, cs), OfferAll(Fresh(Some(start)), cfg, ds);
            && FlushAll(a, cfg).0.log == FlushAll(b, cfg).0.log
            && a.log == b.log && a.next == b.next && a.held == b.held
  {
    var a, b := OfferAll(Fresh(Some(start)), cfg, cs), OfferAll(Fresh(Some(start)), cfg, ds);
    hide Good, Covered, Content, FlushAll, OfferAll, Increasing, Consistent;
    var C, D := set c | c in cs, set c | c in ds;
    assert forall c :: c in cs <==> c in C;
    assert forall c :: c in ds <==> c in D;
    assert FromStart(start, cs) == FromStart(start, ds);
    DeliveredIsSortedInput(cfg, start, cs);
    DeliveredIsSortedInput(cfg, start, ds);
    IncreasingUnique(FlushAll(a, cfg).0.log, FlushAll(b, cfg).0.log);
    OfferAllContent(cfg, start, cs);
    OfferAllContent(cfg, start, ds);
    SameState(cfg, start, a, b);
  }

  /** The frontier is determined by the content: it is the first minute that is not there. */
  lemma SameFrontier(cfg: ValidAggConfig, start: int, a: Agg, b: Agg)
    requires Feeding(a, cfg.tfNs, start) && Feeding(b, cfg.tfNs, start) && Content(a, []) == Content(b, [])
    ensures a.next.value <= b.next.value
  {
    var n := b.next.value;
    assert a.log + [] == a.log && b.log + [] == b.log;
    assert forall x | x in Content(b, []) :: x.openNs != n;
    assert forall x | x in a.log :: x in Content(a, []);
    assert n < a.next.value ==> n in Opens(a.log);
  }

  lemma SameState(cfg: ValidAggConfig, start: int, a: Agg, b: Agg)
    requires Feeding(a, cfg.tfNs, start) && Feeding(b, cfg.tfNs, start) && Content(a, []) == Content(b, [])
    ensures a.log == b.log && a.held == b.held && a.next == b.next
  {
    hide Ordered, Covered, Content, Increasing;
    SameFrontier(cfg, start, a, b);
    SameFrontier(cfg, start, b, a);
    Below(cfg, start, a);
    Below(cfg, start, b);
    IncreasingUnique(a.log, b.log);
    forall o ensures o in a.held <==> o in b.held { HeldSame(cfg, start, a, b, o); HeldSame(cfg, start, b, a, o); }
    forall o | o in a.held ensures a.held[o] == b.held[o] { HeldSame(cfg, start, a, b, o); }
  }

  lemma Below(cfg: ValidAggConfig, start: int, a: Agg)
    requires Good(a, cfg.tfNs, start) && a.next.Some?
    ensures (set c | c in a.log) == set c | c in Content(a, []) && c.openNs < a.next.value
    ensures Increasing(a.log)
  {
    assert a.log + [] == a.log;
  }

  lemma HeldSame(cfg: ValidAggConfig, start: int, a: Agg, b: Agg, o: int)
    requires Good(a, cfg.tfNs, start) && Good(b, cfg.tfNs, start) && a.next.Some? && a.next == b.next
    requires Content(a, []) == Content(b, [])
    ensures o in a.held ==> o in b.held && a.held[o] == b.held[o]
  {
    if o in a.held {
      assert a.log + [] == a.log && b.log + [] == b.log;
      assert a.held[o] in Content(b, []);
    }
  }
}
