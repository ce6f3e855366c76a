/** The candle aggregator (ordered mode) as a value, and why its output is in order and exactly once.
    `CandleAggregator.dfy` holds the mutable aggregator that is proved against these functions. */
module Release {
  import opened Base
  import opened Events

  /** `log` is what the consumer has received so far; `released` is the bounded memory of it, oldest key first
      in `order`. */
  datatype Agg = Agg(next: Option<int>, held: map<int, Candle>, released: map<int, Candle>, order: seq<int>,
                     skipped: set<int>, log: seq<Candle>)

  datatype AggConfig = AggConfig(tf: string, tfNs: int, instrument: Option<string>, retention: nat)

  type ValidAggConfig = c: AggConfig | c.tfNs > 0 witness AggConfig("", 1, None, 0)

  function Fresh(start: Option<int>): Agg {
    Agg(start, map[], map[], [], {}, [])
  }

  // ---------------------------------------------------------------- operations

  predicate Accepts(cfg: ValidAggConfig, c: Candle) {
    c.tf == cfg.tf && (cfg.instrument.None? || c.instrument == cfg.instrument.value)
  }

  predicate IsSkipped(a: Agg, o: int) {
    o in a.skipped && o !in a.released
  }

  /** Minutes declared unobtainable that the release frontier has not passed. */
  function SkippedAhead(a: Agg): set<int> {
    if a.next.None? then {} else set s | s in a.skipped && a.next.value <= s
  }

  lemma SkippedAheadShrinks(a: Agg, b: Agg)
    requires a.next.Some? && b.next.Some? && a.next.value < b.next.value && b.skipped == a.skipped
    ensures |SkippedAhead(b)| <= |SkippedAhead(a)|
    ensures a.next.value in a.skipped ==> |SkippedAhead(b)| < |SkippedAhead(a)|
  {
    SubsetSize(SkippedAhead(b), SkippedAhead(a));
    if a.next.value in a.skipped {
      SubsetSize(SkippedAhead(b), SkippedAhead(a) - {a.next.value});
    }
  }

  /** Move the frontier over held and skipped minutes; `out` collects the held ones. */
  function DrainFrom(a: Agg, cfg: ValidAggConfig, out: seq<Candle>): (Agg, seq<Candle>)
    decreases |a.held| + |SkippedAhead(a)|
  {
    if a.next.None? then (a, out)
    else
      var n := a.next.value;
      if n in a.held then
        var b := a.(held := a.held - {n}, next := Some(n + cfg.tfNs));
        SkippedAheadShrinks(a, b);
        DrainFrom(b, cfg, out + [a.held[n]])
      else if n in a.skipped then
        var b := a.(next := Some(n + cfg.tfNs));
        SkippedAheadShrinks(a, b);
        DrainFrom(b, cfg, out)
      else (a, out)
  }

  function Record(a: Agg, cs: seq<Candle>): Agg
    decreases |cs|
  {
    if cs == [] then a
    else
      var o := cs[0].openNs;
      Record(a.(released := a.released[o := cs[0]], order := if o in a.released then a.order else a.order + [o]),
        cs[1..])
  }

  function Trim(a: Agg, retention: nat): Agg
    decreases |a.order|
  {
    if |a.released| > retention && a.order != [] then
      Trim(a.(released := a.released - {a.order[0]}, order := a.order[1..]), retention)
    else a
  }

  function Emit(a: Agg, cfg: ValidAggConfig, cs: seq<Candle>): Agg {
    Trim(Record(a, cs), cfg.retention).(log := a.log + cs)
  }

  function Drain(a: Agg, cfg: ValidAggConfig): (Agg, seq<Candle>) {
    var (b, out) := DrainFrom(a, cfg, []);
    (Emit(b, cfg, out), out)
  }

  function Offer(a: Agg, cfg: ValidAggConfig, c: Candle): (Agg, seq<Candle>) {
    if !Accepts(cfg, c) then (a, [])
    else
      var o := c.openNs;
      var b := if a.next.None? then a.(next := Some(o)) else a;
      if !c.closed then (b, [])
      else if o in b.released || o in b.skipped || o in b.held then (b, [])
      else if o < b.next.value then (b, [])
      else Drain(b.(held := b.held[o := c]), cfg)
  }

  function GiveUp(a: Agg, cfg: ValidAggConfig, lo: int, hi: int): Agg
    decreases hi - lo
  {
    if lo > hi then a
    else GiveUp(if lo in a.released || lo in a.held then a else a.(skipped := a.skipped + {lo}), cfg, lo + cfg.tfNs, hi)
  }

  function Skip(a: Agg, cfg: ValidAggConfig, lo: int, hi: int): (Agg, seq<Candle>) {
    var b := GiveUp(a, cfg, lo, hi);
    if b.next.Some? then Drain(b, cfg) else (b, [])
  }

  /** The held candles in the order of their minutes. */
  function InOrder(held: map<int, Candle>): (s: seq<Candle>)
    ensures held != map[] ==> s != []
    decreases |held|
  {
    if held == map[] then []
    else
      KeysNonEmpty(held);
      var k := MinOf(held.Keys);
      assert |held - {k}| < |held| by { assert (held - {k}).Keys == held.Keys - {k}; }
      [held[k]] + InOrder(held - {k})
  }

  lemma KeysNonEmpty<T>(m: map<int, T>)
    requires m != map[]
    ensures m.Keys != {}
  {
    if m.Keys == {} {
      assert false;
    }
  }

  function FlushAll(a: Agg, cfg: ValidAggConfig): (Agg, seq<Candle>) {
    if a.held == map[] then (a, [])
    else
      var out := InOrder(a.held);
      (Emit(a.(held := map[], next := Some(out[|out| - 1].openNs + cfg.tfNs)), cfg, out), out)
  }
}
