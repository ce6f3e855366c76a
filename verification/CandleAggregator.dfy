/** The mutable candle aggregator in ordered mode; each method is proved equal to the function on its state. */
module CandleAggregator {
  import opened Base
  import opened Events
  import opened Release

  class Aggregator {
    const cfg: ValidAggConfig
    var next: Option<int>
    var held: map<int, Candle>
    var released: map<int, Candle>
    var order: seq<int>
    var skipped: set<int>
    ghost var log: seq<Candle>

    ghost function View(): Agg
      reads this
    {
      Agg(next, held, released, order, skipped, log)
    }

    constructor (cfg: ValidAggConfig, start: Option<int>)
      ensures this.cfg == cfg && View() == Fresh(start)
    {
      this.cfg := cfg;
      next, held, released := start, map[], map[];
      order, skipped, log := [], {}, [];
    }

    method IsSkipped(o: int) returns (r: bool)
      ensures r == Release.IsSkipped(View(), o)
    {
      r := o in skipped && o !in released;
    }

    method Emit(cs: seq<Candle>)
      modifies this
      ensures View() == Release.Emit(old(View()), cfg, cs)
    {
      for i := 0 to |cs|
        invariant Record(View(), cs[i..]) == Record(old(View()), cs)
      {
        var o := cs[i].openNs;
        assert cs[i..][0] == cs[i] && cs[i..][1..] == cs[i + 1..];
        if o !in released {
          order := order + [o];
        }
        released := released[o := cs[i]];
      }
      ghost var recorded := View();
      while |released| > cfg.retention && order != []
        invariant Trim(View(), cfg.retention) == Trim(recorded, cfg.retention)
        decreases |order|
      {
        released := released - {order[0]};
        order := order[1..];
      }
      log := old(log) + cs;
    }

    method Drain() returns (out: seq<Candle>)
      modifies this
      ensures (View(), out) == Release.Drain(old(View()), cfg)
    {
      out := [];
      while next.Some? && (next.value in held || next.value in skipped)
        invariant DrainFrom(View(), cfg, out) == DrainFrom(old(View()), cfg, [])
        decreases |held| + |SkippedAhead(View())|
      {
        ghost var before := View();
        var n := next.value;
        if n in held {
          out := out + [held[n]];
          held := held - {n};
        }
        next := Some(n + cfg.tfNs);
        SkippedAheadShrinks(before, View());
      }
      Emit(out);
    }

    method Offer(c: Candle) returns (out: seq<Candle>)
      modifies this
      ensures (View(), out) == Release.Offer(old(View()), cfg, c)
    {
      out := [];
      if !Accepts(cfg, c) {
        return;
      }
      var o := c.openNs;
      if next.None? {
        next := Some(o);
      }
      if !c.closed || o in released || o in skipped || o in held {
        return;
      }
      if o < next.value {
        return;
      }
      held := held[o := c];
      out := Drain();
    }

    method Skip(lo: int, hi: int) returns (out: seq<Candle>)
      modifies this
      ensures (View(), out) == Release.Skip(old(View()), cfg, lo, hi)
    {
      var m := lo;
      while m <= hi
        invariant GiveUp(View(), cfg, m, hi) == GiveUp(old(View()), cfg, lo, hi)
        decreases hi - m
      {
        if m !in released && m !in held {
          skipped := skipped + {m};
        }
        m := m + cfg.tfNs;
      }
      out := [];
      if next.Some? {
        out := Drain();
      }
    }

    method Flush() returns (out: seq<Candle>)
      modifies this
      ensures (View(), out) == FlushAll(old(View()), cfg)
    {
      out := [];
      if held != map[] {
        out := InOrder(held);
        held := map[];
        next := Some(out[|out| - 1].openNs + cfg.tfNs);
        Emit(out);
      }
    }
  }
}
