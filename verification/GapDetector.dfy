/** The mutable gap detector; each method is proved equal to the corresponding function on its state. */
module GapDetector {
  import opened Base
  import opened Events
  import opened GapLedger

  class Detector {
    const cfg: ValidConfig
    var latest: Option<int>
    var kLo: Option<int>
    var kClosed: set<int>
    var tMax: Option<int>
    var tMaxTs: int
    var pending: seq<Hole>
    var missing: map<int, set<int>>
    var owner: map<(Stream, int), int>
    var gaps: map<int, GapRecord>
    var nextId: int
    var fault: bool

    ghost function View(): Ledger
      reads this
    {
      Ledger(latest, kLo, kClosed, tMax, tMaxTs, pending, missing, owner, gaps, nextId, fault)
    }

    constructor (cfg: ValidConfig)
      ensures this.cfg == cfg && View() == EMPTY
    {
      this.cfg := cfg;
      latest, kLo, tMax := None, None, None;
      kClosed, tMaxTs, pending := {}, 0, [];
      missing, owner, gaps := map[], map[], map[];
      nextId, fault := 1, false;
    }

    method Advance(ts: int)
      modifies this
      ensures View() == GapLedger.Advance(old(View()), ts)
    {
      if latest.None? || ts > latest.value {
        latest := Some(ts);
      }
    }

    method Open(stream: Stream, keys: set<int>, lo: int, hi: int, seqLo: Option<int>, seqHi: Option<int>)
        returns (g: GapRecord)
      modifies this
      ensures g == NewGap(old(View()), stream, keys, lo, hi, seqLo, seqHi)
      ensures View() == OpenGap(old(View()), g, keys)
    {
      var gid := nextId;
      nextId := nextId + 1;
      g := GapRecord(gid, stream, lo, hi, |keys|, Status.Open, 0, 0, seqLo, seqHi, latest);
      gaps := gaps[gid := g];
      missing := missing[gid := keys];
      Claim(stream, keys, gid);
    }

    /** Each key gets its owner. */
    method Claim(stream: Stream, keys: set<int>, gid: int)
      modifies this`owner
      ensures owner == Own(old(owner), stream, keys, gid)
    {
      var todo := keys;
      assert Own(owner, stream, {}, gid) == owner;
      assert keys - todo == {};
      hide Own;
      while todo != {}
        invariant todo <= keys && owner == Own(old(owner), stream, keys - todo, gid)
        decreases todo
      {
        ghost var w := Pick(todo);
        var k :| k in todo;
        owner := owner[(stream, k) := gid];
        OwnGrow(old(owner), stream, keys - todo, gid, k);
        assert keys - (todo - {k}) == keys - todo + {k};
        todo := todo - {k};
      }
      assert keys - todo == keys;
    }

    /** `Transition` or, if it is illegal, the exception. */
    method Move(gid: int, status: Status, filledRows: Option<int>, countAttempt: bool) returns (r: Option<GapRecord>)
      requires gid in gaps
      modifies this
      ensures r == Transition(old(gaps)[gid], status, filledRows, countAttempt)
      ensures View() == if r.None? then old(View()).(fault := true) else old(View()).(gaps := old(gaps)[gid := r.value])
    {
      r := Transition(gaps[gid], status, filledRows, countAttempt);
      if r.None? {
        fault := true;
      } else {
        gaps := gaps[gid := r.value];
      }
    }

    method Fill(stream: Stream, key: int) returns (hit: bool, changed: seq<GapRecord>)
      modifies this
      ensures (View(), hit, changed) == GapLedger.Fill(old(View()), stream, key)
    {
      changed := [];
      if (stream, key) !in owner {
        return false, [];
      }
      var gid := owner[(stream, key)];
      owner := owner - {(stream, key)};
      hit := true;
      if gid !in missing || gid !in gaps {
        fault := true;
        return;
      }
      var g, miss := gaps[gid], missing[gid] - {key};
      missing := missing[gid := miss];
      var filled := g.expected - |miss|;
      if miss == {} && !g.status.Filling? {
        var r := Move(gid, Filled, Some(filled), false);
        if r.Some? {
          changed := [r.value];
        }
      } else if g.status.Filling? {
        gaps := gaps[gid := g.(filledRows := filled)];
      }
    }

    method SweepKlines() returns (out: seq<GapRecord>)
      modifies this
      ensures (View(), out) == Sweep(old(View()), cfg)
    {
      out := [];
      if kLo.None? || latest.None? {
        return;
      }
      var run: seq<int> := [];
      var horizon := latest.value - cfg.graceNs;
      while kLo.value + cfg.tfNs <= horizon
        invariant kLo.Some? && latest.Some? && horizon == latest.value - cfg.graceNs
        invariant SweepFrom(View(), cfg, run, out) == Sweep(old(View()), cfg)
        decreases horizon - kLo.value
      {
        var m := kLo.value;
        if m in kClosed {
          kClosed := kClosed - {m};
          if run != [] {
            var g := OpenKlines(run);
            out := out + [g];
            run := [];
          }
        } else {
          run := run + [m];
        }
        kLo := Some(m + cfg.tfNs);
      }
      if run != [] {
        var g := OpenKlines(run);
        out := out + [g];
      }
    }

    method OpenKlines(run: seq<int>) returns (g: GapRecord)
      requires run != []
      modifies this
      ensures (View(), g) == GapLedger.OpenKlines(old(View()), run)
    {
      g := Open(Klines, (set m | m in run), run[0], run[|run| - 1], None, None);
    }

    method ConfirmHoles(force: bool) returns (out: seq<GapRecord>)
      modifies this
      ensures (View(), out) == Confirm(old(View()), cfg, force)
    {
      out := [];
      var holes, keep := pending, [];
      for i := 0 to |holes|
        invariant pending == holes
        invariant ConfirmFrom(View(), cfg, force, holes[i..], keep, out) == Confirm(old(View()), cfg, force)
      {
        var h := holes[i];
        assert holes[i..][0] == h && holes[i..][1..] == holes[i + 1..];
        if force || |h.missing| > cfg.maxReorder
          || (if latest.None? then 0 else latest.value) - h.created >= cfg.graceNs {
          var g := OpenHole(h);
          out := out + [g];
        } else {
          keep := keep + [h];
        }
      }
      pending := keep;
    }

    method OpenHole(h: Hole) returns (g: GapRecord)
      modifies this
      ensures (View(), g) == GapLedger.OpenHole(old(View()), h)
    {
      if h.missing == {} {
        fault := true;
        g := GapRecord(nextId, Trades, h.tBefore, h.tAfter, 0, Status.Open, 0, 0, None, None, latest);
      } else {
        g := Open(Trades, h.missing, h.tBefore, h.tAfter, Some(MinOf(h.missing)), Some(MaxOf(h.missing)));
      }
    }

    method OnTime(ts: int) returns (out: seq<GapRecord>)
      modifies this
      ensures (View(), out) == GapLedger.OnTime(old(View()), cfg, ts)
    {
      Advance(ts);
      var a := SweepKlines();
      var b := ConfirmHoles(false);
      out := a + b;
    }

    method OnKline(c: Candle, ts: int) returns (out: seq<GapRecord>)
      modifies this
      ensures (View(), out) == GapLedger.OnKline(old(View()), cfg, c, ts)
    {
      if c.tf != cfg.tf || c.instrument != cfg.instrument {
        return [];
      }
      Advance(ts);
      var o, changed := c.openNs, [];
      if kLo.None? {
        kLo := Some(o);
      }
      if o < kLo.value {
        if c.closed {
          var hit;
          hit, changed := Fill(Klines, o);
        }
      } else if c.closed {
        kClosed := kClosed + {o};
      }
      var a := SweepKlines();
      var b := ConfirmHoles(false);
      out := changed + a + b;
    }

    method OnTrade(instrument: string, a: int, ts: int) returns (out: seq<GapRecord>)
      modifies this
      ensures (View(), out) == GapLedger.OnTrade(old(View()), cfg, instrument, a, ts)
    {
      hide GapLedger.Fill, IdRange, FindHole, Confirm, Sweep;
      if instrument != cfg.instrument {
        return [];
      }
      Advance(ts);
      var changed: seq<GapRecord> := [];
      if tMax.None? {
        tMax, tMaxTs := Some(a), ts;
      } else if a > tMax.value {
        if a > tMax.value + 1 {
          var created := if latest.value != 0 then latest.value else ts;
          pending := pending + [Hole(IdRange(tMax.value + 1, a), tMaxTs, ts, created)];
        }
        tMax, tMaxTs := Some(a), ts;
      } else if a < tMax.value {
        var i := FindHole(pending, a);
        if i < |pending| {
          var h := pending[i].(missing := pending[i].missing - {a});
          if h.missing == {} {
            pending := pending[..i] + pending[i + 1..];
          } else {
            pending := pending[i := h];
          }
        } else {
          var hit;
          hit, changed := Fill(Trades, a);
        }
      }
      var x := ConfirmHoles(false);
      var y := SweepKlines();
      out := changed + x + y;
    }

    method Flush() returns (out: seq<GapRecord>)
      modifies this
      ensures (View(), out) == GapLedger.Flush(old(View()), cfg)
    {
      out := ConfirmHoles(true);
    }

    method BeginFill(gid: int)
      modifies this
      ensures View() == GapLedger.BeginFill(old(View()), gid)
    {
      if gid !in gaps {
        fault := true;
      } else {
        var _ := Move(gid, Filling, None, true);
      }
    }

    method Resolve(gid: int)
      modifies this
      ensures View() == GapLedger.Resolve(old(View()), gid)
    {
      if gid !in gaps || gid !in missing {
        fault := true;
      } else {
        var g, miss := gaps[gid], missing[gid];
        var filled := g.expected - |miss|;
        var status := if miss == {} then Filled else if filled != 0 then Partial else Unfillable;
        var _ := Move(gid, status, Some(filled), false);
      }
    }
  }
}
