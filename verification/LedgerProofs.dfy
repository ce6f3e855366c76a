/** What every detector operation keeps: the two directions of the ledger stay inverse, statuses stay
    truthful, and no minute and no trade id is ever forgotten. */
module LedgerProofs {
  import opened Base
  import opened Events
  import opened GapLedger

  // ---------------------------------------------------------------- invariants

  /** `owner` and `missing` are inverse to each other. */
  ghost predicate Inverse(d: Ledger) {
    && d.gaps.Keys == d.missing.Keys
    && (forall g | g in d.gaps :: g < d.nextId && d.gaps[g].id == g)
    && (forall k | k in d.owner :: d.owner[k] in d.gaps && d.gaps[d.owner[k]].stream == k.0
         && k.1 in d.missing[d.owner[k]])
    && (forall g, x | g in d.gaps && x in d.missing[g] ::
          (d.gaps[g].stream, x) in d.owner && d.owner[(d.gaps[g].stream, x)] == g)
  }

  /** The record of a gap agrees with its missing set. */
  ghost predicate RecordOk(g: GapRecord, miss: set<int>) {
    && |miss| <= g.expected
    && 0 <= g.filledRows <= g.expected - |miss|
    && (g.status.Filled? ==> miss == {} && g.filledRows == g.expected)
    && (miss == {} ==> g.status.Filled? || g.status.Filling?)
    && (g.status.Open? ==> g.attempts == 0)
    && (g.stream.Klines? ==> forall x | x in miss :: g.tsLo <= x <= g.tsHi)
    && (g.stream.Trades? ==> g.seqLo.Some? && g.seqHi.Some? && forall x | x in miss ::
         g.seqLo.value <= x <= g.seqHi.value)
  }

  ghost predicate Records(d: Ledger)
    requires d.gaps.Keys == d.missing.Keys
  {
    forall g | g in d.gaps :: RecordOk(d.gaps[g], d.missing[g])
  }

  /** What has been received: first minute and closed minutes, first trade id and trade ids. */
  datatype History = History(first: Option<int>, got: set<int>, tFirst: Option<int>, seen: set<int>)

  predicate ExactlyOne(a: bool, b: bool, c: bool) {
    (a && !b && !c) || (!a && b && !c) || (!a && !b && c)
  }

  /** Minutes: from the first kline to the settle frontier each grid minute was received closed, or is
      missing in a gap, or (during a sweep) sits in the current run; a gap's range belongs to that gap alone. */
  ghost predicate KlineAcc(d: Ledger, tf: int, first: Option<int>, got: set<int>, run: seq<int>)
    requires tf > 0
  {
    if d.kLo.None? then
      first.None? && got == {} && d.kClosed == {} && run == [] &&
      (forall m :: (Klines, m) !in d.owner) && forall g | g in d.gaps :: d.gaps[g].stream.Trades?
    else
      && first.Some? && first.value <= d.kLo.value && OnGrid(first.value, tf, d.kLo.value)
      && (forall m | first.value <= m < d.kLo.value && OnGrid(first.value, tf, m) ::
            ExactlyOne(m in got, (Klines, m) in d.owner, m in run))
      && (forall m | (Klines, m) in d.owner || m in run :: first.value <= m < d.kLo.value && OnGrid(first.value, tf, m))
      && (forall m | d.kLo.value <= m :: m in d.kClosed <==> m in got)
      && RunOk(d.kLo.value, tf, first.value, run)
      && forall g | g in d.gaps && d.gaps[g].stream.Klines? :: RangeOk(d, tf, first.value, run, g)
  }

  /** From the first of `n` neighbouring grid points to the last. */
  function Span(n: int, tf: int): int {
    (n - 1) * tf
  }

  lemma SpanGrows(n: int, tf: int)
    ensures Span(1, tf) == 0 && Span(n + 1, tf) == Span(n, tf) + tf
  {
  }

  /** The current run is a contiguous stretch that ends just below the frontier. */
  ghost predicate RunOk(kLo: int, tf: int, first: int, run: seq<int>)
    requires tf > 0
  {
    run != [] ==>
      && run[|run| - 1] + tf == kLo && run[|run| - 1] - run[0] == Span(|run|, tf)
      && (forall i | 0 <= i < |run| :: run[0] <= run[i] <= run[|run| - 1])
      && (forall i, j | 0 <= i < j < |run| :: run[i] < run[j])
      && forall m | run[0] <= m < kLo && OnGrid(first, tf, m) :: m in run
  }

  predicate SameRange(a: GapRecord, b: GapRecord) {
    b.tsLo == a.tsLo && b.tsHi == a.tsHi && b.expected == a.expected
  }

  ghost predicate RangeOk(d: Ledger, tf: int, first: int, run: seq<int>, g: int)
    requires tf > 0 && g in d.gaps && d.kLo.Some?
  {
    var r := d.gaps[g];
    && first <= r.tsLo <= r.tsHi < d.kLo.value && OnGrid(first, tf, r.tsLo) && r.tsHi - r.tsLo == Span(r.expected, tf)
    && (run != [] ==> r.tsHi < run[0])
    && forall m | r.tsLo <= m <= r.tsHi && (Klines, m) in d.owner :: d.owner[(Klines, m)] == g
  }

  ghost predicate InHoles(holes: seq<Hole>, a: int) {
    exists i :: 0 <= i < |holes| && a in holes[i].missing
  }

  ghost predicate HolesOk(holes: seq<Hole>) {
    && (forall i | 0 <= i < |holes| :: holes[i].missing != {})
    && forall i, j | 0 <= i < j < |holes| :: holes[i].missing !! holes[j].missing
  }

  /** Trade ids: from the first to the greatest id each one was seen, or lies in exactly one candidate hole,
      or is missing in a gap. */
  ghost predicate TradeAcc(d: Ledger, tFirst: Option<int>, seen: set<int>, holes: seq<Hole>) {
    if d.tMax.None? then
      tFirst.None? && seen == {} && holes == [] && forall a :: (Trades, a) !in d.owner
    else
      && tFirst.Some? && tFirst.value <= d.tMax.value && d.tMax.value in seen && tFirst.value in seen
      && (forall a | a in seen :: a <= d.tMax.value)
      && HolesOk(holes)
      && (forall a | tFirst.value <= a <= d.tMax.value ::
            ExactlyOne(a in seen, (Trades, a) in d.owner, InHoles(holes, a)))
      && forall a | (Trades, a) in d.owner || InHoles(holes, a) :: tFirst.value < a < d.tMax.value
  }

  /** The whole detector invariant between two operations. */
  ghost predicate Inv(d: Ledger, tf: int, h: History)
    requires tf > 0
  {
    InvAt(d, tf, h, [], d.pending)
  }

  /** The same in the middle of a sweep (`run`) or of a confirmation pass (`holes`). */
  ghost predicate InvAt(d: Ledger, tf: int, h: History, run: seq<int>, holes: seq<Hole>)
    requires tf > 0
  {
    !d.fault && Inverse(d) && Records(d) && KlineAcc(d, tf, h.first, h.got, run) && TradeAcc(d, h.tFirst, h.seen, holes)
  }

  // ---------------------------------------------------------------- opening a gap

  /** The queue of the pipeline relies on this: an operation changes old records only by completing them,
      and reports exactly its new gaps as open, in order. */
  ghost predicate Evolves(d: Ledger, e: Ledger, out: seq<GapRecord>) {
    && d.nextId <= e.nextId
    && (forall g | g in d.gaps :: g in e.gaps && StatusStep(d.gaps[g].status, e.gaps[g].status)
                                  && e.gaps[g].stream == d.gaps[g].stream && e.gaps[g].attempts == d.gaps[g].attempts)
    && (forall g | g in d.gaps && g in d.missing :: g in e.missing && e.missing[g] <= d.missing[g])
    && (d.kLo.Some? ==> e.kLo.Some? && d.kLo.value <= e.kLo.value)
    && (forall g | g in e.gaps && g !in d.gaps :: e.gaps[g].status.Open? && d.nextId <= g)
    && OpenIds(out) == Ids(d.nextId, e.nextId)
    && (forall i | 0 <= i < |out| :: out[i].id in e.gaps && e.gaps[out[i].id] == out[i])
  }

  predicate StatusStep(a: Status, b: Status) {
    b == a || (b.Filled? && !a.Filling?)
  }

  function Ids(lo: int, hi: int): (s: seq<int>)
    ensures |s| == if lo >= hi then 0 else hi - lo
    ensures forall i | 0 <= i < |s| :: s[i] == lo + i
    decreases hi - lo
  {
    if lo >= hi then [] else [lo] + Ids(lo + 1, hi)
  }

  lemma OpenIdsHead(s: seq<GapRecord>)
    requires s != []
    ensures OpenIds(s) == (if s[0].status.Open? then [s[0].id] else []) + OpenIds(s[1..])
  {
  }

  lemma {:induction false} OpenIdsConcat(a: seq<GapRecord>, b: seq<GapRecord>)
    ensures OpenIds(a + b) == OpenIds(a) + OpenIds(b)
  {
    ConcatParts(a, b);
    if a == [] {
      assert OpenIds(a) + OpenIds(b) == OpenIds(b);
    } else {
      hide OpenIds;
      OpenIdsConcat(a[1..], b);
      OpenIdsHead(a);
      OpenIdsHead(a + b);
      ConcatAssociates(if a[0].status.Open? then [a[0].id] else [], OpenIds(a[1..]), OpenIds(b));
    }
  }

  lemma {:induction false} IdsConcat(lo: int, mid: int, hi: int)
    requires lo <= mid <= hi
    ensures Ids(lo, mid) + Ids(mid, hi) == Ids(lo, hi)
    decreases mid - lo
  {
    if lo < mid {
      IdsConcat(lo + 1, mid, hi);
    }
  }

  lemma EvolvesTwice(d: Ledger, e: Ledger, f: Ledger, a: seq<GapRecord>, b: seq<GapRecord>)
    requires Evolves(d, e, a) && Evolves(e, f, b)
    requires forall g | g in e.gaps :: e.gaps[g].status == f.gaps[g].status && f.gaps[g] == e.gaps[g]
    ensures Evolves(d, f, a + b)
  {
    OpenIdsConcat(a, b);
    IdsConcat(d.nextId, e.nextId, f.nextId);
  }

  lemma OpenKeepsInverse(d: Ledger, g: GapRecord, keys: set<int>)
    requires Inverse(d) && Records(d) && g.id == d.nextId && RecordOk(g, keys)
    requires forall k | k in keys :: (g.stream, k) !in d.owner
    ensures Inverse(OpenGap(d, g, keys)) && Records(OpenGap(d, g, keys))
  {
    hide RecordOk, Own;
    OpenInverse(d, g, keys);
  }

  lemma OpenInverse(d: Ledger, g: GapRecord, keys: set<int>)
    requires Inverse(d) && g.id == d.nextId && forall k | k in keys :: (g.stream, k) !in d.owner
    ensures Inverse(OpenGap(d, g, keys))
  {
    assert g.id !in d.gaps;
    var e := OpenGap(d, g, keys);
    OwnMember(d.owner, g.stream, keys, g.id);
    hide Own;
    forall k | k in e.owner
      ensures e.owner[k] in e.gaps && e.gaps[e.owner[k]].stream == k.0 && k.1 in e.missing[e.owner[k]]
    {
      assert k in d.owner ==> d.owner[k] in d.gaps;
    }
    forall q, x | q in e.gaps && x in e.missing[q]
      ensures (e.gaps[q].stream, x) in e.owner && e.owner[(e.gaps[q].stream, x)] == q
    {
      if q != g.id {
        assert (d.gaps[q].stream, x) in d.owner;
      }
    }
  }

  lemma OpenEvolves(d: Ledger, g: GapRecord, keys: set<int>)
    requires Inverse(d) && g.id == d.nextId && g.status.Open?
    ensures Evolves(d, OpenGap(d, g, keys), [g])
  {
    hide Own;
    assert g.id !in d.gaps;
    assert OpenIds([g][1..]) == [];
    assert Ids(d.nextId + 1, d.nextId + 1) == [];
  }

  // ---------------------------------------------------------------- minutes

  /** The trade side reads only the trade half of `owner`. */
  lemma TradeFrame(d: Ledger, e: Ledger, tFirst: Option<int>, seen: set<int>, holes: seq<Hole>)
    requires TradeAcc(d, tFirst, seen, holes)
    requires e.tMax == d.tMax && forall a :: (Trades, a) in e.owner <==> (Trades, a) in d.owner
    ensures TradeAcc(e, tFirst, seen, holes)
  {
  }

  lemma RunKlineAcc(d: Ledger, e: Ledger, tf: int, first: Option<int>, got: set<int>, run: seq<int>, g: int)
    requires tf > 0 && KlineAcc(d, tf, first, got, run) && run != []
    requires g !in d.gaps && e.gaps.Keys == d.gaps.Keys + {g} && e.kLo == d.kLo && e.kClosed == d.kClosed
    requires forall q | q in d.gaps :: e.gaps[q] == d.gaps[q]
    requires e.gaps[g].tsLo == run[0] && e.gaps[g].tsHi == run[|run| - 1] && e.gaps[g].expected == |run|
    requires forall m :: (Klines, m) in e.owner <==> (Klines, m) in d.owner || m in run
    requires forall m | (Klines, m) in e.owner :: e.owner[(Klines, m)] == if m in run then g else d.owner[(Klines, m)]
    ensures KlineAcc(e, tf, first, got, [])
  {
    assert run[0] in run && run[|run| - 1] in run;
    forall q | q in e.gaps && e.gaps[q].stream.Klines? ensures RangeOk(e, tf, first.value, [], q) {
      if q != g {
        assert RangeOk(d, tf, first.value, run, q);
      }
    }
  }

  lemma RunFresh(d: Ledger, tf: int, first: Option<int>, got: set<int>, run: seq<int>)
    requires tf > 0 && KlineAcc(d, tf, first, got, run) && run != []
    ensures forall m | m in run :: (Klines, m) !in d.owner && run[0] <= m <= run[|run| - 1]
  {
    forall m | m in run ensures (Klines, m) !in d.owner {
      assert ExactlyOne(m in got, (Klines, m) in d.owner, m in run);
    }
  }

  lemma RunSize(d: Ledger, tf: int, first: Option<int>, got: set<int>, run: seq<int>)
    requires tf > 0 && KlineAcc(d, tf, first, got, run) && run != []
    ensures |set m | m in run| == |run|
  {
    SizeOfDistinct(run);
  }

  lemma OpenKlinesOwner(d: Ledger, run: seq<int>)
    requires run != []
    ensures var (e, g) := OpenKlines(d, run);
            && (forall m :: (Klines, m) in e.owner <==> (Klines, m) in d.owner || m in run)
            && (forall m | (Klines, m) in e.owner ::
                 e.owner[(Klines, m)] == if m in run then g.id else d.owner[(Klines, m)])
            && (forall a :: (Trades, a) in e.owner <==> (Trades, a) in d.owner)
  {
    hide Own;
    var keys := set m | m in run;
    OwnMember(d.owner, Klines, keys, OpenKlines(d, run).1.id);
  }

  /** Closing the current run into one gap. */
  lemma OpenKlinesKeeps(d: Ledger, tf: int, h: History, run: seq<int>, holes: seq<Hole>)
    requires tf > 0 && InvAt(d, tf, h, run, holes) && run != []
    ensures InvAt(OpenKlines(d, run).0, tf, h, [], holes)
    ensures Evolves(d, OpenKlines(d, run).0, [OpenKlines(d, run).1])
    ensures forall g | g in d.gaps :: OpenKlines(d, run).0.gaps[g] == d.gaps[g]
  {
    var (e, g) := OpenKlines(d, run);
    assert g.id !in d.gaps && !e.fault && forall q | q in d.gaps :: e.gaps[q] == d.gaps[q];
    hide KlineAcc, TradeAcc, Evolves, Records, Inverse, Own, RecordOk;
    OpenKlinesRecords(d, tf, h, run);
    OpenKlinesAcc(d, tf, h, run, holes);
    hide OpenKlines;
  }

  lemma OpenKlinesRecords(d: Ledger, tf: int, h: History, run: seq<int>)
    requires tf > 0 && Inverse(d) && Records(d) && KlineAcc(d, tf, h.first, h.got, run) && run != []
    ensures var (e, g) := OpenKlines(d, run); Inverse(e) && Records(e) && Evolves(d, e, [g])
  {
    var keys := set m | m in run;
    var (e, g) := OpenKlines(d, run);
    assert run[0] in keys;
    RunFresh(d, tf, h.first, h.got, run);
    hide KlineAcc, Evolves, Records, Inverse, Own;
    assert RecordOk(g, keys);
    hide RecordOk;
    OpenKeepsInverse(d, g, keys);
    OpenEvolves(d, g, keys);
  }

  lemma OpenKlinesAcc(d: Ledger, tf: int, h: History, run: seq<int>, holes: seq<Hole>)
    requires tf > 0 && Inverse(d) && KlineAcc(d, tf, h.first, h.got, run) && TradeAcc(d, h.tFirst, h.seen, holes)
             && run != []
    ensures var e := OpenKlines(d, run).0; KlineAcc(e, tf, h.first, h.got, []) && TradeAcc(e, h.tFirst, h.seen, holes)
  {
    var (e, g) := OpenKlines(d, run);
    assert g.id !in d.gaps;
    hide KlineAcc, TradeAcc, Inverse, Own;
    OpenKlinesOwner(d, run);
    RunSize(d, tf, h.first, h.got, run);
    RunKlineAcc(d, e, tf, h.first, h.got, run, g.id);
    TradeFrame(d, e, h.tFirst, h.seen, holes);
  }

  /** The frontier passes a minute that has no closed candle. */
  lemma SettleMissing(d: Ledger, tf: int, first: Option<int>, got: set<int>, run: seq<int>)
    requires tf > 0 && KlineAcc(d, tf, first, got, run) && d.kLo.Some? && d.kLo.value !in d.kClosed
    ensures KlineAcc(d.(kLo := Some(d.kLo.value + tf)), tf, first, got, run + [d.kLo.value])
  {
    var m, f := d.kLo.value, first.value;
    var e, run' := d.(kLo := Some(m + tf)), run + [m];
    GridStep(f, tf, m);
    SpanGrows(|run|, tf);
    hide Span;
    forall x | f <= x < m + tf && OnGrid(f, tf, x) ensures x == m || x < m {
      if m <= x { GridGap(f, tf, m, x); }
    }
    forall q | q in e.gaps && e.gaps[q].stream.Klines? ensures RangeOk(e, tf, f, run', q) {
      assert RangeOk(d, tf, f, run, q);
    }
    assert forall x :: x in run' <==> x in run || x == m;
  }

  /** The frontier passes a minute whose closed candle arrived. */
  lemma SettleClosed(d: Ledger, tf: int, first: Option<int>, got: set<int>)
    requires tf > 0 && KlineAcc(d, tf, first, got, []) && d.kLo.Some? && d.kLo.value in d.kClosed
    ensures KlineAcc(d.(kLo := Some(d.kLo.value + tf), kClosed := d.kClosed - {d.kLo.value}), tf, first, got, [])
  {
    var m, f := d.kLo.value, first.value;
    var e := d.(kLo := Some(m + tf), kClosed := d.kClosed - {m});
    GridStep(f, tf, m);
    forall x | f <= x < m + tf && OnGrid(f, tf, x) ensures x == m || x < m {
      if m <= x { GridGap(f, tf, m, x); }
    }
    forall q | q in e.gaps && e.gaps[q].stream.Klines? ensures RangeOk(e, tf, f, [], q) {
      assert RangeOk(d, tf, f, [], q);
    }
  }

  /** State of a sweep that began at `d0` and has reported `out` so far. */
  ghost predicate Sweeping(d0: Ledger, d: Ledger, tf: int, h: History, run: seq<int>, out: seq<GapRecord>)
    requires tf > 0
  {
    && InvAt(d, tf, h, run, d0.pending) && Evolves(d0, d, out)
    && d.pending == d0.pending && d.latest == d0.latest && d.tMax == d0.tMax && d.tMaxTs == d0.tMaxTs
    && forall g | g in d0.gaps :: d.gaps[g] == d0.gaps[g]
  }

  lemma SweepCloseRun(d0: Ledger, d: Ledger, tf: int, h: History, run: seq<int>, out: seq<GapRecord>)
    requires tf > 0 && Sweeping(d0, d, tf, h, run, out) && run != []
    ensures Sweeping(d0, OpenKlines(d, run).0, tf, h, [], out + [OpenKlines(d, run).1])
  {
    OpenKlinesKeeps(d, tf, h, run, d0.pending);
    EvolvesTwice(d0, d, OpenKlines(d, run).0, out, [OpenKlines(d, run).1]);
  }

  lemma SweepPassClosed(d0: Ledger, d: Ledger, tf: int, h: History, out: seq<GapRecord>)
    requires tf > 0 && Sweeping(d0, d, tf, h, [], out) && d.kLo.Some? && d.kLo.value in d.kClosed
    ensures Sweeping(d0, d.(kLo := Some(d.kLo.value + tf), kClosed := d.kClosed - {d.kLo.value}), tf, h, [], out)
  {
    SettleClosed(d, tf, h.first, h.got);
    TradeFrame(d, d.(kLo := Some(d.kLo.value + tf), kClosed := d.kClosed - {d.kLo.value}), h.tFirst, h.seen,
      d0.pending);
  }

  lemma SweepPassMissing(d0: Ledger, d: Ledger, tf: int, h: History, run: seq<int>, out: seq<GapRecord>)
    requires tf > 0 && Sweeping(d0, d, tf, h, run, out) && d.kLo.Some? && d.kLo.value !in d.kClosed
    ensures Sweeping(d0, d.(kLo := Some(d.kLo.value + tf)), tf, h, run + [d.kLo.value], out)
  {
    SettleMissing(d, tf, h.first, h.got, run);
    TradeFrame(d, d.(kLo := Some(d.kLo.value + tf)), h.tFirst, h.seen, d0.pending);
  }

  lemma {:induction false} SweepFromKeeps(d: Ledger, cfg: ValidConfig, h: History, run: seq<int>, out: seq<GapRecord>,
      d0: Ledger)
    requires Sweeping(d0, d, cfg.tfNs, h, run, out) && (d.latest.None? || d.kLo.None? ==> run == [])
    ensures var (e, all) := SweepFrom(d, cfg, run, out); Sweeping(d0, e, cfg.tfNs, h, [], all)
    decreases if d.kLo.Some? && d.latest.Some? then d.latest.value - cfg.graceNs - d.kLo.value else 0
  {
    hide Inverse, Records, KlineAcc, TradeAcc, Evolves, Own;
    var tf := cfg.tfNs;
    if d.kLo.Some? && d.latest.Some? {
      var m := d.kLo.value;
      if m + tf <= d.latest.value - cfg.graceNs {
        if m in d.kClosed {
          if run != [] {
            SweepCloseRun(d0, d, tf, h, run, out);
            var (e, g) := OpenKlines(d, run);
            SweepPassClosed(d0, e, tf, h, out + [g]);
            SweepFromKeeps(e.(kLo := Some(m + tf), kClosed := e.kClosed - {m}), cfg, h, [], out + [g], d0);
          } else {
            SweepPassClosed(d0, d, tf, h, out);
            SweepFromKeeps(d.(kLo := Some(m + tf), kClosed := d.kClosed - {m}), cfg, h, [], out, d0);
          }
        } else {
          SweepPassMissing(d0, d, tf, h, run, out);
          SweepFromKeeps(d.(kLo := Some(m + tf)), cfg, h, run + [m], out, d0);
        }
      } else if run != [] {
        SweepCloseRun(d0, d, tf, h, run, out);
      }
    }
  }

  lemma SweepKeeps(d: Ledger, cfg: ValidConfig, h: History)
    requires Inv(d, cfg.tfNs, h)
    ensures var (e, out) := Sweep(d, cfg); Sweeping(d, e, cfg.tfNs, h, [], out)
  {
    assert Ids(d.nextId, d.nextId) == [];
    SweepFromKeeps(d, cfg, h, [], [], d);
  }

  // ---------------------------------------------------------------- trades

  /** The minute side reads only the minute half of the ledger. */
  lemma KlineFrame(d: Ledger, e: Ledger, tf: int, first: Option<int>, got: set<int>)
    requires tf > 0 && KlineAcc(d, tf, first, got, [])
    requires e.kLo == d.kLo && e.kClosed == d.kClosed
    requires forall m :: (Klines, m) in e.owner <==> (Klines, m) in d.owner
    requires forall m | (Klines, m) in d.owner :: e.owner[(Klines, m)] == d.owner[(Klines, m)]
    requires forall g | g in e.gaps && e.gaps[g].stream.Klines? ::
               g in d.gaps && d.gaps[g].stream.Klines? && SameRange(d.gaps[g], e.gaps[g])
    ensures KlineAcc(e, tf, first, got, [])
  {
    if d.kLo.Some? {
      forall q | q in e.gaps && e.gaps[q].stream.Klines? ensures RangeOk(e, tf, first.value, [], q) {
        assert RangeOk(d, tf, first.value, [], q);
      }
    } else {
      forall q | q in e.gaps ensures e.gaps[q].stream.Trades? { }
    }
  }

  /** State of a confirmation pass that began at `d0`, has `holes` ahead and keeps `keep`. */
  ghost predicate Confirming(d0: Ledger, d: Ledger, tf: int, h: History, keep: seq<Hole>, holes: seq<Hole>,
      out: seq<GapRecord>)
    requires tf > 0
  {
    && InvAt(d, tf, h, [], keep + holes) && Evolves(d0, d, out)
    && d.latest == d0.latest && d.kLo == d0.kLo && d.tMax == d0.tMax && d.tMaxTs == d0.tMaxTs
    && forall g | g in d0.gaps :: d.gaps[g] == d0.gaps[g]
  }

  lemma HoleTradeAcc(d: Ledger, e: Ledger, tFirst: Option<int>, seen: set<int>, keep: seq<Hole>, holes: seq<Hole>)
    requires TradeAcc(d, tFirst, seen, keep + holes) && holes != [] && e.tMax == d.tMax
    requires forall a :: (Trades, a) in e.owner <==> (Trades, a) in d.owner || a in holes[0].missing
    ensures TradeAcc(e, tFirst, seen, keep + holes[1..])
  {
    var all, fewer, n := keep + holes, keep + holes[1..], |keep|;
    assert all[n] == holes[0];
    assert forall i | 0 <= i < |fewer| :: fewer[i] == if i < n then all[i] else all[i + 1];
    forall a ensures InHoles(all, a) <==> InHoles(fewer, a) || a in holes[0].missing {
      if InHoles(all, a) {
        var i :| 0 <= i < |all| && a in all[i].missing;
        if i < n { assert a in fewer[i].missing; } else if i > n { assert a in fewer[i - 1].missing; }
      }
      if InHoles(fewer, a) {
        var i :| 0 <= i < |fewer| && a in fewer[i].missing;
        assert a in all[if i < n then i else i + 1].missing;
      }
    }
    assert HolesOk(all);
    forall i | 0 <= i < |fewer| ensures fewer[i].missing != {} {
      assert all[if i < n then i else i + 1].missing != {};
    }
    forall i, j | 0 <= i < j < |fewer| ensures fewer[i].missing !! fewer[j].missing {
      assert all[if i < n then i else i + 1].missing !! all[if j < n then j else j + 1].missing;
    }
    forall a ensures !(InHoles(fewer, a) && a in holes[0].missing) {
      if InHoles(fewer, a) {
        var i :| 0 <= i < |fewer| && a in fewer[i].missing;
        assert all[if i < n then i else i + 1].missing !! all[n].missing;
      }
    }
  }

  lemma HoleFresh(d: Ledger, tFirst: Option<int>, seen: set<int>, keep: seq<Hole>, holes: seq<Hole>)
    requires TradeAcc(d, tFirst, seen, keep + holes) && holes != []
    ensures holes[0].missing != {} && forall a | a in holes[0].missing :: (Trades, a) !in d.owner
  {
    assert (keep + holes)[|keep|] == holes[0];
    assert forall a | a in holes[0].missing :: InHoles(keep + holes, a);
  }

  /** Turning the first candidate into a gap. */
  lemma OpenHoleKeeps(d: Ledger, tf: int, h: History, keep: seq<Hole>, holes: seq<Hole>)
    requires tf > 0 && InvAt(d, tf, h, [], keep + holes) && holes != []
    ensures InvAt(OpenHole(d, holes[0]).0, tf, h, [], keep + holes[1..])
    ensures Evolves(d, OpenHole(d, holes[0]).0, [OpenHole(d, holes[0]).1])
    ensures forall g | g in d.gaps :: OpenHole(d, holes[0]).0.gaps[g] == d.gaps[g]
  {
    hide KlineAcc, TradeAcc, Evolves, Records;
    var keys := holes[0].missing;
    HoleFresh(d, h.tFirst, h.seen, keep, holes);
    var (e, g) := OpenHole(d, holes[0]);
    OpenKeepsInverse(d, g, keys);
    OpenEvolves(d, g, keys);
    OwnMember(d.owner, Trades, keys, g.id);
    HoleTradeAcc(d, e, h.tFirst, h.seen, keep, holes);
    KlineFrame(d, e, tf, h.first, h.got);
  }

  lemma ConfirmOpen(d0: Ledger, d: Ledger, tf: int, h: History, keep: seq<Hole>, holes: seq<Hole>, out: seq<GapRecord>)
    requires tf > 0 && Confirming(d0, d, tf, h, keep, holes, out) && holes != []
    ensures Confirming(d0, OpenHole(d, holes[0]).0, tf, h, keep, holes[1..], out + [OpenHole(d, holes[0]).1])
  {
    OpenHoleKeeps(d, tf, h, keep, holes);
    EvolvesTwice(d0, d, OpenHole(d, holes[0]).0, out, [OpenHole(d, holes[0]).1]);
  }

  lemma {:induction false} ConfirmFromKeeps(d0: Ledger, d: Ledger, cfg: ValidConfig, force: bool, h: History,
                                            holes: seq<Hole>, keep: seq<Hole>, out: seq<GapRecord>)
    requires Confirming(d0, d, cfg.tfNs, h, keep, holes, out)
    ensures var (e, all) := ConfirmFrom(d, cfg, force, holes, keep, out);
            Confirming(d0, e, cfg.tfNs, h, e.pending, [], all)
    ensures force ==> ConfirmFrom(d, cfg, force, holes, keep, out).0.pending == keep
    decreases |holes|
  {
    if holes == [] {
      var e := d.(pending := keep);
      assert keep + holes == keep == e.pending + [];
      KlineFrame(d, e, cfg.tfNs, h.first, h.got);
    } else if Ripe(d, cfg, force, holes[0]) {
      ConfirmOpen(d0, d, cfg.tfNs, h, keep, holes, out);
      var (e, g) := OpenHole(d, holes[0]);
      ConfirmFromKeeps(d0, e, cfg, force, h, holes[1..], keep, out + [g]);
    } else {
      assert keep + holes == (keep + [holes[0]]) + holes[1..];
      ConfirmFromKeeps(d0, d, cfg, force, h, holes[1..], keep + [holes[0]], out);
    }
  }

  lemma ConfirmKeeps(d: Ledger, cfg: ValidConfig, force: bool, h: History)
    requires Inv(d, cfg.tfNs, h)
    ensures var (e, out) := Confirm(d, cfg, force);
            Confirming(d, e, cfg.tfNs, h, e.pending, [], out) && Inv(e, cfg.tfNs, h)
    ensures force ==> Confirm(d, cfg, force).0.pending == []
  {
    assert Ids(d.nextId, d.nextId) == [];
    assert [] + d.pending == d.pending;
    ConfirmFromKeeps(d, d, cfg, force, h, d.pending, [], []);
    var e := Confirm(d, cfg, force).0;
    assert e.pending + [] == e.pending;
  }

  // ---------------------------------------------------------------- a key arrives

  /** Removing one key from its gap keeps the two directions inverse. */
  lemma RemoveKeepsInverse(d: Ledger, e: Ledger, k: (Stream, int))
    requires Inverse(d) && k in d.owner && e.nextId == d.nextId && e.gaps.Keys == d.gaps.Keys
    requires e.owner == d.owner - {k} && e.missing == d.missing[d.owner[k] := d.missing[d.owner[k]] - {k.1}]
    requires forall g | g in d.gaps :: e.gaps[g].id == g && e.gaps[g].stream == d.gaps[g].stream
    ensures Inverse(e)
  {
    forall g, x | g in e.gaps && x in e.missing[g]
      ensures (e.gaps[g].stream, x) in e.owner && e.owner[(e.gaps[g].stream, x)] == g
    {
      assert x in d.missing[g];
    }
  }

  /** The record after a fill: completed if nothing is missing any more and no attempt is under way. */
  function Filled1(g: GapRecord, miss: set<int>): GapRecord {
    var filled := g.expected - |miss|;
    if miss == {} && !g.status.Filling? then g.(status := Filled, filledRows := filled)
    else if g.status.Filling? then g.(filledRows := filled)
    else g
  }

  lemma FillValue(d: Ledger, stream: Stream, key: int)
    requires !d.fault && Inverse(d) && Records(d) && (stream, key) in d.owner
    ensures var (e, hit, out) := Fill(d, stream, key);
            var gid := d.owner[(stream, key)];
            var miss := d.missing[gid] - {key};
            var g := Filled1(d.gaps[gid], miss);
            && hit && e == d.(owner := d.owner - {(stream, key)}, missing := d.missing[gid := miss],
                 gaps := d.gaps[gid := g])
            && out == (if miss == {} && !d.gaps[gid].status.Filling? then [g] else [])
            && RecordOk(g, miss) && StatusStep(d.gaps[gid].status, g.status)
  {
    var gid := d.owner[(stream, key)];
    var miss := d.missing[gid] - {key};
    assert |miss| == |d.missing[gid]| - 1;
    assert RecordOk(d.gaps[gid], d.missing[gid]);
    assert d.gaps[gid := d.gaps[gid]] == d.gaps;
  }

  lemma FillHit(d: Ledger, e: Ledger, k: (Stream, int), g: GapRecord, out: seq<GapRecord>)
    requires Inverse(d) && Records(d) && k in d.owner
    requires var gid := d.owner[k];
             var miss := d.missing[gid] - {k.1};
             && g == Filled1(d.gaps[gid], miss) && RecordOk(g, miss) && StatusStep(d.gaps[gid].status, g.status)
             && e == d.(owner := d.owner - {k}, missing := d.missing[gid := miss], gaps := d.gaps[gid := g])
             && (out == [] || (out == [g] && g.status.Filled?))
    ensures Inverse(e) && Records(e) && Evolves(d, e, out)
  {
    hide RecordOk;
    var gid := d.owner[k];
    assert gid in d.gaps && g.id == gid;
    RemoveKeepsInverse(d, e, k);
    hide Inverse;
    OneChanged(d, e, gid, out);
    hide Evolves;
    assert Records(e);
  }

  /** One record changed its status or row count; at most it is reported as completed. */
  lemma OneChanged(d: Ledger, e: Ledger, gid: int, out: seq<GapRecord>)
    requires gid in d.gaps && gid in d.missing && gid in e.gaps && gid in e.missing && e.nextId == d.nextId
             && e.kLo == d.kLo
    requires e.gaps == d.gaps[gid := e.gaps[gid]] && e.missing == d.missing[gid := e.missing[gid]]
             && e.missing[gid] <= d.missing[gid]
    requires StatusStep(d.gaps[gid].status, e.gaps[gid].status) && e.gaps[gid].stream == d.gaps[gid].stream
    requires e.gaps[gid].attempts == d.gaps[gid].attempts && e.gaps[gid].id == gid
    requires out == [] || (out == [e.gaps[gid]] && e.gaps[gid].status.Filled?)
    ensures Evolves(d, e, out)
  {
    assert Ids(d.nextId, d.nextId) == [];
    assert out != [] ==> OpenIds(out) == OpenIds(out[1..]) == [];
  }

  /** A fill is never an illegal transition; it removes exactly the key and keeps every record truthful. */
  lemma FillKeeps(d: Ledger, stream: Stream, key: int)
    requires !d.fault && Inverse(d) && Records(d)
    ensures var (e, hit, out) := Fill(d, stream, key);
            && !e.fault && Inverse(e) && Records(e) && Evolves(d, e, out)
            && (hit <==> (stream, key) in d.owner)
            && e.owner == d.owner - {(stream, key)}
            && e == d.(owner := e.owner, missing := e.missing, gaps := e.gaps)
            && e.gaps.Keys == d.gaps.Keys
            && forall g | g in d.gaps :: e.gaps[g].stream == d.gaps[g].stream && SameRange(d.gaps[g], e.gaps[g])
  {
    if (stream, key) in d.owner {
      FillValue(d, stream, key);
      var gid := d.owner[(stream, key)];
      assert gid in d.gaps;
      var (e, _, out) := Fill(d, stream, key);
      FillHit(d, e, (stream, key), e.gaps[gid], out);
      hide Inverse, Records, Evolves, Fill, RecordOk;
    } else {
      assert Ids(d.nextId, d.nextId) == [];
      assert d.owner - {(stream, key)} == d.owner;
    }
  }

  function SeeKline(h: History, c: Candle): History {
    h.(first := if h.first.None? then Some(c.openNs) else h.first,
      got := if c.closed then h.got + {c.openNs} else h.got)
  }

  function SeeTrade(h: History, a: int): History {
    h.(tFirst := if h.tFirst.None? then Some(a) else h.tFirst, seen := h.seen + {a})
  }

  lemma StartKlines(d: Ledger, tf: int, first: Option<int>, got: set<int>, o: int)
    requires tf > 0 && KlineAcc(d, tf, first, got, []) && d.kLo.None?
    ensures KlineAcc(d.(kLo := Some(o)), tf, Some(o), got, [])
  {
    assert OnGrid(o, tf, o);
  }

  lemma FillKlineAcc(d: Ledger, e: Ledger, tf: int, first: Option<int>, got: set<int>, o: int)
    requires tf > 0 && KlineAcc(d, tf, first, got, []) && d.kLo.Some? && o < d.kLo.value
    requires e.kLo == d.kLo && e.kClosed == d.kClosed && e.owner == d.owner - {(Klines, o)}
             && e.gaps.Keys == d.gaps.Keys
    requires forall g | g in d.gaps :: e.gaps[g].stream == d.gaps[g].stream && SameRange(d.gaps[g], e.gaps[g])
    ensures KlineAcc(e, tf, first, got + {o}, [])
  {
    forall q | q in e.gaps && e.gaps[q].stream.Klines? ensures RangeOk(e, tf, first.value, [], q) {
      assert RangeOk(d, tf, first.value, [], q);
    }
  }

  lemma NoteKlineKeeps(d: Ledger, tf: int, h: History, c: Candle)
    requires tf > 0 && Inv(d, tf, h)
    ensures var (e, out) := NoteKline(d, c);
            Inv(e, tf, SeeKline(h, c)) && Evolves(d, e, out) && e.pending == d.pending && e.latest == d.latest
            && e.kLo == (if d.kLo.None? then Some(c.openNs) else d.kLo)
  {
    hide KlineAcc, TradeAcc, Inverse, Records, Evolves;
    var o := c.openNs;
    var d1 := if d.kLo.None? then d.(kLo := Some(o)) else d;
    var h1 := h.(first := if h.first.None? then Some(o) else h.first);
    FirstKlineKeeps(d, tf, h, o);
    if o < d1.kLo.value && c.closed {
      LateKlineKeeps(d1, tf, h1, o);
      EvolvesFrom(d, d1, Fill(d1, Klines, o).0, Fill(d1, Klines, o).2);
    } else {
      var e := if c.closed then d1.(kClosed := d1.kClosed + {o}) else d1;
      NothingNew(d, e);
      if c.closed {
        ClosedKlineAcc(d1, tf, h1.first, h.got, o);
        TradeFrame(d1, e, h.tFirst, h.seen, d.pending);
        SameGaps(d1, e);
      }
    }
  }

  /** The first kline of all sets the frontier. */
  lemma FirstKlineKeeps(d: Ledger, tf: int, h: History, o: int)
    requires tf > 0 && Inv(d, tf, h)
    ensures Inv(if d.kLo.None? then d.(kLo := Some(o)) else d, tf,
            h.(first := if h.first.None? then Some(o) else h.first))
  {
    hide KlineAcc, TradeAcc, Inverse, Records;
    KlineFirst(d, tf, h.first, h.got);
    if d.kLo.None? {
      StartKlines(d, tf, h.first, h.got, o);
      TradeFrame(d, d.(kLo := Some(o)), h.tFirst, h.seen, d.pending);
      SameGaps(d, d.(kLo := Some(o)));
    }
  }

  lemma SameGaps(d: Ledger, e: Ledger)
    requires Inverse(d) && Records(d) && e == d.(kLo := e.kLo, kClosed := e.kClosed)
    ensures Inverse(e) && Records(e)
  {
  }

  lemma NothingNew(d: Ledger, e: Ledger)
    requires e == d.(kLo := e.kLo, kClosed := e.kClosed) && (d.kLo.Some? ==> e.kLo == d.kLo)
    ensures Evolves(d, e, [])
  {
    assert Ids(d.nextId, d.nextId) == [];
  }

  lemma EvolvesFrom(d: Ledger, d1: Ledger, e: Ledger, out: seq<GapRecord>)
    requires d1 == d.(kLo := d1.kLo) && (d.kLo.Some? ==> d1.kLo == d.kLo) && Evolves(d1, e, out)
    ensures Evolves(d, e, out)
  {
  }

  /** A closed candle behind the frontier fills the gap that waits for it. */
  lemma LateKlineKeeps(d: Ledger, tf: int, h: History, o: int)
    requires tf > 0 && Inv(d, tf, h) && d.kLo.Some? && o < d.kLo.value
    ensures var (e, _, out) := Fill(d, Klines, o);
            Inv(e, tf, h.(got := h.got + {o})) && Evolves(d, e, out) && e.pending == d.pending && e.latest == d.latest
              && e.kLo == d.kLo
  {
    hide KlineAcc, TradeAcc;
    FillKeeps(d, Klines, o);
    var e := Fill(d, Klines, o).0;
    FillKlineAcc(d, e, tf, h.first, h.got, o);
    TradeFrame(d, e, h.tFirst, h.seen, d.pending);
  }

  lemma KlineFirst(d: Ledger, tf: int, first: Option<int>, got: set<int>)
    requires tf > 0 && KlineAcc(d, tf, first, got, [])
    ensures d.kLo.None? <==> first.None?
  {
  }

  lemma ClosedKlineAcc(d: Ledger, tf: int, first: Option<int>, got: set<int>, o: int)
    requires tf > 0 && KlineAcc(d, tf, first, got, []) && d.kLo.Some? && d.kLo.value <= o
    ensures KlineAcc(d.(kClosed := d.kClosed + {o}), tf, first, got + {o}, [])
  {
    var e := d.(kClosed := d.kClosed + {o});
    forall q | q in e.gaps && e.gaps[q].stream.Klines? ensures RangeOk(e, tf, first.value, [], q) {
      assert RangeOk(d, tf, first.value, [], q);
    }
  }

  lemma NewIdTradeAcc(d: Ledger, tFirst: Option<int>, seen: set<int>, a: int, h: Hole)
    requires TradeAcc(d, tFirst, seen, d.pending) && d.tMax.Some? && d.tMax.value < a
    requires h.missing == IdRange(d.tMax.value + 1, a)
    ensures var holes := if a > d.tMax.value + 1 then d.pending + [h] else d.pending;
            TradeAcc(d.(tMax := Some(a)), tFirst, seen + {a}, holes)
  {
    var holes := if a > d.tMax.value + 1 then d.pending + [h] else d.pending;
    forall x ensures InHoles(holes, x) <==> InHoles(d.pending, x) || d.tMax.value < x < a {
      if d.tMax.value < x < a { assert x in holes[|d.pending|].missing; }
      if InHoles(d.pending, x) {
        var i :| 0 <= i < |d.pending| && x in d.pending[i].missing;
        assert x in holes[i].missing;
      }
    }
    assert HolesOk(holes) by {
      forall i | 0 <= i < |holes| ensures holes[i].missing != {} {
        if i == |d.pending| { assert d.tMax.value + 1 in h.missing; }
      }
      forall i, j | 0 <= i < j < |holes| ensures holes[i].missing !! holes[j].missing {
        forall x | x in holes[i].missing ensures x !in holes[j].missing {
          assert InHoles(d.pending, x);
        }
      }
    }
  }

  /** Id `a` leaves candidate `i`; a candidate that becomes empty is dropped. */
  function Healed(holes: seq<Hole>, i: nat, a: int): seq<Hole>
    requires i < |holes|
  {
    var h := holes[i].(missing := holes[i].missing - {a});
    if h.missing == {} then holes[..i] + holes[i + 1..] else holes[i := h]
  }

  lemma HealedHoles(holes: seq<Hole>, i: nat, a: int)
    requires HolesOk(holes) && i < |holes| && a in holes[i].missing
    ensures HolesOk(Healed(holes, i, a))
    ensures forall x :: InHoles(Healed(holes, i, a), x) <==> InHoles(holes, x) && x != a
  {
    var r := Healed(holes, i, a);
    var drop := holes[i].missing - {a} == {};
    forall x ensures InHoles(r, x) <==> InHoles(holes, x) && x != a {
      if InHoles(r, x) {
        var j :| 0 <= j < |r| && x in r[j].missing;
        var k := if drop && j >= i then j + 1 else j;
        assert x in holes[k].missing;
        assert k < i ==> holes[k].missing !! holes[i].missing;
        assert k > i ==> holes[i].missing !! holes[k].missing;
      }
      if InHoles(holes, x) && x != a {
        var j :| 0 <= j < |holes| && x in holes[j].missing;
        assert j == i ==> x in holes[i].missing - {a};
        assert x in r[if drop && j > i then j - 1 else j].missing;
      }
    }
    forall j | 0 <= j < |r| ensures r[j].missing != {} {
      assert holes[if drop && j >= i then j + 1 else j].missing != {};
    }
    forall j, k | 0 <= j < k < |r| ensures r[j].missing !! r[k].missing {
      assert holes[if drop && j >= i then j + 1 else j].missing !! holes[if drop && k >= i then k + 1 else k].missing;
    }
  }

  /** The trade side after id `a` at or below the greatest id was taken out of a hole or of a gap. */
  lemma OldIdTradeAcc(d: Ledger, e: Ledger, tFirst: Option<int>, seen: set<int>, holes: seq<Hole>, a: int)
    requires TradeAcc(d, tFirst, seen, d.pending) && d.tMax.Some? && a <= d.tMax.value && e.tMax == d.tMax
    requires HolesOk(holes)
    requires forall x :: InHoles(holes, x) <==> InHoles(d.pending, x) && x != a
    requires forall x :: (Trades, x) in e.owner <==> (Trades, x) in d.owner && x != a
    ensures TradeAcc(e, tFirst, seen + {a}, holes)
  {
  }

  lemma TradeIdOut(d: Ledger, tFirst: Option<int>, seen: set<int>, a: int)
    requires TradeAcc(d, tFirst, seen, d.pending)
    ensures d.tMax.None? <==> tFirst.None?
    ensures HolesOk(d.pending)
    ensures InHoles(d.pending, a) ==> (Trades, a) !in d.owner
    ensures d.tMax.Some? && a == d.tMax.value ==> (Trades, a) !in d.owner && !InHoles(d.pending, a) && a in seen
  {
  }

  /** The ledger proper is untouched. */
  lemma LedgerFrame(d: Ledger, e: Ledger)
    requires Inverse(d) && Records(d) && e.kLo == d.kLo
    requires e.gaps == d.gaps && e.missing == d.missing && e.owner == d.owner && e.nextId == d.nextId
    ensures Inverse(e) && Records(e) && Evolves(d, e, [])
  {
    assert Ids(d.nextId, d.nextId) == [];
  }

  lemma NoteNewTrade(d: Ledger, tf: int, h: History, a: int, ts: int)
    requires tf > 0 && Inv(d, tf, h) && d.latest.Some? && (d.tMax.Some? ==> d.tMax.value < a)
    ensures var (e, out) := NoteTrade(d, a, ts);
            Inv(e, tf, SeeTrade(h, a)) && Evolves(d, e, out) && e.latest == d.latest && e.kLo == d.kLo
  {
    hide KlineAcc, HolesOk, InHoles, Inverse, Records, Evolves;
    var e := NoteTrade(d, a, ts).0;
    TradeIdOut(d, h.tFirst, h.seen, a);
    LedgerFrame(d, e);
    KlineFrame(d, e, tf, h.first, h.got);
    if d.tMax.None? {
      NoHoles(e.pending);
    } else {
      hide TradeAcc;
      var hole := Hole(IdRange(d.tMax.value + 1, a), d.tMaxTs, ts, if d.latest.value != 0 then d.latest.value else ts);
      NewIdTradeAcc(d, h.tFirst, h.seen, a, hole);
      TradeFrame(d.(tMax := Some(a)), e, h.tFirst, h.seen + {a}, e.pending);
    }
  }

  lemma NoteOldTrade(d: Ledger, tf: int, h: History, a: int, ts: int)
    requires tf > 0 && Inv(d, tf, h) && d.latest.Some? && d.tMax.Some? && a <= d.tMax.value
    ensures var (e, out) := NoteTrade(d, a, ts);
            Inv(e, tf, SeeTrade(h, a)) && Evolves(d, e, out) && e.latest == d.latest && e.kLo == d.kLo
  {
    hide KlineAcc, TradeAcc, HolesOk, InHoles, Inverse, Records, Evolves;
    var (e, out) := NoteTrade(d, a, ts);
    TradeIdOut(d, h.tFirst, h.seen, a);
    if a < d.tMax.value {
      var i := FindHole(d.pending, a);
      if i < |d.pending| {
        HealedHoles(d.pending, i, a);
        HoleWitness(d.pending, i, a);
        LedgerFrame(d, e);
        KlineFrame(d, e, tf, h.first, h.got);
        OldIdTradeAcc(d, e, h.tFirst, h.seen, e.pending, a);
      } else {
        FillKeeps(d, Trades, a);
        NotInHoles(d.pending, a);
        KlineFrame(d, e, tf, h.first, h.got);
        OldIdTradeAcc(d, e, h.tFirst, h.seen, d.pending, a);
      }
    } else {
      LedgerFrame(d, e);
      assert h.seen + {a} == h.seen;
    }
  }

  lemma HoleWitness(holes: seq<Hole>, i: nat, a: int)
    requires i < |holes| && a in holes[i].missing
    ensures InHoles(holes, a)
  {
  }

  lemma NotInHoles(holes: seq<Hole>, a: int)
    requires FindHole(holes, a) == |holes|
    ensures !InHoles(holes, a)
  {
  }

  lemma NoHoles(holes: seq<Hole>)
    requires holes == []
    ensures HolesOk(holes) && forall a :: !InHoles(holes, a)
  {
  }

  // ---------------------------------------------------------------- whole operations

  lemma AdvanceKeeps(d: Ledger, tf: int, h: History, ts: int)
    requires tf > 0 && Inv(d, tf, h)
    ensures Inv(Advance(d, ts), tf, h) && Evolves(d, Advance(d, ts), [])
    ensures Advance(d, ts) == d.(latest := Advance(d, ts).latest) && Advance(d, ts).latest.Some?
  {
    hide KlineAcc, TradeAcc;
    var e := Advance(d, ts);
    LedgerFrame(d, e);
    KlineFrame(d, e, tf, h.first, h.got);
    TradeFrame(d, e, h.tFirst, h.seen, d.pending);
  }

  /** Two passes that only open gaps, after a first stage that may have completed some. */
  lemma ThreeStages(d: Ledger, e: Ledger, f: Ledger, k: Ledger, a: seq<GapRecord>, b: seq<GapRecord>, c: seq<GapRecord>)
    requires Evolves(d, e, a) && Evolves(e, f, b) && Evolves(f, k, c)
    requires forall g | g in e.gaps :: f.gaps[g] == e.gaps[g]
    requires forall g | g in f.gaps :: k.gaps[g] == f.gaps[g]
    ensures Evolves(d, k, a + b + c)
  {
    EvolvesTwice(d, e, f, a, b);
    EvolvesTwice(d, f, k, a + b, c);
  }

  lemma OnTimeKeeps(d: Ledger, cfg: ValidConfig, h: History, ts: int)
    requires Inv(d, cfg.tfNs, h)
    ensures var (e, out) := OnTime(d, cfg, ts); Inv(e, cfg.tfNs, h) && Evolves(d, e, out)
  {
    hide KlineAcc, TradeAcc, Inverse, Records, Evolves;
    var d0 := Advance(d, ts);
    AdvanceKeeps(d, cfg.tfNs, h, ts);
    SweepKeeps(d0, cfg, h);
    var (d1, a) := Sweep(d0, cfg);
    ConfirmKeeps(d1, cfg, false, h);
    var (d2, b) := Confirm(d1, cfg, false);
    ThreeStages(d, d0, d1, d2, [], a, b);
    assert [] + a + b == a + b;
  }

  lemma OnKlineKeeps(d: Ledger, cfg: ValidConfig, h: History, c: Candle, ts: int)
    requires Inv(d, cfg.tfNs, h)
    ensures var (e, out) := OnKline(d, cfg, c, ts);
            && Inv(e, cfg.tfNs, if c.tf == cfg.tf && c.instrument == cfg.instrument then SeeKline(h, c) else h)
            && Evolves(d, e, out)
  {
    if c.tf != cfg.tf || c.instrument != cfg.instrument {
      LedgerFrame(d, d);
    } else {
      hide KlineAcc, TradeAcc, Inverse, Records, Evolves;
      var h' := SeeKline(h, c);
      var d0 := Advance(d, ts);
      AdvanceKeeps(d, cfg.tfNs, h, ts);
      NoteKlineKeeps(d0, cfg.tfNs, h, c);
      var (d1, a) := NoteKline(d0, c);
      SweepKeeps(d1, cfg, h');
      var (d2, b) := Sweep(d1, cfg);
      ConfirmKeeps(d2, cfg, false, h');
      var (d3, x) := Confirm(d2, cfg, false);
      LatestFrame(d, d0, d1, a);
      ThreeStages(d, d1, d2, d3, a, b, x);
    }
  }

  lemma LatestFrame(d: Ledger, d0: Ledger, e: Ledger, out: seq<GapRecord>)
    requires d0 == d.(latest := d0.latest) && Evolves(d0, e, out)
    ensures Evolves(d, e, out)
  {
  }

  lemma OnTradeKeeps(d: Ledger, cfg: ValidConfig, h: History, instrument: string, a: int, ts: int)
    requires Inv(d, cfg.tfNs, h)
    ensures var (e, out) := OnTrade(d, cfg, instrument, a, ts);
            && Inv(e, cfg.tfNs, if instrument == cfg.instrument then SeeTrade(h, a) else h) && Evolves(d, e, out)
  {
    if instrument != cfg.instrument {
      LedgerFrame(d, d);
    } else {
      hide KlineAcc, TradeAcc, Inverse, Records, Evolves;
      var h' := SeeTrade(h, a);
      var d0 := Advance(d, ts);
      AdvanceKeeps(d, cfg.tfNs, h, ts);
      if d0.tMax.Some? && a <= d0.tMax.value {
        NoteOldTrade(d0, cfg.tfNs, h, a, ts);
      } else {
        NoteNewTrade(d0, cfg.tfNs, h, a, ts);
      }
      var (d1, x) := NoteTrade(d0, a, ts);
      ConfirmKeeps(d1, cfg, false, h');
      var (d2, y) := Confirm(d1, cfg, false);
      SweepKeeps(d2, cfg, h');
      var (d3, z) := Sweep(d2, cfg);
      LatestFrame(d, d0, d1, x);
      ThreeStages(d, d1, d2, d3, x, y, z);
    }
  }

  /** One record changes its status, row count and attempt count, and stays truthful. */
  lemma RecordChange(d: Ledger, tf: int, h: History, gid: int, g: GapRecord)
    requires tf > 0 && Inv(d, tf, h) && gid in d.gaps && RecordOk(g, d.missing[gid])
    requires g == d.gaps[gid].(status := g.status, filledRows := g.filledRows, attempts := g.attempts)
    ensures Inv(d.(gaps := d.gaps[gid := g]), tf, h)
  {
    hide KlineAcc, TradeAcc;
    var e := d.(gaps := d.gaps[gid := g]);
    KlineFrame(d, e, tf, h.first, h.got);
    TradeFrame(d, e, h.tFirst, h.seen, d.pending);
  }

  lemma BeginFillKeeps(d: Ledger, tf: int, h: History, gid: int)
    requires tf > 0 && Inv(d, tf, h)
    ensures BeginFill(d, gid).fault <==> gid !in d.gaps || d.gaps[gid].status.Filled?
    ensures !BeginFill(d, gid).fault ==>
              Inv(BeginFill(d, gid), tf, h)
              && BeginFill(d, gid) == d.(gaps := d.gaps[gid := d.gaps[gid].(status := Filling,
                   attempts := d.gaps[gid].attempts + 1)])
  {
    if gid in d.gaps && !d.gaps[gid].status.Filled? {
      RecordChange(d, tf, h, gid, BeginFill(d, gid).gaps[gid]);
    }
  }

  /** After an attempt the status says exactly what is left: nothing, a part, or everything. */
  lemma ResolveKeeps(d: Ledger, tf: int, h: History, gid: int)
    requires tf > 0 && Inv(d, tf, h) && gid in d.gaps
    ensures d.gaps[gid].status.Filling? ==> !Resolve(d, gid).fault
    ensures !Resolve(d, gid).fault ==>
              var e := Resolve(d, gid);
              && Inv(e, tf, h) && e == d.(gaps := d.gaps[gid := e.gaps[gid]])
              && e.gaps[gid].filledRows == e.gaps[gid].expected - |e.missing[gid]|
              && (e.gaps[gid].status.Filled? <==> e.missing[gid] == {})
              && (e.gaps[gid].status.Unfillable? <==> |e.missing[gid]| == e.gaps[gid].expected && e.missing[gid] != {})
              && (e.gaps[gid].status.Partial? <==> 0 < |e.missing[gid]| < e.gaps[gid].expected)
  {
    assert RecordOk(d.gaps[gid], d.missing[gid]);
    assert |d.missing[gid]| == 0 <==> d.missing[gid] == {};
    if !Resolve(d, gid).fault {
      RecordChange(d, tf, h, gid, Resolve(d, gid).gaps[gid]);
    }
  }

  // ---------------------------------------------------------------- any sequence of calls

  datatype Call =
    | KlineCall(c: Candle, ts: int)
    | TradeCall(instrument: string, a: int, ts: int)
    | TimeCall(ts: int)
    | FlushCall
    | BeginCall(gid: int)
    | ResolveCall(gid: int)

  /** One public call; an exception from `begin_fill` or `resolve` leaves the detector as it was. */
  function Apply(d: Ledger, cfg: ValidConfig, call: Call): Ledger {
    match call
    case KlineCall(c, ts) => OnKline(d, cfg, c, ts).0
    case TradeCall(i, a, ts) => OnTrade(d, cfg, i, a, ts).0
    case TimeCall(ts) => OnTime(d, cfg, ts).0
    case FlushCall => Flush(d, cfg).0
    case BeginCall(gid) => if BeginFill(d, gid).fault then d else BeginFill(d, gid)
    case ResolveCall(gid) => if Resolve(d, gid).fault then d else Resolve(d, gid)
  }

  function ApplyAll(d: Ledger, cfg: ValidConfig, calls: seq<Call>): Ledger {
    if calls == [] then d else Apply(ApplyAll(d, cfg, calls[..|calls| - 1]), cfg, calls[|calls| - 1])
  }

  function See(h: History, cfg: ValidConfig, call: Call): History {
    match call
    case KlineCall(c, _) => if c.tf == cfg.tf && c.instrument == cfg.instrument then SeeKline(h, c) else h
    case TradeCall(i, a, _) => if i == cfg.instrument then SeeTrade(h, a) else h
    case _ => h
  }

  function SeeAll(cfg: ValidConfig, calls: seq<Call>): History {
    if calls == [] then History(None, {}, None, {}) else See(SeeAll(cfg, calls[..|calls| - 1]), cfg, calls[|calls| - 1])
  }

  lemma ApplyKeeps(d: Ledger, cfg: ValidConfig, h: History, call: Call)
    requires Inv(d, cfg.tfNs, h)
    ensures Inv(Apply(d, cfg, call), cfg.tfNs, See(h, cfg, call))
  {
    match call
    case KlineCall(c, ts) => OnKlineKeeps(d, cfg, h, c, ts);
    case TradeCall(i, a, ts) => OnTradeKeeps(d, cfg, h, i, a, ts);
    case TimeCall(ts) => OnTimeKeeps(d, cfg, h, ts);
    case FlushCall => ConfirmKeeps(d, cfg, true, h);
    case BeginCall(gid) => BeginFillKeeps(d, cfg.tfNs, h, gid);
    case ResolveCall(gid) =>
      if gid in d.gaps { ResolveKeeps(d, cfg.tfNs, h, gid); }
  }

  lemma {:induction false} EveryRunKeeps(cfg: ValidConfig, calls: seq<Call>)
    ensures Inv(ApplyAll(EMPTY, cfg, calls), cfg.tfNs, SeeAll(cfg, calls))
  {
    if calls != [] {
      EveryRunKeeps(cfg, calls[..|calls| - 1]);
      ApplyKeeps(ApplyAll(EMPTY, cfg, calls[..|calls| - 1]), cfg, SeeAll(cfg, calls[..|calls| - 1]),
        calls[|calls| - 1]);
    }
  }

  /** `gid` is the one gap of `stream` in which `key` is missing. */
  ghost predicate MissingOnlyIn(d: Ledger, stream: Stream, key: int, gid: int)
    requires d.gaps.Keys == d.missing.Keys
  {
    forall g | g in d.gaps && d.gaps[g].stream == stream :: key in d.missing[g] <==> g == gid
  }

  ghost predicate MissingNowhere(d: Ledger, stream: Stream, key: int)
    requires d.gaps.Keys == d.missing.Keys
  {
    forall g | g in d.gaps && d.gaps[g].stream == stream :: key !in d.missing[g]
  }

  /** No id is forgotten: after any calls, every aggTrade id between the first and the greatest one seen was
      received, or waits in a candidate hole, or is missing in exactly one gap - and only one of the three. */
  lemma NoTradeForgotten(cfg: ValidConfig, calls: seq<Call>, a: int)
    requires var h := SeeAll(cfg, calls); h.tFirst.Some? && h.tFirst.value <= a
    requires var d := ApplyAll(EMPTY, cfg, calls); d.tMax.Some? && a <= d.tMax.value
    ensures var d, h := ApplyAll(EMPTY, cfg, calls), SeeAll(cfg, calls);
            && d.gaps.Keys == d.missing.Keys && !d.fault
            && ExactlyOne(a in h.seen, !MissingNowhere(d, Trades, a), InHoles(d.pending, a))
            && (MissingNowhere(d, Trades, a) || exists g :: g in d.gaps && MissingOnlyIn(d, Trades, a, g))
            && (forall i, j | 0 <= i < j < |d.pending| :: !(a in d.pending[i].missing && a in d.pending[j].missing))
  {
    EveryRunKeeps(cfg, calls);
    MissingIsOwned(ApplyAll(EMPTY, cfg, calls), Trades, a);
  }

  /** A kline gap is a stretch of neighbouring grid minutes: its bounds lie on the grid of the series and it counts
      every minute between them; a minute in it that is missing at all is missing in this gap. */
  ghost predicate Contiguous(d: Ledger, tf: int, first: int, g: int)
    requires tf > 0 && g in d.gaps && d.gaps.Keys == d.missing.Keys
  {
    var r := d.gaps[g];
    && first <= r.tsLo <= r.tsHi && OnGrid(first, tf, r.tsLo) && OnGrid(first, tf, r.tsHi)
    && r.expected == (r.tsHi - r.tsLo) / tf + 1
    && (forall m | m in d.missing[g] :: r.tsLo <= m <= r.tsHi && OnGrid(first, tf, m))
    && forall m | r.tsLo <= m <= r.tsHi :: MissingNowhere(d, Klines, m) || MissingOnlyIn(d, Klines, m, g)
  }

  lemma SpanCounts(n: int, tf: int, f: int, lo: int, hi: int)
    requires tf > 0 && hi - lo == Span(n, tf) && OnGrid(f, tf, lo)
    ensures n == (hi - lo) / tf + 1 && OnGrid(f, tf, hi)
  {
    var k := (lo - f) / tf;
    assert hi - f == (k + n - 1) * tf;
    Multiple(k + n - 1, tf);
    Multiple(n - 1, tf);
    var q := (hi - lo) / tf;
    assert (n - 1 - q) * tf == 0;
    MulSign(n - 1 - q, tf);
  }

  lemma GapIsContiguous(d: Ledger, tf: int, h: History, g: int)
    requires tf > 0 && Inv(d, tf, h) && g in d.gaps && d.gaps[g].stream.Klines?
    ensures h.first.Some? && Contiguous(d, tf, h.first.value, g)
  {
    var r := d.gaps[g];
    assert d.kLo.Some?;
    assert RangeOk(d, tf, h.first.value, [], g) && RecordOk(r, d.missing[g]);
    SpanCounts(r.expected, tf, h.first.value, r.tsLo, r.tsHi);
    forall m | m in d.missing[g] ensures r.tsLo <= m <= r.tsHi && OnGrid(h.first.value, tf, m) {
      assert (Klines, m) in d.owner;
    }
    hide KlineAcc, TradeAcc, Records, OnGrid, MissingNowhere, MissingOnlyIn;
    forall m | r.tsLo <= m <= r.tsHi ensures MissingNowhere(d, Klines, m) || MissingOnlyIn(d, Klines, m, g) {
      MissingIsOwned(d, Klines, m);
    }
  }

  /** Likewise every grid minute from the first kline to the settle frontier was received closed or is missing in
      exactly one gap, and every kline gap is a contiguous stretch of the grid. */
  lemma NoMinuteForgotten(cfg: ValidConfig, calls: seq<Call>)
    ensures var d, h := ApplyAll(EMPTY, cfg, calls), SeeAll(cfg, calls);
            && d.gaps.Keys == d.missing.Keys
            && (forall g | g in d.gaps && d.gaps[g].stream.Klines? ::
                 h.first.Some? && Contiguous(d, cfg.tfNs, h.first.value, g))
            && forall m | h.first.Some? && d.kLo.Some? && h.first.value <= m < d.kLo.value
                 && OnGrid(h.first.value, cfg.tfNs, m) ::
                 && (m in h.got <==> MissingNowhere(d, Klines, m))
                 && (m in h.got || exists g ::
                       g in d.gaps && MissingOnlyIn(d, Klines, m, g) && d.gaps[g].tsLo <= m <= d.gaps[g].tsHi)
  {
    EveryRunKeeps(cfg, calls);
    var d, h := ApplyAll(EMPTY, cfg, calls), SeeAll(cfg, calls);
    hide ApplyAll, SeeAll, Contiguous;
    forall g | g in d.gaps && d.gaps[g].stream.Klines?
      ensures h.first.Some? && Contiguous(d, cfg.tfNs, h.first.value, g)
    {
      GapIsContiguous(d, cfg.tfNs, h, g);
    }
    forall m | h.first.Some? && d.kLo.Some? && h.first.value <= m < d.kLo.value && OnGrid(h.first.value, cfg.tfNs, m)
      ensures (m in h.got <==> MissingNowhere(d, Klines, m))
              && (m in h.got || exists g ::
                    g in d.gaps && MissingOnlyIn(d, Klines, m, g) && d.gaps[g].tsLo <= m <= d.gaps[g].tsHi)
    {
      MinuteSettled(d, cfg.tfNs, h, m);
    }
  }

  lemma MinuteSettled(d: Ledger, tf: int, h: History, m: int)
    requires tf > 0 && Inv(d, tf, h) && h.first.Some? && d.kLo.Some? && h.first.value <= m < d.kLo.value
    requires OnGrid(h.first.value, tf, m)
    ensures (m in h.got <==> MissingNowhere(d, Klines, m))
            && (m in h.got || exists g ::
                  g in d.gaps && MissingOnlyIn(d, Klines, m, g) && d.gaps[g].tsLo <= m <= d.gaps[g].tsHi)
  {
    MissingIsOwned(d, Klines, m);
    assert ExactlyOne(m in h.got, (Klines, m) in d.owner, m in []);
    if (Klines, m) in d.owner {
      var g := d.owner[(Klines, m)];
      assert RecordOk(d.gaps[g], d.missing[g]);
    }
  }

  lemma MissingIsOwned(d: Ledger, stream: Stream, key: int)
    requires Inverse(d)
    ensures (stream, key) in d.owner <==> !MissingNowhere(d, stream, key)
    ensures (stream, key) in d.owner ==>
              d.owner[(stream, key)] in d.gaps && MissingOnlyIn(d, stream, key, d.owner[(stream, key)])
  {
    if (stream, key) in d.owner {
      var k := (stream, key);
      var g := d.owner[k];
      assert g in d.gaps && d.gaps[g].stream == k.0 && k.1 in d.missing[g];
    }
  }
}
