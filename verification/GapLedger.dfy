/** The gap detector as a value: every operation is a function from state to state.
    `GapDetector.dfy` holds the mutable detector that is proved against these functions. */
module GapLedger {
  import opened Base
  import opened Events

  datatype Status = Open | Filling | Filled | Partial | Unfillable

  predicate Allowed(from: Status, to: Status) {
    match from
    case Open => to.Filling? || to.Filled? || to.Unfillable?
    case Filling => to.Filled? || to.Partial? || to.Unfillable?
    case Partial => to.Filling? || to.Filled? || to.Unfillable?
    case Unfillable => to.Filling? || to.Filled?
    case Filled => false
  }

  datatype GapRecord = GapRecord(
    id: int, stream: Stream, tsLo: int, tsHi: int, expected: nat, status: Status,
    filledRows: int, attempts: nat, seqLo: Option<int>, seqHi: Option<int>, exchangeNs: Option<int>)

  /** None stands for the ValueError raised on an illegal transition. */
  function Transition(g: GapRecord, status: Status, filledRows: Option<int>, countAttempt: bool): (r: Option<GapRecord>)
    ensures r.Some? <==> status == g.status || Allowed(g.status, status)
  {
    if status != g.status && !Allowed(g.status, status) then None
    else Some(g.(status := status,
                 filledRows := if filledRows.None? then g.filledRows else filledRows.value,
                 attempts := g.attempts + if countAttempt then 1 else 0))
  }

  /** A candidate hole in the aggTrade id sequence. */
  datatype Hole = Hole(missing: set<int>, tBefore: int, tAfter: int, created: int)

  datatype Config = Config(instrument: string, tf: string, tfNs: int, graceNs: int, maxReorder: int)

  type ValidConfig = c: Config | c.tfNs > 0 witness Config("", "", 1, 0, 0)

  /** `fault` records that an exception was raised (illegal transition or unknown gap id). */
  datatype Ledger = Ledger(
    latest: Option<int>, kLo: Option<int>, kClosed: set<int>,
    tMax: Option<int>, tMaxTs: int, pending: seq<Hole>,
    missing: map<int, set<int>>, owner: map<(Stream, int), int>,
    gaps: map<int, GapRecord>, nextId: int, fault: bool)

  const EMPTY := Ledger(None, None, {}, None, 0, [], map[], map[], map[], 1, false)

  // ---------------------------------------------------------------- operations

  function Advance(d: Ledger, ts: int): Ledger {
    if d.latest.None? || ts > d.latest.value then d.(latest := Some(ts)) else d
  }

  function Own(owner: map<(Stream, int), int>, stream: Stream, keys: set<int>, gid: int): map<(Stream, int), int> {
    owner + map k | k in keys :: (stream, k) := gid
  }

  lemma OwnMember(owner: map<(Stream, int), int>, stream: Stream, keys: set<int>, gid: int)
    ensures forall k :: k in Own(owner, stream, keys, gid) <==> k in owner || (k.0 == stream && k.1 in keys)
    ensures forall k | k in Own(owner, stream, keys, gid) ::
              Own(owner, stream, keys, gid)[k] == if k.0 == stream && k.1 in keys then gid else owner[k]
  {
    var added := map k | k in keys :: (stream, k) := gid;
    assert forall k: (Stream, int) :: k in added <==> k.0 == stream && k.1 in keys by {
      forall k: (Stream, int) ensures k in added <==> k.0 == stream && k.1 in keys {
        if k.0 == stream && k.1 in keys { assert k == (stream, k.1); }
      }
    }
  }

  lemma OwnGrow(owner: map<(Stream, int), int>, stream: Stream, keys: set<int>, gid: int, k: int)
    ensures Own(owner, stream, keys + {k}, gid) == Own(owner, stream, keys, gid)[(stream, k) := gid]
  {
    OwnMember(owner, stream, keys, gid);
    OwnMember(owner, stream, keys + {k}, gid);
    hide Own;
    var a, b := Own(owner, stream, keys + {k}, gid), Own(owner, stream, keys, gid)[(stream, k) := gid];
    assert forall x: (Stream, int) :: x in a <==> x in b;
  }

  function NewGap(d: Ledger, stream: Stream, keys: set<int>, lo: int, hi: int, seqLo: Option<int>,
      seqHi: Option<int>): GapRecord {
    GapRecord(d.nextId, stream, lo, hi, |keys|, Open, 0, 0, seqLo, seqHi, d.latest)
  }

  function OpenGap(d: Ledger, g: GapRecord, keys: set<int>): Ledger {
    d.(nextId := d.nextId + 1, gaps := d.gaps[g.id := g], missing := d.missing[g.id := keys],
       owner := Own(d.owner, g.stream, keys, g.id))
  }

  /** A key arrived, from the stream or from REST. */
  function Fill(d: Ledger, stream: Stream, key: int): (r: (Ledger, bool, seq<GapRecord>))
  {
    if (stream, key) !in d.owner then (d, false, [])
    else
      var gid := d.owner[(stream, key)];
      var d0 := d.(owner := d.owner - {(stream, key)});
      if gid !in d.missing || gid !in d.gaps then (d0.(fault := true), true, [])
      else
        var miss := d.missing[gid] - {key};
        var g := d.gaps[gid];
        var d1 := d0.(missing := d.missing[gid := miss]);
        var filled := g.expected - |miss|;
        if miss == {} && !g.status.Filling? then
          match Transition(g, Filled, Some(filled), false)
          case None => (d1.(fault := true), true, [])
          case Some(g') => (d1.(gaps := d.gaps[gid := g']), true, [g'])
        else if g.status.Filling? then
          (d1.(gaps := d.gaps[gid := g.(filledRows := filled)]), true, [])
        else (d1, true, [])
  }

  function OpenKlines(d: Ledger, run: seq<int>): (Ledger, GapRecord)
    requires run != []
  {
    var keys := set m | m in run;
    var g := NewGap(d, Klines, keys, run[0], run[|run| - 1], None, None);
    (OpenGap(d, g, keys), g)
  }

  /** Settle every minute that closed at least a grace period ago; `run` is the current stretch of
      minutes without a closed candle, `out` the gaps opened so far. */
  function SweepFrom(d: Ledger, cfg: ValidConfig, run: seq<int>, out: seq<GapRecord>): (Ledger, seq<GapRecord>)
    decreases if d.kLo.Some? && d.latest.Some? then d.latest.value - cfg.graceNs - d.kLo.value else 0
  {
    if d.kLo.None? || d.latest.None? then (d, out)
    else if d.kLo.value + cfg.tfNs <= d.latest.value - cfg.graceNs then
      var m := d.kLo.value;
      if m in d.kClosed then
        var d1 := d.(kClosed := d.kClosed - {m});
        if run != [] then
          var (d2, g) := OpenKlines(d1, run);
          SweepFrom(d2.(kLo := Some(m + cfg.tfNs)), cfg, [], out + [g])
        else SweepFrom(d1.(kLo := Some(m + cfg.tfNs)), cfg, [], out)
      else SweepFrom(d.(kLo := Some(m + cfg.tfNs)), cfg, run + [m], out)
    else if run != [] then
      var (d2, g) := OpenKlines(d, run);
      (d2, out + [g])
    else (d, out)
  }

  function Sweep(d: Ledger, cfg: ValidConfig): (Ledger, seq<GapRecord>) {
    SweepFrom(d, cfg, [], [])
  }

  predicate Ripe(d: Ledger, cfg: ValidConfig, force: bool, h: Hole) {
    force || |h.missing| > cfg.maxReorder
    || (if d.latest.None? then 0 else d.latest.value) - h.created >= cfg.graceNs
  }

  function OpenHole(d: Ledger, h: Hole): (Ledger, GapRecord)
  {
    if h.missing == {} then
      (d.(fault := true), NewGap(d, Trades, {}, h.tBefore, h.tAfter, None, None))
    else
      var g := NewGap(d, Trades, h.missing, h.tBefore, h.tAfter, Some(MinOf(h.missing)), Some(MaxOf(h.missing)));
      (OpenGap(d, g, h.missing), g)
  }

  /** Walk over the candidates: the ripe ones become gaps, the others are kept. */
  function ConfirmFrom(d: Ledger, cfg: ValidConfig, force: bool, holes: seq<Hole>, keep: seq<Hole>, out: seq<GapRecord>)
    : (Ledger, seq<GapRecord>)
    decreases |holes|
  {
    if holes == [] then (d.(pending := keep), out)
    else if Ripe(d, cfg, force, holes[0]) then
      var (d1, g) := OpenHole(d, holes[0]);
      ConfirmFrom(d1, cfg, force, holes[1..], keep, out + [g])
    else ConfirmFrom(d, cfg, force, holes[1..], keep + [holes[0]], out)
  }

  function Confirm(d: Ledger, cfg: ValidConfig, force: bool): (Ledger, seq<GapRecord>) {
    ConfirmFrom(d, cfg, force, d.pending, [], [])
  }

  function OnTime(d: Ledger, cfg: ValidConfig, ts: int): (Ledger, seq<GapRecord>) {
    var (d1, a) := Sweep(Advance(d, ts), cfg);
    var (d2, b) := Confirm(d1, cfg, false);
    (d2, a + b)
  }

  /** The part of `on_kline` before the two sweeps. */
  function NoteKline(d: Ledger, c: Candle): (Ledger, seq<GapRecord>) {
    var d1 := if d.kLo.None? then d.(kLo := Some(c.openNs)) else d;
    if c.openNs < d1.kLo.value then
      if c.closed then
        var (d2, _, changed) := Fill(d1, Klines, c.openNs);
        (d2, changed)
      else (d1, [])
    else if c.closed then (d1.(kClosed := d1.kClosed + {c.openNs}), [])
    else (d1, [])
  }

  function OnKline(d: Ledger, cfg: ValidConfig, c: Candle, ts: int): (Ledger, seq<GapRecord>) {
    if c.tf != cfg.tf || c.instrument != cfg.instrument then (d, [])
    else
      var (d1, a) := NoteKline(Advance(d, ts), c);
      var (d2, b) := Sweep(d1, cfg);
      var (d3, e) := Confirm(d2, cfg, false);
      (d3, a + b + e)
  }

  /** The ids `lo`, `lo + 1`, ..., `hi - 1`. */
  function IdRange(lo: int, hi: int): (s: set<int>)
    ensures forall x :: x in s <==> lo <= x < hi
    decreases hi - lo
  {
    if lo >= hi then {} else {lo} + IdRange(lo + 1, hi)
  }

  /** Index of the first candidate that lacks id `a`. */
  function FindHole(holes: seq<Hole>, a: int): (i: nat)
    ensures i <= |holes|
    ensures i < |holes| ==> a in holes[i].missing
    ensures forall j | 0 <= j < i :: a !in holes[j].missing
  {
    if holes == [] then 0
    else if a in holes[0].missing then 0
    else 1 + FindHole(holes[1..], a)
  }

  /** The part of `on_trade` before the two sweeps. */
  function NoteTrade(d: Ledger, a: int, ts: int): (Ledger, seq<GapRecord>)
    requires d.latest.Some?
  {
    if d.tMax.None? then (d.(tMax := Some(a), tMaxTs := ts), [])
    else if a > d.tMax.value then
      var t := d.tMax.value;
      var created := if d.latest.value != 0 then d.latest.value else ts;
      var pending := if a > t + 1
                     then d.pending + [Hole(IdRange(t + 1, a), d.tMaxTs, ts, created)]
                     else d.pending;
      (d.(pending := pending, tMax := Some(a), tMaxTs := ts), [])
    else if a < d.tMax.value then
      var i := FindHole(d.pending, a);
      if i < |d.pending| then
        var h := d.pending[i].(missing := d.pending[i].missing - {a});
        (d.(pending := if h.missing == {} then d.pending[..i] + d.pending[i + 1..] else d.pending[i := h]), [])
      else
        var (d1, _, changed) := Fill(d, Trades, a);
        (d1, changed)
    else (d, [])
  }

  function OnTrade(d: Ledger, cfg: ValidConfig, instrument: string, a: int, ts: int): (Ledger, seq<GapRecord>) {
    if instrument != cfg.instrument then (d, [])
    else
      var (d1, x) := NoteTrade(Advance(d, ts), a, ts);
      var (d2, y) := Confirm(d1, cfg, false);
      var (d3, z) := Sweep(d2, cfg);
      (d3, x + y + z)
  }

  function Flush(d: Ledger, cfg: ValidConfig): (Ledger, seq<GapRecord>) {
    Confirm(d, cfg, true)
  }

  function BeginFill(d: Ledger, gid: int): Ledger {
    if gid !in d.gaps then d.(fault := true)
    else
      match Transition(d.gaps[gid], Filling, None, true)
      case None => d.(fault := true)
      case Some(g) => d.(gaps := d.gaps[gid := g])
  }

  function Resolve(d: Ledger, gid: int): Ledger {
    if gid !in d.gaps || gid !in d.missing then d.(fault := true)
    else
      var g, miss := d.gaps[gid], d.missing[gid];
      var filled := g.expected - |miss|;
      var status := if miss == {} then Filled else if filled != 0 then Partial else Unfillable;
      match Transition(g, status, Some(filled), false)
      case None => d.(fault := true)
      case Some(g') => d.(gaps := d.gaps[gid := g'])
  }

  /** The gaps that a report announces as open, in order. */
  function OpenIds(out: seq<GapRecord>): seq<int> {
    if out == [] then []
    else (if out[0].status.Open? then [out[0].id] else []) + OpenIds(out[1..])
  }
}
