/** When the detector speaks: a minute is settled exactly a grace period after it closed, and a candidate hole becomes a
    gap as soon as it is too large or too old, and not before. */
module LedgerTiming {
  import opened Base
  import opened Events
  import opened GapLedger
  import opened LedgerProofs

  // ---------------------------------------------------------------- minutes

  /** The settle frontier stands where the clock puts it: the minute at the frontier is not a grace period old, and the
      one below it is, unless the series begins there. */
  ghost predicate Timely(d: Ledger, cfg: ValidConfig, first: Option<int>) {
    d.kLo.Some? ==>
      && first.Some? && d.latest.Some?
      && d.kLo.value + cfg.tfNs + cfg.graceNs > d.latest.value
      && (d.kLo == first || d.kLo.value + cfg.graceNs <= d.latest.value)
  }

  lemma {:induction false} SweepReaches(d: Ledger, cfg: ValidConfig, run: seq<int>, out: seq<GapRecord>)
    ensures var e := SweepFrom(d, cfg, run, out).0;
            && e.latest == d.latest && e.pending == d.pending && e.kLo.Some? == d.kLo.Some?
            && (d.kLo.Some? && d.latest.Some? ==>
                  && e.kLo.value + cfg.tfNs + cfg.graceNs > d.latest.value
                  && (e.kLo == d.kLo || e.kLo.value + cfg.graceNs <= d.latest.value))
    decreases if d.kLo.Some? && d.latest.Some? then d.latest.value - cfg.graceNs - d.kLo.value else 0
  {
    hide Own;
    if d.kLo.Some? && d.latest.Some? && d.kLo.value + cfg.tfNs <= d.latest.value - cfg.graceNs {
      var m := d.kLo.value;
      if m in d.kClosed {
        var d1 := d.(kClosed := d.kClosed - {m});
        if run != [] {
          var (d2, g) := OpenKlines(d1, run);
          SweepReaches(d2.(kLo := Some(m + cfg.tfNs)), cfg, [], out + [g]);
        } else {
          SweepReaches(d1.(kLo := Some(m + cfg.tfNs)), cfg, [], out);
        }
      } else {
        SweepReaches(d.(kLo := Some(m + cfg.tfNs)), cfg, run + [m], out);
      }
    }
  }

  /** After a sweep the frontier is timely, if the clock has only moved on since it last was. */
  lemma SweepIsTimely(d: Ledger, cfg: ValidConfig, first: Option<int>)
    requires d.kLo.Some? ==>
               first.Some? && d.latest.Some? && (d.kLo == first || d.kLo.value + cfg.graceNs <= d.latest.value)
    ensures var e := Sweep(d, cfg).0; Timely(e, cfg, first) && e.latest == d.latest && e.pending == d.pending
  {
    SweepReaches(d, cfg, [], []);
    hide SweepFrom;
  }

  // ---------------------------------------------------------------- holes

  /** The clock as a number; zero before the first reading. */
  function Clock(d: Ledger): int {
    if d.latest.None? then 0 else d.latest.value
  }

  /** A hole that may still be filled by reordering: small and young. */
  predicate Young(cfg: ValidConfig, now: int, h: Hole) {
    |h.missing| <= cfg.maxReorder && now - h.created < cfg.graceNs && h.tAfter <= h.created
  }

  ghost predicate Calm(d: Ledger, cfg: ValidConfig) {
    forall h | h in d.pending :: Young(cfg, Clock(d), h)
  }

  /** No hole was noticed before its later neighbour came. */
  ghost predicate Dated(holes: seq<Hole>) {
    forall h | h in holes :: h.tAfter <= h.created
  }

  /** `g` is the gap made of hole `h`: as many keys as the hole, from its least to its greatest, between the exchange
      times of its neighbours. */
  ghost predicate MadeOf(g: GapRecord, h: Hole, now: Option<int>) {
    && g.stream.Trades? && g.status.Open? && g.expected == |h.missing| && g.tsLo == h.tBefore && g.tsHi == h.tAfter
    && g.exchangeNs == now
    && g.seqLo.Some? && g.seqHi.Some? && g.seqLo.value in h.missing && g.seqHi.value in h.missing
    && forall a | a in h.missing :: g.seqLo.value <= a <= g.seqHi.value
  }

  /** Too large, or a grace period old. */
  predicate Overdue(cfg: ValidConfig, now: int, h: Hole) {
    |h.missing| > cfg.maxReorder || now - h.created >= cfg.graceNs
  }

  /** The holes that are overdue (all of them, if forced) and the others, in order. */
  function Due(cfg: ValidConfig, force: bool, now: int, holes: seq<Hole>): (r: seq<Hole>)
    ensures forall h :: h in r <==> h in holes && (force || Overdue(cfg, now, h))
  {
    if holes == [] then []
    else (if force || Overdue(cfg, now, holes[0]) then [holes[0]] else []) + Due(cfg, force, now, holes[1..])
  }

  function Waiting(cfg: ValidConfig, force: bool, now: int, holes: seq<Hole>): (r: seq<Hole>)
    ensures forall h :: h in r <==> h in holes && !force && !Overdue(cfg, now, h)
  {
    if holes == [] then []
    else (if force || Overdue(cfg, now, holes[0]) then [] else [holes[0]]) + Waiting(cfg, force, now, holes[1..])
  }

  /** The reported gaps, from number `n` on, are made of the holes `due`, in order. */
  ghost predicate Reported(all: seq<GapRecord>, n: nat, due: seq<Hole>, now: Option<int>) {
    |all| == n + |due| && forall i | 0 <= i < |due| :: MadeOf(all[n + i], due[i], now)
  }

  lemma OpenHoleMakes(d: Ledger, h: Hole)
    requires h.missing != {}
    ensures var (e, g) := OpenHole(d, h);
            MadeOf(g, h, d.latest) && e.latest == d.latest && e.kLo == d.kLo && e.pending == d.pending
  {
    hide Own;
  }

  lemma ReportedMore(all: seq<GapRecord>, out: seq<GapRecord>, g: GapRecord, h: Hole, rest: seq<Hole>, now: Option<int>)
    requires MadeOf(g, h, now) && out + [g] <= all && Reported(all, |out| + 1, rest, now)
    ensures Reported(all, |out|, [h] + rest, now)
  {
    hide MadeOf;
    var due := [h] + rest;
    forall i | 0 <= i < |due| ensures MadeOf(all[|out| + i], due[i], now) {
      if i == 0 {
        assert all[|out|] == (out + [g])[|out|];
      } else {
        assert MadeOf(all[|out| + 1 + (i - 1)], rest[i - 1], now);
      }
    }
  }

  /** A confirmation pass keeps exactly the holes that are not overdue... */
  lemma {:induction false} ConfirmKeepsWaiting(d: Ledger, cfg: ValidConfig, force: bool, holes: seq<Hole>,
      keep: seq<Hole>, out: seq<GapRecord>)
    requires forall h | h in holes :: h.missing != {}
    ensures var e := ConfirmFrom(d, cfg, force, holes, keep, out).0;
            && e.latest == d.latest && e.kLo == d.kLo
            && e.pending == keep + Waiting(cfg, force, Clock(d), holes)
    decreases |holes|
  {
    hide Overdue;
    RipeMeans(d, cfg, force, holes);
    if holes != [] {
      var (h, rest) := (holes[0], holes[1..]);
      assert h in holes && forall x | x in rest :: x in holes;
      if Ripe(d, cfg, force, h) {
        OpenHoleMakes(d, h);
        var (d1, g) := OpenHole(d, h);
        hide OpenHole;
        ConfirmKeepsWaiting(d1, cfg, force, rest, keep, out + [g]);
        assert [] + Waiting(cfg, force, Clock(d), rest) == Waiting(cfg, force, Clock(d), rest);
      } else {
        ConfirmKeepsWaiting(d, cfg, force, rest, keep + [h], out);
        ConcatAssociates(keep, [h], Waiting(cfg, force, Clock(d), rest));
      }
    }
  }

  /** ...and makes a gap of every other one. */
  lemma {:induction false} ConfirmReportsDue(d: Ledger, cfg: ValidConfig, force: bool, holes: seq<Hole>,
      keep: seq<Hole>, out: seq<GapRecord>)
    requires forall h | h in holes :: h.missing != {}
    ensures var all := ConfirmFrom(d, cfg, force, holes, keep, out).1;
            out <= all && Reported(all, |out|, Due(cfg, force, Clock(d), holes), d.latest)
    decreases |holes|
  {
    RipeMeans(d, cfg, force, holes);
    DueUnfolds(cfg, force, Clock(d), holes);
    hide MadeOf, Reported, Overdue, Waiting, Due, Ripe;
    if holes == [] {
      NoneReported(out, d.latest);
    } else {
      var (h, rest) := (holes[0], holes[1..]);
      assert h in holes && forall x | x in rest :: x in holes;
      if Ripe(d, cfg, force, h) {
        OpenHoleMakes(d, h);
        var (d1, g) := OpenHole(d, h);
        hide OpenHole;
        ConfirmReportsDue(d1, cfg, force, rest, keep, out + [g]);
        ReportedMore(ConfirmFrom(d1, cfg, force, rest, keep, out + [g]).1, out, g, h,
          Due(cfg, force, Clock(d), rest), d.latest);
      } else {
        ConfirmReportsDue(d, cfg, force, rest, keep + [h], out);
      }
    }
  }

  lemma DueUnfolds(cfg: ValidConfig, force: bool, now: int, holes: seq<Hole>)
    ensures holes == [] ==> Due(cfg, force, now, holes) == []
    ensures holes != [] ==> Due(cfg, force, now, holes)
                            == if force || Overdue(cfg, now, holes[0]) then [holes[0]]
                              + Due(cfg, force, now, holes[1..])
                               else Due(cfg, force, now, holes[1..])
  {
    hide Overdue;
    if holes != [] {
      assert [] + Due(cfg, force, now, holes[1..]) == Due(cfg, force, now, holes[1..]);
    }
  }

  lemma RipeMeans(d: Ledger, cfg: ValidConfig, force: bool, holes: seq<Hole>)
    ensures holes != [] ==> (Ripe(d, cfg, force, holes[0]) <==> force || Overdue(cfg, Clock(d), holes[0]))
  {
  }

  lemma NoneReported(out: seq<GapRecord>, now: Option<int>)
    ensures Reported(out, |out|, [], now)
  {
  }

  // ---------------------------------------------------------------- every operation

  /** The detector is up to date: minutes are settled as far as the clock allows, and no hole is overdue. */
  ghost predicate Prompt(d: Ledger, cfg: ValidConfig, first: Option<int>) {
    Timely(d, cfg, first) && Calm(d, cfg)
  }

  ghost predicate HolesFit(holes: seq<Hole>) {
    Dated(holes) && forall h | h in holes :: h.missing != {}
  }

  lemma ConfirmCalms(d: Ledger, cfg: ValidConfig, force: bool)
    requires HolesFit(d.pending)
    ensures var e := Confirm(d, cfg, force).0; Calm(e, cfg) && e.latest == d.latest && e.kLo == d.kLo
  {
    ConfirmKeepsWaiting(d, cfg, force, d.pending, [], []);
    hide ConfirmFrom;
  }

  lemma CalmFits(d: Ledger, cfg: ValidConfig, h: History)
    requires Inv(d, cfg.tfNs, h) && Calm(d, cfg)
    ensures HolesFit(d.pending)
  {
    forall x | x in d.pending ensures x.missing != {} {
      var i :| 0 <= i < |d.pending| && d.pending[i] == x;
    }
  }

  lemma FirstIsFirst(d: Ledger, cfg: ValidConfig, h: History)
    requires Inv(d, cfg.tfNs, h)
    ensures d.kLo.Some? <==> h.first.Some?
  {
    KlineFirst(d, cfg.tfNs, h.first, h.got);
  }

  lemma OnTimePrompt(d: Ledger, cfg: ValidConfig, h: History, ts: int)
    requires Inv(d, cfg.tfNs, h) && Prompt(d, cfg, h.first)
    ensures Prompt(OnTime(d, cfg, ts).0, cfg, h.first)
  {
    CalmFits(d, cfg, h);
    hide Inv, Calm, HolesFit, Sweep, Confirm;
    SweepIsTimely(Advance(d, ts), cfg, h.first);
    ConfirmCalms(Sweep(Advance(d, ts), cfg).0, cfg, false);
  }

  lemma NoteKlineFrame(d: Ledger, c: Candle)
    ensures var e := NoteKline(d, c).0;
            e.latest == d.latest && e.pending == d.pending && e.kLo == if d.kLo.None? then Some(c.openNs) else d.kLo
  {
  }

  lemma OnKlinePrompt(d: Ledger, cfg: ValidConfig, h: History, c: Candle, ts: int)
    requires Inv(d, cfg.tfNs, h) && Prompt(d, cfg, h.first)
    ensures Prompt(OnKline(d, cfg, c, ts).0, cfg,
                   if c.tf == cfg.tf && c.instrument == cfg.instrument then SeeKline(h, c).first else h.first)
  {
    if c.tf == cfg.tf && c.instrument == cfg.instrument {
      CalmFits(d, cfg, h);
      FirstIsFirst(d, cfg, h);
      NoteKlineFrame(Advance(d, ts), c);
      var d1 := NoteKline(Advance(d, ts), c).0;
      hide Inv, Calm, HolesFit, Sweep, Confirm, NoteKline;
      SweepIsTimely(d1, cfg, SeeKline(h, c).first);
      ConfirmCalms(Sweep(d1, cfg).0, cfg, false);
    }
  }

  lemma NoteTradeFits(d: Ledger, a: int, ts: int)
    requires d.latest.Some? && ts <= d.latest.value && HolesFit(d.pending)
    ensures var e := NoteTrade(d, a, ts).0; e.latest == d.latest && e.kLo == d.kLo && HolesFit(e.pending)
  {
    if d.tMax.Some? {
      if a > d.tMax.value + 1 {
        assert d.tMax.value + 1 in IdRange(d.tMax.value + 1, a);
      } else if a < d.tMax.value {
        var i := FindHole(d.pending, a);
        if i < |d.pending| {
          assert d.pending[i] in d.pending;
        }
      }
    }
  }

  lemma OnTradePrompt(d: Ledger, cfg: ValidConfig, h: History, instrument: string, a: int, ts: int)
    requires Inv(d, cfg.tfNs, h) && Prompt(d, cfg, h.first)
    ensures Prompt(OnTrade(d, cfg, instrument, a, ts).0, cfg, h.first)
  {
    if instrument == cfg.instrument {
      CalmFits(d, cfg, h);
      var d0 := Advance(d, ts);
      NoteTradeFits(d0, a, ts);
      var d1 := NoteTrade(d0, a, ts).0;
      hide Inv, HolesFit, Sweep, Confirm, NoteTrade;
      ConfirmCalms(d1, cfg, false);
      SweepIsTimely(Confirm(d1, cfg, false).0, cfg, h.first);
    }
  }

  lemma FlushPrompt(d: Ledger, cfg: ValidConfig, h: History)
    requires Inv(d, cfg.tfNs, h) && Prompt(d, cfg, h.first)
    ensures Prompt(Flush(d, cfg).0, cfg, h.first)
  {
    CalmFits(d, cfg, h);
    ConfirmCalms(d, cfg, true);
    hide Confirm, Calm;
  }

  lemma SameClock(d: Ledger, e: Ledger, cfg: ValidConfig, first: Option<int>)
    requires Prompt(d, cfg, first) && e.kLo == d.kLo && e.latest == d.latest && e.pending == d.pending
    ensures Prompt(e, cfg, first)
  {
  }

  // ---------------------------------------------------------------- every run

  lemma CallPrompt(d: Ledger, cfg: ValidConfig, h: History, call: Call)
    requires Inv(d, cfg.tfNs, h) && Prompt(d, cfg, h.first)
    ensures Prompt(Apply(d, cfg, call), cfg, See(h, cfg, call).first)
  {
    hide Inv, Prompt, OnKline, OnTrade, OnTime, Flush;
    match call
    case KlineCall(c, ts) => OnKlinePrompt(d, cfg, h, c, ts);
    case TradeCall(i, a, ts) => OnTradePrompt(d, cfg, h, i, a, ts);
    case TimeCall(ts) => OnTimePrompt(d, cfg, h, ts);
    case FlushCall => FlushPrompt(d, cfg, h);
    case _ => SameClock(d, Apply(d, cfg, call), cfg, h.first);
  }

  lemma {:induction false} EveryRunPrompt(cfg: ValidConfig, calls: seq<Call>)
    ensures Prompt(ApplyAll(EMPTY, cfg, calls), cfg, SeeAll(cfg, calls).first)
  {
    if calls != [] {
      hide Inv, Prompt, Apply, See;
      var n := |calls| - 1;
      EveryRunPrompt(cfg, calls[..n]);
      EveryRunKeeps(cfg, calls[..n]);
      CallPrompt(ApplyAll(EMPTY, cfg, calls[..n]), cfg, SeeAll(cfg, calls[..n]), calls[n]);
    }
  }

  /** The exchange time that a call brings to the detector, if it concerns this instrument. */
  function TimeOf(cfg: ValidConfig, call: Call): Option<int> {
    match call
    case KlineCall(c, ts) => if c.tf == cfg.tf && c.instrument == cfg.instrument then Some(ts) else None
    case TradeCall(i, _, ts) => if i == cfg.instrument then Some(ts) else None
    case TimeCall(ts) => Some(ts)
    case _ => None
  }

  /** `latest` is the greatest exchange time among the calls. */
  ghost predicate IsLatest(cfg: ValidConfig, calls: seq<Call>, latest: Option<int>) {
    && (latest.None? ==> forall i | 0 <= i < |calls| :: TimeOf(cfg, calls[i]).None?)
    && (latest.Some? ==> exists i :: 0 <= i < |calls| && TimeOf(cfg, calls[i]) == latest)
    && forall i | 0 <= i < |calls| && TimeOf(cfg, calls[i]).Some? :: TimeOf(cfg, calls[i]).value <= latest.value
  }

  lemma {:induction false} LatestIsLatest(cfg: ValidConfig, calls: seq<Call>)
    ensures IsLatest(cfg, calls, ApplyAll(EMPTY, cfg, calls).latest)
  {
    if calls != [] {
      var n := |calls| - 1;
      var d := ApplyAll(EMPTY, cfg, calls[..n]);
      LatestIsLatest(cfg, calls[..n]);
      EveryRunKeeps(cfg, calls[..n]);
      EveryRunPrompt(cfg, calls[..n]);
      ClockMoves(d, cfg, SeeAll(cfg, calls[..n]), calls[n]);
      hide Apply, Inv, Prompt;
      MoreCalls(cfg, calls, d.latest, Apply(d, cfg, calls[n]).latest);
    }
  }

  /** The clock moves on to the time of the call, never back. */
  ghost predicate MovesTo(was: Option<int>, latest: Option<int>, ts: Option<int>) {
    latest == if ts.Some? && (was.None? || ts.value > was.value) then ts else was
  }

  lemma ClockMoves(d: Ledger, cfg: ValidConfig, h: History, call: Call)
    requires Inv(d, cfg.tfNs, h) && Prompt(d, cfg, h.first)
    ensures MovesTo(d.latest, Apply(d, cfg, call).latest, TimeOf(cfg, call))
  {
    CalmFits(d, cfg, h);
    hide Inv, HolesFit, Confirm, Sweep, Calm;
    match call
    case KlineCall(c, ts) =>
      NoteKlineFrame(Advance(d, ts), c);
      var d1 := NoteKline(Advance(d, ts), c).0;
      SweepStill(d1, cfg);
      ConfirmCalms(Sweep(d1, cfg).0, cfg, false);
      hide NoteKline;
    case TradeCall(i, a, ts) =>
      NoteTradeFits(Advance(d, ts), a, ts);
      var d1 := NoteTrade(Advance(d, ts), a, ts).0;
      ConfirmCalms(d1, cfg, false);
      SweepStill(Confirm(d1, cfg, false).0, cfg);
      hide NoteTrade;
    case TimeCall(ts) =>
      SweepStill(Advance(d, ts), cfg);
      ConfirmCalms(Sweep(Advance(d, ts), cfg).0, cfg, false);
    case FlushCall => ConfirmCalms(d, cfg, true);
    case _ =>
  }

  lemma SweepStill(d: Ledger, cfg: ValidConfig)
    ensures Sweep(d, cfg).0.latest == d.latest && Sweep(d, cfg).0.pending == d.pending
  {
    SweepReaches(d, cfg, [], []);
    hide SweepFrom;
  }

  lemma MoreCalls(cfg: ValidConfig, calls: seq<Call>, was: Option<int>, latest: Option<int>)
    requires calls != [] && IsLatest(cfg, calls[..|calls| - 1], was)
    requires MovesTo(was, latest, TimeOf(cfg, calls[|calls| - 1]))
    ensures IsLatest(cfg, calls, latest)
  {
    var n := |calls| - 1;
    assert forall i | 0 <= i < n :: calls[..n][i] == calls[i];
    if latest.Some? {
      if TimeOf(cfg, calls[n]) == latest {
      } else {
        var i :| 0 <= i < n && TimeOf(cfg, calls[..n][i]) == was;
        assert TimeOf(cfg, calls[i]) == latest;
      }
    }
  }

  /** Exactly on time: after any calls a grid minute from the first kline on is settled if and only if it closed at
      least a grace period before the latest exchange time that was seen. So whatever a kline gap covers closed that
      long ago. */
  lemma SettledOnTime(cfg: ValidConfig, calls: seq<Call>, m: int)
    requires var h := SeeAll(cfg, calls); h.first.Some? && h.first.value <= m && OnGrid(h.first.value, cfg.tfNs, m)
    ensures var d := ApplyAll(EMPTY, cfg, calls);
            && d.kLo.Some? && d.latest.Some? && IsLatest(cfg, calls, d.latest)
            && (m < d.kLo.value <==> m + cfg.tfNs + cfg.graceNs <= d.latest.value)
            && forall g | g in d.gaps && d.gaps[g].stream.Klines? ::
                 d.gaps[g].tsHi + cfg.tfNs + cfg.graceNs <= d.latest.value
  {
    EveryRunKeeps(cfg, calls);
    EveryRunPrompt(cfg, calls);
    LatestIsLatest(cfg, calls);
    var (d, h) := (ApplyAll(EMPTY, cfg, calls), SeeAll(cfg, calls));
    hide ApplyAll, SeeAll, IsLatest;
    FirstIsFirst(d, cfg, h);
    OldMinutesSettled(d, cfg, h, m);
    forall g | g in d.gaps && d.gaps[g].stream.Klines?
      ensures d.gaps[g].tsHi + cfg.tfNs + cfg.graceNs <= d.latest.value
    {
      GapIsContiguous(d, cfg.tfNs, h, g);
      assert RangeOk(d, cfg.tfNs, h.first.value, [], g);
      hide Inv, Timely, Calm, Contiguous;
      OldMinutesSettled(d, cfg, h, d.gaps[g].tsHi);
    }
  }

  lemma OldMinutesSettled(d: Ledger, cfg: ValidConfig, h: History, m: int)
    requires Inv(d, cfg.tfNs, h) && Prompt(d, cfg, h.first) && d.kLo.Some?
    requires h.first.Some? && h.first.value <= m && OnGrid(h.first.value, cfg.tfNs, m)
    ensures m < d.kLo.value <==> m + cfg.tfNs + cfg.graceNs <= d.latest.value
  {
    if m < d.kLo.value < m + cfg.tfNs {
      GridGap(h.first.value, cfg.tfNs, m, d.kLo.value);
    }
  }

  /** After any calls no candidate hole is overdue: each has at most `maxReorder` ids and is younger than a grace
      period. */
  lemma NoHoleOverdue(cfg: ValidConfig, calls: seq<Call>)
    ensures var d := ApplyAll(EMPTY, cfg, calls);
            forall h | h in d.pending ::
              |h.missing| <= cfg.maxReorder && (if d.latest.None? then 0 else d.latest.value) - h.created < cfg.graceNs
  {
    EveryRunPrompt(cfg, calls);
  }

  // ---------------------------------------------------------------- what is reported

  /** The gaps that a call reports as changed. */
  function Reports(d: Ledger, cfg: ValidConfig, call: Call): seq<GapRecord> {
    match call
    case KlineCall(c, ts) => OnKline(d, cfg, c, ts).1
    case TradeCall(i, a, ts) => OnTrade(d, cfg, i, a, ts).1
    case TimeCall(ts) => OnTime(d, cfg, ts).1
    case FlushCall => Flush(d, cfg).1
    case _ => []
  }

  /** If this is a new trade gap, it was high time: it has more ids than reordering is allowed for, or its later
      neighbour came at least a grace period ago. */
  ghost predicate HighTime(cfg: ValidConfig, now: Option<int>, r: GapRecord) {
    r.stream.Trades? && r.status.Open? ==>
      && r.exchangeNs == now && r.seqLo.Some? && r.seqHi.Some? && r.expected > 0
      && (r.expected > cfg.maxReorder || (if now.None? then 0 else now.value) - r.tsHi >= cfg.graceNs)
  }

  ghost predicate AllHighTime(cfg: ValidConfig, now: Option<int>, rs: seq<GapRecord>) {
    forall r | r in rs :: HighTime(cfg, now, r)
  }

  lemma {:induction false} SweepReportsKlines(d: Ledger, cfg: ValidConfig, run: seq<int>, out: seq<GapRecord>)
    requires forall r | r in out :: r.stream.Klines?
    ensures forall r | r in SweepFrom(d, cfg, run, out).1 :: r.stream.Klines?
    decreases if d.kLo.Some? && d.latest.Some? then d.latest.value - cfg.graceNs - d.kLo.value else 0
  {
    hide Own;
    if d.kLo.Some? && d.latest.Some? && d.kLo.value + cfg.tfNs <= d.latest.value - cfg.graceNs {
      var m := d.kLo.value;
      if m in d.kClosed {
        var d1 := d.(kClosed := d.kClosed - {m});
        if run != [] {
          var (d2, g) := OpenKlines(d1, run);
          SweepReportsKlines(d2.(kLo := Some(m + cfg.tfNs)), cfg, [], out + [g]);
        } else {
          SweepReportsKlines(d1.(kLo := Some(m + cfg.tfNs)), cfg, [], out);
        }
      } else {
        SweepReportsKlines(d.(kLo := Some(m + cfg.tfNs)), cfg, run + [m], out);
      }
    }
  }

  lemma SweepHighTime(d: Ledger, cfg: ValidConfig, now: Option<int>)
    ensures AllHighTime(cfg, now, Sweep(d, cfg).1)
  {
    SweepReportsKlines(d, cfg, [], []);
    hide SweepFrom;
  }

  lemma FillHighTime(d: Ledger, stream: Stream, key: int, cfg: ValidConfig, now: Option<int>)
    ensures AllHighTime(cfg, now, Fill(d, stream, key).2)
  {
  }

  lemma OverdueIsHighTime(cfg: ValidConfig, now: Option<int>, r: GapRecord, h: Hole)
    requires MadeOf(r, h, now) && Overdue(cfg, if now.None? then 0 else now.value, h) && h.tAfter <= h.created
    ensures HighTime(cfg, now, r)
  {
    assert h.missing != {};
    if |h.missing| == 0 { assert false; }
  }

  lemma ConfirmHighTime(d: Ledger, cfg: ValidConfig)
    requires HolesFit(d.pending)
    ensures AllHighTime(cfg, d.latest, Confirm(d, cfg, false).1)
  {
    ConfirmReportsDue(d, cfg, false, d.pending, [], []);
    var (all, due) := (Confirm(d, cfg, false).1, Due(cfg, false, Clock(d), d.pending));
    hide ConfirmFrom, MadeOf, Overdue, HighTime;
    forall r | r in all ensures HighTime(cfg, d.latest, r) {
      var i :| 0 <= i < |all| && all[i] == r;
      assert MadeOf(all[0 + i], due[i], d.latest);
      assert due[i] in due;
      OverdueIsHighTime(cfg, d.latest, r, due[i]);
    }
  }

  lemma AllOf(cfg: ValidConfig, now: Option<int>, a: seq<GapRecord>, b: seq<GapRecord>)
    requires AllHighTime(cfg, now, a) && AllHighTime(cfg, now, b)
    ensures AllHighTime(cfg, now, a + b)
  {
  }

  lemma NoteHighTime(d: Ledger, c: Candle, a: int, ts: int, cfg: ValidConfig, now: Option<int>)
    ensures AllHighTime(cfg, now, NoteKline(d, c).1)
    ensures d.latest.Some? ==> AllHighTime(cfg, now, NoteTrade(d, a, ts).1)
  {
    FillHighTime(if d.kLo.None? then d.(kLo := Some(c.openNs)) else d, Klines, c.openNs, cfg, now);
    FillHighTime(d, Trades, a, cfg, now);
    hide Fill, HighTime;
  }

  lemma CallHighTime(d: Ledger, cfg: ValidConfig, h: History, call: Call)
    requires Inv(d, cfg.tfNs, h) && Prompt(d, cfg, h.first) && !call.FlushCall?
    ensures AllHighTime(cfg, Apply(d, cfg, call).latest, Reports(d, cfg, call))
  {
    CalmFits(d, cfg, h);
    ClockMoves(d, cfg, h, call);
    var now := Apply(d, cfg, call).latest;
    hide Inv, HolesFit, Confirm, Sweep, Calm, AllHighTime, NoteKline, NoteTrade;
    match call
    case KlineCall(c, ts) =>
      if c.tf == cfg.tf && c.instrument == cfg.instrument {
        NoteKlineFrame(Advance(d, ts), c);
        NoteHighTime(Advance(d, ts), c, 0, ts, cfg, now);
        var (d1, a) := NoteKline(Advance(d, ts), c);
        SweepStill(d1, cfg);
        SweepHighTime(d1, cfg, now);
        var (d2, b) := Sweep(d1, cfg);
        ConfirmHighTime(d2, cfg);
        AllOf(cfg, now, a, b);
        AllOf(cfg, now, a + b, Confirm(d2, cfg, false).1);
      } else {
        NothingReported(cfg, now);
      }
    case TradeCall(i, t, ts) =>
      if i == cfg.instrument {
        NoteTradeFits(Advance(d, ts), t, ts);
        NoteHighTime(Advance(d, ts), Candle("", "", 0, false, Ohlcv(0.0, 0.0, 0.0, 0.0, 0.0, 0.0, 0)), t, ts, cfg, now);
        var (d1, a) := NoteTrade(Advance(d, ts), t, ts);
        ConfirmHighTime(d1, cfg);
        var (d2, b) := Confirm(d1, cfg, false);
        SweepHighTime(d2, cfg, now);
        AllOf(cfg, now, a, b);
        AllOf(cfg, now, a + b, Sweep(d2, cfg).1);
      } else {
        NothingReported(cfg, now);
      }
    case TimeCall(ts) =>
      SweepStill(Advance(d, ts), cfg);
      SweepHighTime(Advance(d, ts), cfg, now);
      var (d1, a) := Sweep(Advance(d, ts), cfg);
      ConfirmHighTime(d1, cfg);
      AllOf(cfg, now, a, Confirm(d1, cfg, false).1);
    case _ => NothingReported(cfg, now);
  }

  lemma NothingReported(cfg: ValidConfig, now: Option<int>)
    ensures AllHighTime(cfg, now, [])
  {
  }

  /** No hole is reported early: after any calls, what the next one (other than the flush at a lost connection or at the
      end) reports as a new trade gap has too many ids for reordering, or its later neighbour came a grace period
      ago. */
  lemma NoHoleEarly(cfg: ValidConfig, calls: seq<Call>, call: Call)
    requires !call.FlushCall?
    ensures var d := ApplyAll(EMPTY, cfg, calls);
            forall r | r in Reports(d, cfg, call) :: HighTime(cfg, Apply(d, cfg, call).latest, r)
  {
    EveryRunKeeps(cfg, calls);
    EveryRunPrompt(cfg, calls);
    CallHighTime(ApplyAll(EMPTY, cfg, calls), cfg, SeeAll(cfg, calls), call);
  }

  /** The exchange time from which a hole waits: the clock when it was noticed. */
  function NoticedAt(latest: int, ts: int): int {
    if latest != 0 then latest else ts
  }

  /** A jump in the trade ids makes one hole of exactly the ids left out, between the exchange time of the greatest id
      so far and that of the new one, noticed at the clock; it waits, or is reported at once if it is too large. */
  lemma JumpNoticed(d: Ledger, cfg: ValidConfig, h: History, a: int, ts: int)
    requires Inv(d, cfg.tfNs, h) && Prompt(d, cfg, h.first) && d.tMax.Some? && a > d.tMax.value + 1
    ensures var (e, out) := OnTrade(d, cfg, cfg.instrument, a, ts);
            && e.latest.Some? && e.tMax == Some(a) && e.tMaxTs == ts
            && var hole := Hole(IdRange(d.tMax.value + 1, a), d.tMaxTs, ts, NoticedAt(e.latest.value, ts));
               hole in e.pending || (Overdue(cfg, e.latest.value, hole) && exists r ::
                 r in out && MadeOf(r, hole, e.latest))
  {
    CalmFits(d, cfg, h);
    var d0 := Advance(d, ts);
    NoteTradeFits(d0, a, ts);
    var (d1, x) := NoteTrade(d0, a, ts);
    var hole := Hole(IdRange(d.tMax.value + 1, a), d.tMaxTs, ts, NoticedAt(d0.latest.value, ts));
    assert d1.pending == d.pending + [hole] && hole in d1.pending;
    hide Inv, Prompt, HolesFit, Confirm, Sweep, NoteTrade, MadeOf, Overdue, IdRange;
    HoleHandled(d1, cfg, hole);
    var (d2, y) := Confirm(d1, cfg, false);
    SweepStill(d2, cfg);
    SweepTrades(d2, cfg, [], []);
    assert Sweep(d2, cfg).0.tMax == d2.tMax && Sweep(d2, cfg).0.tMaxTs == d2.tMaxTs by { SweepIs(d2, cfg); }
    var z := Sweep(d2, cfg).1;
    assert forall r | r in y :: r in x + y + z;
  }

  lemma SweepIs(d: Ledger, cfg: ValidConfig)
    ensures Sweep(d, cfg) == SweepFrom(d, cfg, [], [])
  {
    hide SweepFrom;
  }

  lemma HoleHandled(d: Ledger, cfg: ValidConfig, hole: Hole)
    requires HolesFit(d.pending) && hole in d.pending
    ensures var (e, out) := Confirm(d, cfg, false);
            && e.latest == d.latest && e.tMax == d.tMax && e.tMaxTs == d.tMaxTs
            && (hole in e.pending || (Overdue(cfg, Clock(d), hole) && exists r ::
                 r in out && MadeOf(r, hole, d.latest)))
  {
    ConfirmKeepsWaiting(d, cfg, false, d.pending, [], []);
    ConfirmReportsDue(d, cfg, false, d.pending, [], []);
    ConfirmTrades(d, cfg, false, d.pending, [], []);
    var (e, out) := Confirm(d, cfg, false);
    hide ConfirmFrom, MadeOf, Overdue;
    if hole !in e.pending {
      var due := Due(cfg, false, Clock(d), d.pending);
      assert hole in due;
      var i :| 0 <= i < |due| && due[i] == hole;
      assert MadeOf(out[0 + i], hole, d.latest);
      assert out[i] in out;
    }
  }

  lemma {:induction false} ConfirmTrades(d: Ledger, cfg: ValidConfig, force: bool, holes: seq<Hole>, keep: seq<Hole>,
      out: seq<GapRecord>)
    ensures var e := ConfirmFrom(d, cfg, force, holes, keep, out).0; e.tMax == d.tMax && e.tMaxTs == d.tMaxTs
    decreases |holes|
  {
    hide Own;
    if holes != [] {
      if Ripe(d, cfg, force, holes[0]) {
        var (d1, g) := OpenHole(d, holes[0]);
        ConfirmTrades(d1, cfg, force, holes[1..], keep, out + [g]);
      } else {
        ConfirmTrades(d, cfg, force, holes[1..], keep + [holes[0]], out);
      }
    }
  }

  lemma {:induction false} SweepTrades(d: Ledger, cfg: ValidConfig, run: seq<int>, out: seq<GapRecord>)
    ensures var e := SweepFrom(d, cfg, run, out).0; e.tMax == d.tMax && e.tMaxTs == d.tMaxTs
    decreases if d.kLo.Some? && d.latest.Some? then d.latest.value - cfg.graceNs - d.kLo.value else 0
  {
    hide Own;
    if d.kLo.Some? && d.latest.Some? && d.kLo.value + cfg.tfNs <= d.latest.value - cfg.graceNs {
      var m := d.kLo.value;
      if m in d.kClosed {
        var d1 := d.(kClosed := d.kClosed - {m});
        if run != [] {
          var (d2, g) := OpenKlines(d1, run);
          SweepTrades(d2.(kLo := Some(m + cfg.tfNs)), cfg, [], out + [g]);
        } else {
          SweepTrades(d1.(kLo := Some(m + cfg.tfNs)), cfg, [], out);
        }
      } else {
        SweepTrades(d.(kLo := Some(m + cfg.tfNs)), cfg, run + [m], out);
      }
    }
  }
}
