/** Filling gaps of a candle series from REST answers: what each gap becomes, and why a second fill adds nothing. */
module GapFill {
  import opened Base
  import opened Events
  import opened Dedup
  import opened Backfill
  import opened BackfillProofs
  import Deduplicator
  import GapLedger

  /** A gap from the first to the last missing open time (inclusive). */
  datatype Hole = Hole(lo: int, hi: int, expected: int, status: GapLedger.Status, filledRows: nat, attempts: nat)

  predicate Inside(g: Hole, e: Event) {
    e.payload.Kline? && g.lo <= e.payload.candle.openNs <= g.hi
  }

  /** What of a REST answer belongs to the gap. */
  function InRange(g: Hole, es: seq<Event>): seq<Event> {
    if es == [] then [] else InRange(g, es[..|es| - 1]) + if Inside(g, es[|es| - 1]) then [es[|es| - 1]] else []
  }

  /** Offer events in order; the second part is what was not a duplicate. */
  function OfferNew(d: Store, es: seq<Event>): (Store, seq<Event>) {
    if es == [] then (d, [])
    else
      var e := es[|es| - 1];
      var (d1, added) := OfferNew(d, es[..|es| - 1]);
      var (d2, outcome) := Offer(d1, None, e);
      (d2, if outcome.Duplicate? then added else added + [e])
  }

  lemma OfferNewStep(d: Store, es: seq<Event>, e: Event)
    ensures var (d1, added) := OfferNew(d, es);
            var (d2, outcome) := Offer(d1, None, e);
            OfferNew(d, es + [e]) == (d2, if outcome.Duplicate? then added else added + [e])
  {
    assert (es + [e])[..|es|] == es;
  }

  function Attempted(g: Hole, n: nat): Hole {
    g.(status := if n == g.expected then GapLedger.Filled else if n > 0 then GapLedger.Partial
      else GapLedger.Unfillable, filledRows := n, attempts := g.attempts + 1)
  }

  /** `answers[k]` are the closed candles that came back for gap `k`. */
  function FillAll(d: Store, gaps: seq<Hole>, answers: seq<seq<Event>>): (Store, seq<Hole>, seq<Event>)
    requires |gaps| == |answers|
  {
    if gaps == [] then (d, [], [])
    else
      var n := |gaps| - 1;
      var (d1, done, added) := FillAll(d, gaps[..n], answers[..n]);
      var rows := InRange(gaps[n], answers[n]);
      var (d2, more) := OfferNew(d1, rows);
      (d2, done + [Attempted(gaps[n], |rows|)], added + more)
  }

  // ---------------------------------------------------------------- nothing is added twice

  /** The store has a version of `e` that `e` does not outrank. */
  ghost predicate Knows(d: Store, e: Event) {
    e.uid in d.events && !Outranks(e, d.events[e.uid])
  }

  lemma OfferKnows(d: Store, e: Event, x: Event)
    ensures Knows(Offer(d, None, e).0, e) && (Knows(d, x) ==> Knows(Offer(d, None, e).0, x))
    ensures Knows(d, e) ==> Offer(d, None, e) == (d, Duplicate)
  {
  }

  lemma {:induction false} OfferNewKnows(d: Store, es: seq<Event>, x: Event)
    requires Knows(d, x) || x in es
    ensures Knows(OfferNew(d, es).0, x)
  {
    if es != [] {
      hide Knows;
      var n := |es| - 1;
      assert es == es[..n] + [es[n]];
      var d1 := OfferNew(d, es[..n]).0;
      OfferKnows(d1, es[n], x);
      if x != es[n] {
        OfferNewKnows(d, es[..n], x);
      }
    }
  }

  lemma {:induction false} KnownAddsNothing(d: Store, es: seq<Event>)
    requires forall e | e in es :: Knows(d, e)
    ensures OfferNew(d, es) == (d, [])
  {
    if es != [] {
      hide Knows;
      var n := |es| - 1;
      assert es[n] in es && forall e | e in es[..n] :: e in es;
      KnownAddsNothing(d, es[..n]);
      OfferKnows(d, es[n], es[n]);
    }
  }

  lemma {:induction false} InRangeIs(g: Hole, es: seq<Event>)
    ensures forall e :: e in InRange(g, es) <==> e in es && Inside(g, e)
  {
    if es != [] {
      InRangeIs(g, es[..|es| - 1]);
      assert es == es[..|es| - 1] + [es[|es| - 1]];
    }
  }

  /** After a fill everything that came back for its gap is known. */
  lemma {:induction false} FillKnows(d: Store, gaps: seq<Hole>, answers: seq<seq<Event>>, x: Event)
    requires |gaps| == |answers|
    requires Knows(d, x) || exists k :: 0 <= k < |gaps| && x in answers[k] && Inside(gaps[k], x)
    ensures Knows(FillAll(d, gaps, answers).0, x)
  {
    if gaps != [] {
      hide Knows;
      var n := |gaps| - 1;
      var rows := InRange(gaps[n], answers[n]);
      InRangeIs(gaps[n], answers[n]);
      if !(x in rows) {
        if !Knows(d, x) {
          var k :| 0 <= k < |gaps| && x in answers[k] && Inside(gaps[k], x);
          assert k < n;
          assert x in answers[..n][k] && Inside(gaps[..n][k], x);
        }
        FillKnows(d, gaps[..n], answers[..n], x);
      }
      OfferNewKnows(FillAll(d, gaps[..n], answers[..n]).0, rows, x);
    }
  }

  lemma {:induction false} KnownFillAddsNothing(d: Store, gaps: seq<Hole>, answers: seq<seq<Event>>)
    requires |gaps| == |answers|
    requires forall k, e | 0 <= k < |gaps| && e in answers[k] && Inside(gaps[k], e) :: Knows(d, e)
    ensures FillAll(d, gaps, answers).0 == d && FillAll(d, gaps, answers).2 == []
  {
    if gaps != [] {
      hide Knows;
      var n := |gaps| - 1;
      assert forall k | 0 <= k < n :: answers[..n][k] == answers[k] && gaps[..n][k] == gaps[k];
      KnownFillAddsNothing(d, gaps[..n], answers[..n]);
      InRangeIs(gaps[n], answers[n]);
      KnownAddsNothing(d, InRange(gaps[n], answers[n]));
    }
  }

  /** The same bar seen again: the later copy does not outrank the earlier one. */
  ghost predicate SeenAgain(earlier: seq<Event>, e: Event) {
    exists x :: x in earlier && x.uid == e.uid && x.payload == e.payload && !Outranks(e, x)
  }

  lemma NotAbove(a: (int, int, int, int, int), b: (int, int, int, int, int), c: (int, int, int, int, int))
    requires !Above(a, b) && !Above(b, c)
    ensures !Above(a, c)
  {
  }

  /** A repeated fill whose answers bring the same bars again adds nothing and leaves the series as it was. */
  lemma RefillAddsNothing(d: Store, gaps: seq<Hole>, answers: seq<seq<Event>>, again: seq<seq<Event>>)
    requires |gaps| == |answers| == |again|
    requires forall k, e | 0 <= k < |gaps| && e in again[k] :: SeenAgain(answers[k], e)
    ensures var d1 := FillAll(d, gaps, answers).0;
            FillAll(d1, gaps, again).0 == d1 && FillAll(d1, gaps, again).2 == []
  {
    var d1 := FillAll(d, gaps, answers).0;
    forall k, e | 0 <= k < |gaps| && e in again[k] && Inside(gaps[k], e) ensures Knows(d1, e) {
      assert SeenAgain(answers[k], e);
      var x :| x in answers[k] && x.uid == e.uid && x.payload == e.payload && !Outranks(e, x);
      FillKnows(d, gaps, answers, x);
      NotAbove(Key(e), Key(x), Key(d1.events[x.uid]));
    }
    KnownFillAddsNothing(d1, gaps, again);
  }

  // ---------------------------------------------------------------- answers of the exchange

  const NS_PER_MS := 1000000

  /** The REST side of a fill: what the exchange answers to a query, page limit, exchange time, bar length, what the
      normaliser makes of a row, and the arrival time it stamps on the bar with a given open. */
  datatype Rest = Rest(
    exchange: Query -> ((nat, int) -> seq<Row>), limit: int, now: int, iv: int, instrument: string, tf: string,
    uid: int -> int, values: Row -> Ohlcv, canon: (Row, int) -> int, stamp: int -> int)

  /** A closed REST bar as an event: its identity is its open time, its exchange time is its close. */
  function Normal(rest: Rest, r: Row): Event {
    Event(rest.uid(r.open), rest.canon(r, rest.stamp(r.open)), 2,
          (r.open + rest.iv - 1) * NS_PER_MS, rest.stamp(r.open), true,
          Kline(Candle(rest.instrument, rest.tf, r.open * NS_PER_MS, true, rest.values(r))))
  }

  function QueryFor(rest: Rest, g: Hole): Query {
    Query(g.lo / NS_PER_MS, g.hi / NS_PER_MS, rest.limit, rest.now, rest.iv)
  }

  /** The candles of a scan, by open time. */
  function EventsOf(rest: Rest, bars: map<int, Row>, opens: seq<int>): (es: seq<Event>)
    requires forall o | o in opens :: o in bars
    ensures |es| == |opens|
  {
    if opens == [] then []
    else
      var n := |opens| - 1;
      var o := opens[n];
      assert o in opens && forall x | x in opens[..n] :: x in opens;
      EventsOf(rest, bars, opens[..n]) + [Normal(rest, bars[o])]
  }

  lemma {:induction false} EventAt(rest: Rest, bars: map<int, Row>, opens: seq<int>, i: nat)
    requires (forall o | o in opens :: o in bars) && i < |opens|
    ensures opens[i] in opens && EventsOf(rest, bars, opens)[i] == Normal(rest, bars[opens[i]])
  {
    var n := |opens| - 1;
    assert forall x | x in opens[..n] :: x in opens;
    if i < n {
      EventAt(rest, bars, opens[..n], i);
    }
  }

  function Answer(rest: Rest, g: Hole): seq<Event>
    requires rest.iv > 0
  {
    var q := QueryFor(rest, g);
    var bars := Fetch(rest.exchange(q), q).byOpen;
    EventsOf(rest, bars, SortedKeys(bars.Keys))
  }

  function Answers(rest: Rest, gaps: seq<Hole>): (r: seq<seq<Event>>)
    requires rest.iv > 0
    ensures |r| == |gaps| && forall k | 0 <= k < |gaps| :: r[k] == Answer(rest, gaps[k])
  {
    if gaps == [] then [] else Answers(rest, gaps[..|gaps| - 1]) + [Answer(rest, gaps[|gaps| - 1])]
  }

  /** A gap as the detector reports it: bounds on the grid, counted. */
  ghost predicate OnTheGrid(rest: Rest, g: Hole)
    requires rest.iv > 0
  {
    && g.lo % NS_PER_MS == 0 && g.hi % NS_PER_MS == 0 && g.lo <= g.hi
    && Aligned(g.lo / NS_PER_MS, rest.iv) && Aligned(g.hi / NS_PER_MS, rest.iv)
    && g.expected == (g.hi / NS_PER_MS - g.lo / NS_PER_MS) / rest.iv + 1
  }

  /** The bars are exactly the closed rows of the table in the range, each under its open. */
  ghost predicate ExactBars(table: seq<Row>, q: Query, bars: map<int, Row>)
    requires q.iv > 0
  {
    && (forall x | x in table && q.start <= x.open <= q.end && Closed(q, x) :: x.open in bars)
    && (forall o | o in bars :: bars[o].open == o && bars[o] in table && q.start <= o <= q.end && Closed(q, bars[o])
         && Aligned(o, q.iv))
  }

  lemma FetchedBars(server: (nat, int) -> seq<Row>, table: seq<Row>, q: Query)
    requires TableOk(server, table, q)
    ensures ExactBars(table, q, Fetch(server, q).byOpen)
  {
    ExactlyTheClosedBars(server, table, q);
    hide Fetch, TableOk, FirstExpected, LastExpected, Aligned, Closed;
  }

  /** Everything a table server answers lies inside the gap. */
  lemma AnswerInside(rest: Rest, table: seq<Row>, g: Hole, bars: map<int, Row>)
    requires rest.iv > 0 && OnTheGrid(rest, g) && ExactBars(table, QueryFor(rest, g), bars)
    ensures var es := EventsOf(rest, bars, SortedKeys(bars.Keys)); InRange(g, es) == es
  {
    var opens := SortedKeys(bars.Keys);
    var es := EventsOf(rest, bars, opens);
    forall i | 0 <= i < |es| ensures Inside(g, es[i]) {
      EventAt(rest, bars, opens, i);
      Scaled(g.lo, g.hi, opens[i]);
    }
    hide EventsOf, SortedKeys;
    AllInside(g, es);
  }

  lemma Scaled(lo: int, hi: int, o: int)
    requires lo % NS_PER_MS == 0 && hi % NS_PER_MS == 0 && lo / NS_PER_MS <= o <= hi / NS_PER_MS
    ensures lo <= o * NS_PER_MS <= hi
  {
  }

  lemma {:induction false} AllInside(g: Hole, es: seq<Event>)
    requires forall i | 0 <= i < |es| :: Inside(g, es[i])
    ensures InRange(g, es) == es
  {
    if es != [] {
      AllInside(g, es[..|es| - 1]);
    }
  }

  /** A gap is FILLED if and only if the exchange has every bar of it, closed; UNFILLABLE if and only if it has none. */
  lemma FilledMeansComplete(rest: Rest, table: seq<Row>, g: Hole)
    requires rest.iv > 0 && OnTheGrid(rest, g)
    requires var q := QueryFor(rest, g); TableOk(rest.exchange(q), table, q)
    ensures var q := QueryFor(rest, g);
            var status := Attempted(g, |InRange(g, Answer(rest, g))|).status;
            && (status.Filled? <==> forall m | Aligned(m, rest.iv) && q.start <= m <= q.end :: Present(table, q, m))
            && (status.Unfillable? <==> forall r | r in table && q.start <= r.open <= q.end :: !Closed(q, r))
  {
    var q := QueryFor(rest, g);
    var bars := Fetch(rest.exchange(q), q).byOpen;
    FetchedBars(rest.exchange(q), table, q);
    AnswerInside(rest, table, g, bars);
    assert |InRange(g, Answer(rest, g))| == |SortedKeys(bars.Keys)|;
    hide Fetch, TableOk, Answer, InRange, ExactBars, Aligned, Present;
    Counted(rest, table, g, bars);
  }

  /** The table has the bar that opens at `m`, closed. */
  ghost predicate Present(table: seq<Row>, q: Query, m: int) {
    exists r :: r in table && r.open == m && Closed(q, r)
  }

  lemma Counted(rest: Rest, table: seq<Row>, g: Hole, bars: map<int, Row>)
    requires rest.iv > 0 && OnTheGrid(rest, g) && ExactBars(table, QueryFor(rest, g), bars)
    ensures var q, n := QueryFor(rest, g), |SortedKeys(bars.Keys)|;
            && (n == g.expected <==> forall m | Aligned(m, rest.iv) && q.start <= m <= q.end :: Present(table, q, m))
            && (n == 0 <==> forall r | r in table && q.start <= r.open <= q.end :: !Closed(q, r))
  {
    var q := QueryFor(rest, g);
    assert q.start <= q.end && q.iv == rest.iv && g.expected == (q.end - q.start) / q.iv + 1;
    hide Aligned, Closed, ExactBars, Present, SortedKeys, QueryFor;
    CountedRange(q, table, bars);
  }

  lemma CountedRange(q: Query, table: seq<Row>, bars: map<int, Row>)
    requires q.iv > 0 && ExactBars(table, q, bars) && q.start <= q.end && Aligned(q.start, q.iv) && Aligned(q.end, q.iv)
    ensures var n := |SortedKeys(bars.Keys)|;
            && (n == (q.end - q.start) / q.iv + 1 <==> forall m | Aligned(m, q.iv) && q.start <= m <= q.end ::
                 Present(table, q, m))
            && (n == 0 <==> forall r | r in table && q.start <= r.open <= q.end :: !Closed(q, r))
  {
    var opens := SortedKeys(bars.Keys);
    OpensInGap(q, table, bars);
    NoneOrSome(opens, bars, table, q);
    PresentMeans(table, q, bars, opens);
    hide Aligned, OnGrid, OpensOk, Closed, ExactBars, SortedKeys, Present;
    CountIsComplete(opens, q.start, q.iv, q.end);
    CompleteMeans(opens, q, table);
    hide Complete;
  }

  lemma CompleteMeans(opens: seq<int>, q: Query, table: seq<Row>)
    requires q.iv > 0 && Aligned(q.start, q.iv) && forall m | q.start <= m <= q.end ::
             m in opens <==> Present(table, q, m)
    ensures Complete(opens, q.start, q.iv, q.end) <==> forall m | Aligned(m, q.iv) && q.start <= m <= q.end ::
            Present(table, q, m)
  {
    SameGridPoints(q.start, q.iv);
    hide Aligned, OnGrid, Present;
  }

  lemma PresentMeans(table: seq<Row>, q: Query, bars: map<int, Row>, opens: seq<int>)
    requires q.iv > 0 && ExactBars(table, q, bars) && forall o :: o in opens <==> o in bars
    ensures forall m | q.start <= m <= q.end :: m in opens <==> Present(table, q, m)
  {
    hide Aligned, Closed;
    forall m | q.start <= m <= q.end ensures m in opens <==> Present(table, q, m) {
      if m in bars {
        assert bars[m] in table && bars[m].open == m && Closed(q, bars[m]);
      }
    }
  }

  lemma NoneOrSome(opens: seq<int>, bars: map<int, Row>, table: seq<Row>, q: Query)
    requires (forall o :: o in opens <==> o in bars)
    requires forall x | x in table && q.start <= x.open <= q.end && Closed(q, x) :: x.open in bars
    requires forall o | o in bars :: bars[o] in table && q.start <= bars[o].open <= q.end && Closed(q, bars[o])
    ensures opens == [] <==> forall r | r in table && q.start <= r.open <= q.end :: !Closed(q, r)
  {
    if opens != [] {
      var o := opens[0];
      assert o in opens;
      assert bars[o] in table;
    }
  }

  /** Grid points after `lo - iv` are those from `lo` on. */
  lemma SameGridPoints(lo: int, iv: int)
    requires iv > 0 && Aligned(lo, iv)
    ensures forall m :: OnGrid(lo - iv, iv, m) && lo - iv < m <==> Aligned(m, iv) && lo <= m
  {
    NextAligned(lo, iv);
    forall m ensures OnGrid(lo - iv, iv, m) && lo - iv < m <==> Aligned(m, iv) && lo <= m {
      if Aligned(m, iv) {
        SameGrid(lo - iv, m, iv);
      }
      if OnGrid(lo - iv, iv, m) {
        AlignedFrom(lo - iv, m, iv);
        if lo - iv < m {
          StepAbove(lo - iv, m, iv);
        }
      }
    }
  }

  lemma OpensInGap(q: Query, table: seq<Row>, bars: map<int, Row>)
    requires q.iv > 0 && ExactBars(table, q, bars) && q.start <= q.end && Aligned(q.start, q.iv) && Aligned(q.end, q.iv)
    ensures OnGrid(q.start - q.iv, q.iv, q.end) && OpensOk(SortedKeys(bars.Keys), q.start - q.iv, q.iv, q.end)
  {
    var opens := SortedKeys(bars.Keys);
    SortedKeysAscend(bars.Keys);
    SameGridPoints(q.start, q.iv);
    hide Aligned, OnGrid, Closed, SortedKeys;
    forall i | 0 <= i < |opens| ensures q.start - q.iv < opens[i] <= q.end && OnGrid(q.start - q.iv, q.iv, opens[i]) {
      assert opens[i] in opens;
      assert opens[i] in bars;
    }
  }

  /** Asking again for the same exchange time: the same bars come back, with arrival times that are not earlier. */
  ghost predicate AskedAgain(rest: Rest, again: Rest) {
    AskedLater(rest, again) && again.now == rest.now
  }

  /** Asking the same exchange again, possibly at a later exchange time, with arrival times that are not earlier. */
  ghost predicate AskedLater(rest: Rest, again: Rest) {
    && again == rest.(now := again.now, stamp := again.stamp) && rest.now <= again.now
    && forall o :: rest.stamp(o) <= again.stamp(o)
  }

  /** The later copy of a bar does not outrank the earlier one. */
  lemma LaterCopyIsSeenAgain(rest: Rest, again: Rest, bars: map<int, Row>, opens: seq<int>, e: Event)
    requires AskedAgain(rest, again) && (forall o | o in opens :: o in bars) && e in EventsOf(again, bars, opens)
    ensures SeenAgain(EventsOf(rest, bars, opens), e)
  {
    var es := EventsOf(rest, bars, opens);
    var i :| 0 <= i < |EventsOf(again, bars, opens)| && EventsOf(again, bars, opens)[i] == e;
    EventAt(rest, bars, opens, i);
    EventAt(again, bars, opens, i);
    var x := es[i];
    assert x in es;
    assert x.uid == e.uid && x.payload == e.payload;
    assert !Outranks(e, x) by { SameOrLater(rest, again, bars[opens[i]]); }
  }

  lemma SameOrLater(rest: Rest, again: Rest, r: Row)
    requires AskedLater(rest, again)
    ensures !Outranks(Normal(again, r), Normal(rest, r))
  {
  }

  /** Filling the same gaps again for the same exchange time adds nothing and leaves the store as it was, whatever the
      exchange answers. */
  lemma RepeatedFillAddsNothing(d: Store, gaps: seq<Hole>, rest: Rest, again: Rest)
    requires rest.iv > 0 && AskedAgain(rest, again)
    ensures var d1 := FillAll(d, gaps, Answers(rest, gaps)).0;
            FillAll(d1, gaps, Answers(again, gaps)).0 == d1 && FillAll(d1, gaps, Answers(again, gaps)).2 == []
  {
    hide FillAll, Fetch, SortedKeys, EventsOf;
    forall k, e | 0 <= k < |gaps| && e in Answers(again, gaps)[k] ensures SeenAgain(Answers(rest, gaps)[k], e) {
      var q := QueryFor(rest, gaps[k]);
      var bars := Fetch(rest.exchange(q), q).byOpen;
      LaterCopyIsSeenAgain(rest, again, bars, SortedKeys(bars.Keys), e);
    }
    RefillAddsNothing(d, gaps, Answers(rest, gaps), Answers(again, gaps));
  }

  // ---------------------------------------------------------------- a second fill at a later exchange time

  /** The other direction of `KnownAddsNothing`. */
  lemma {:induction false} NothingAddedMeansKnown(d: Store, es: seq<Event>)
    requires OfferNew(d, es).1 == []
    ensures OfferNew(d, es).0 == d && forall e | e in es :: Knows(d, e)
  {
    if es != [] {
      var n := |es| - 1;
      assert es == es[..n] + [es[n]];
      NothingAddedMeansKnown(d, es[..n]);
    }
  }

  lemma {:induction false} NothingFilledMeansKnown(d: Store, gaps: seq<Hole>, answers: seq<seq<Event>>)
    requires |gaps| == |answers| && FillAll(d, gaps, answers).2 == []
    ensures FillAll(d, gaps, answers).0 == d
    ensures forall k, e | 0 <= k < |gaps| && e in answers[k] && Inside(gaps[k], e) :: Knows(d, e)
  {
    if gaps != [] {
      hide Knows;
      var n := |gaps| - 1;
      NothingFilledMeansKnown(d, gaps[..n], answers[..n]);
      InRangeIs(gaps[n], answers[n]);
      NothingAddedMeansKnown(d, InRange(gaps[n], answers[n]));
      forall k, e | 0 <= k < |gaps| && e in answers[k] && Inside(gaps[k], e) ensures Knows(d, e) {
        if k < n { assert answers[..n][k] == answers[k] && gaps[..n][k] == gaps[k]; }
      }
    }
  }

  /** A uid that is not offered keeps its version. */
  ghost predicate SameUnder(d: Store, d1: Store, u: int) {
    (u in d.events <==> u in d1.events) && (u in d.events ==> d1.events[u] == d.events[u])
  }

  lemma {:induction false} OfferNewFrame(d: Store, es: seq<Event>, u: int)
    requires forall e | e in es :: e.uid != u
    ensures SameUnder(d, OfferNew(d, es).0, u)
  {
    if es != [] {
      var n := |es| - 1;
      assert es[n] in es && forall e | e in es[..n] :: e in es;
      OfferNewFrame(d, es[..n], u);
    }
  }

  lemma {:induction false} FillFrame(d: Store, gaps: seq<Hole>, answers: seq<seq<Event>>, u: int)
    requires |gaps| == |answers| && forall k, e | 0 <= k < |gaps| && e in answers[k] :: e.uid != u
    ensures SameUnder(d, FillAll(d, gaps, answers).0, u)
  {
    if gaps != [] {
      var n := |gaps| - 1;
      assert forall k | 0 <= k < n :: answers[..n][k] == answers[k];
      FillFrame(d, gaps[..n], answers[..n], u);
      InRangeIs(gaps[n], answers[n]);
      OfferNewFrame(FillAll(d, gaps[..n], answers[..n]).0, InRange(gaps[n], answers[n]), u);
    }
  }

  /** Row `r` of the table lies in gap `g` and is closed at the exchange time. */
  ghost predicate Due(rest: Rest, table: seq<Row>, g: Hole, r: Row) {
    var q := QueryFor(rest, g);
    r in table && q.start <= r.open <= q.end && Closed(q, r)
  }

  ghost predicate FromTable(rest: Rest, table: seq<Row>, gaps: seq<Hole>) {
    && rest.iv > 0 && (forall o, p :: rest.uid(o) == rest.uid(p) ==> o == p)
    && forall k | 0 <= k < |gaps| ::
         OnTheGrid(rest, gaps[k]) && TableOk(rest.exchange(QueryFor(rest, gaps[k])), table, QueryFor(rest, gaps[k]))
  }

  /** The answer for a gap is exactly the due rows. */
  lemma AnswerIsDue(rest: Rest, table: seq<Row>, g: Hole)
    requires rest.iv > 0 && OnTheGrid(rest, g) && TableOk(rest.exchange(QueryFor(rest, g)), table, QueryFor(rest, g))
    ensures forall r | Due(rest, table, g, r) :: Normal(rest, r) in Answer(rest, g) && Inside(g, Normal(rest, r))
    ensures forall e | e in Answer(rest, g) :: exists r :: Due(rest, table, g, r) && e == Normal(rest, r)
  {
    var q := QueryFor(rest, g);
    var bars := Fetch(rest.exchange(q), q).byOpen;
    ExactlyTheClosedBars(rest.exchange(q), table, q);
    hide Fetch, TableOk, SortedKeys, Aligned, Answer;
    EventsAreDue(rest, table, g, bars);
    assert Answer(rest, g) == EventsOf(rest, bars, SortedKeys(bars.Keys)) by { AnswerIs(rest, g); }
  }

  lemma AnswerIs(rest: Rest, g: Hole)
    requires rest.iv > 0
    ensures var q := QueryFor(rest, g);
            var bars := Fetch(rest.exchange(q), q).byOpen;
            Answer(rest, g) == EventsOf(rest, bars, SortedKeys(bars.Keys))
  {
    hide Fetch, SortedKeys, EventsOf;
  }

  lemma EventsAreDue(rest: Rest, table: seq<Row>, g: Hole, bars: map<int, Row>)
    requires rest.iv > 0 && OnTheGrid(rest, g)
    requires forall r | Due(rest, table, g, r) :: r.open in bars && bars[r.open] == r
    requires forall o | o in bars :: bars[o].open == o && Due(rest, table, g, bars[o])
    ensures var es := EventsOf(rest, bars, SortedKeys(bars.Keys));
            && (forall r | Due(rest, table, g, r) :: Normal(rest, r) in es && Inside(g, Normal(rest, r)))
            && forall e | e in es :: exists r :: Due(rest, table, g, r) && e == Normal(rest, r)
  {
    var opens := SortedKeys(bars.Keys);
    var es := EventsOf(rest, bars, opens);
    hide SortedKeys, Aligned, EventsOf;
    forall r | Due(rest, table, g, r) ensures Normal(rest, r) in es && Inside(g, Normal(rest, r)) {
      assert r.open in opens;
      var i :| 0 <= i < |opens| && opens[i] == r.open;
      EventAt(rest, bars, opens, i);
      Scaled(g.lo, g.hi, r.open);
    }
    forall e | e in es ensures exists r :: Due(rest, table, g, r) && e == Normal(rest, r) {
      var i :| 0 <= i < |opens| && es[i] == e;
      EventAt(rest, bars, opens, i);
      assert Due(rest, table, g, bars[opens[i]]);
    }
  }

  lemma SortedIsOne(table: seq<Row>, r: Row, x: Row)
    requires Sorted(table) && r in table && x in table && r.open == x.open
    ensures r == x
  {
  }

  /** The first fill brings no version of a bar that was not closed yet. */
  lemma NotDueUnchanged(d: Store, gaps: seq<Hole>, rest: Rest, table: seq<Row>, k: nat, r: Row)
    requires FromTable(rest, table, gaps) && k < |gaps| && r in table && !Due(rest, table, gaps[k], r)
    requires var q := QueryFor(rest, gaps[k]); q.start <= r.open <= q.end
    ensures SameUnder(d, FillAll(d, gaps, Answers(rest, gaps)).0, rest.uid(r.open))
  {
    assert Sorted(table);
    hide FillAll, TableOk, SameUnder, Answer, Sorted, Aligned, Normal;
    forall i, e | 0 <= i < |gaps| && e in Answers(rest, gaps)[i] ensures e.uid != rest.uid(r.open) {
      AnswerIsDue(rest, table, gaps[i]);
      var x :| Due(rest, table, gaps[i], x) && e == Normal(rest, x);
      NormalUid(rest, x);
      if x.open == r.open {
        SortedIsOne(table, r, x);
      }
    }
    FillFrame(d, gaps, Answers(rest, gaps), rest.uid(r.open));
  }

  lemma NormalUid(rest: Rest, r: Row)
    ensures Normal(rest, r).uid == rest.uid(r.open)
  {
  }

  /** After the first fill a bar that is due at the second one is known exactly if it was due at the first or known
      before. */
  lemma KnownAfterFill(d: Store, gaps: seq<Hole>, rest: Rest, again: Rest, table: seq<Row>, k: nat, r: Row)
    requires AskedLater(rest, again) && FromTable(rest, table, gaps) && k < |gaps| && Due(again, table, gaps[k], r)
    ensures Knows(FillAll(d, gaps, Answers(rest, gaps)).0, Normal(again, r))
            <==> Due(rest, table, gaps[k], r) || Knows(d, Normal(again, r))
  {
    var (d1, e, x) := (FillAll(d, gaps, Answers(rest, gaps)).0, Normal(again, r), Normal(rest, r));
    NormalUid(again, r);
    NormalUid(rest, r);
    if Due(rest, table, gaps[k], r) {
      AnswerIsDue(rest, table, gaps[k]);
      SameOrLater(rest, again, r);
      hide TableOk, FillAll, Normal, AskedLater, Answer;
      assert x in Answers(rest, gaps)[k] && Inside(gaps[k], x);
      FillKnows(d, gaps, Answers(rest, gaps), x);
      NotAbove(Key(e), Key(x), Key(d1.events[x.uid]));
    } else if Knows(d, e) {
      hide TableOk, FillAll, Normal;
      FillKnows(d, gaps, Answers(rest, gaps), e);
    } else {
      hide FillAll, Outranks, Normal, TableOk;
      NotDueUnchanged(d, gaps, rest, table, k, r);
    }
  }

  /** A second fill at a later exchange time adds nothing if and only if every bar that is closed by then was closed at
      the first fill or was known before it. */
  lemma LaterFillAddsNothing(d: Store, gaps: seq<Hole>, rest: Rest, again: Rest, table: seq<Row>)
    requires AskedLater(rest, again) && FromTable(rest, table, gaps) && FromTable(again, table, gaps)
    ensures var d1 := FillAll(d, gaps, Answers(rest, gaps)).0;
            FillAll(d1, gaps, Answers(again, gaps)).2 == []
            <==> forall k, r | 0 <= k < |gaps| && Due(again, table, gaps[k], r) ::
              Due(rest, table, gaps[k], r) || Knows(d, Normal(again, r))
  {
    var d1 := FillAll(d, gaps, Answers(rest, gaps)).0;
    var (first, second) := (Answers(rest, gaps), Answers(again, gaps));
    hide FillAll, Knows, Normal, Answer, TableOk, AskedLater, Due, OnTheGrid;
    if FillAll(d1, gaps, second).2 == [] {
      NothingFilledMeansKnown(d1, gaps, second);
      forall k, r | 0 <= k < |gaps| && Due(again, table, gaps[k], r)
        ensures Due(rest, table, gaps[k], r) || Knows(d, Normal(again, r))
      {
        AnswerIsDue(again, table, gaps[k]);
        assert Normal(again, r) in second[k];
        KnownAfterFill(d, gaps, rest, again, table, k, r);
      }
    }
    if forall k, r | 0 <= k < |gaps| && Due(again, table, gaps[k], r) ::
      Due(rest, table, gaps[k], r) || Knows(d, Normal(again, r)) {
      forall k, e | 0 <= k < |gaps| && e in second[k] && Inside(gaps[k], e) ensures Knows(d1, e) {
        AnswerIsDue(again, table, gaps[k]);
        var r :| Due(again, table, gaps[k], r) && e == Normal(again, r);
        KnownAfterFill(d, gaps, rest, again, table, k, r);
      }
      KnownFillAddsNothing(d1, gaps, second);
    }
  }

  /** An exchange with one bar of a minute, which opens at 0, asked at exchange time `now`. */
  function OneBar(now: int): Rest {
    Rest((q: Query) => (k: nat, cursor: int) => Take(Within([Row(0, 0)], cursor, q.end), q.limit), 2, now, 60000,
         "", "", (o: int) => o, (r: Row) => Ohlcv(0.0, 0.0, 0.0, 0.0, 0.0, 0.0, 0), (r: Row, t: int) => 0,
         (o: int) => 0)
  }

  const FIRST_MINUTE := Hole(0, 0, 1, GapLedger.Open, 0, 0)

  lemma OneBarTable(now: int)
    ensures FromTable(OneBar(now), [Row(0, 0)], [FIRST_MINUTE])
    ensures Due(OneBar(now), [Row(0, 0)], FIRST_MINUTE, Row(0, 0)) <==> now >= 60000
  {
    assert 0 / NS_PER_MS == 0;
  }

  /** Asked before the bar has closed and again after, the second fill adds it. */
  lemma LateBarIsAdded()
    ensures AskedLater(OneBar(0), OneBar(60000))
    ensures var d1 := FillAll(EMPTY, [FIRST_MINUTE], Answers(OneBar(0), [FIRST_MINUTE])).0;
            FillAll(d1, [FIRST_MINUTE], Answers(OneBar(60000), [FIRST_MINUTE])).2 != []
  {
    OneBarTable(0);
    OneBarTable(60000);
    var (rest, again, gaps, table) := (OneBar(0), OneBar(60000), [FIRST_MINUTE], [Row(0, 0)]);
    assert AskedLater(rest, again);
    assert !Knows(EMPTY, Normal(again, Row(0, 0)));
    hide FromTable, Due, FillAll, Answers, Normal, Knows, OneBar, AskedLater;
    LaterFillAddsNothing(EMPTY, gaps, rest, again, table);
    assert Due(again, table, gaps[0], Row(0, 0)) && !Due(rest, table, gaps[0], Row(0, 0));
  }

  // ---------------------------------------------------------------- the loop

  /** One query per gap; what comes back is offered, and the gap gets its status. */
  method FillGaps(dedup: Deduplicator.Deduper, gaps: seq<Hole>, rest: Rest)
      returns (updated: seq<Hole>, added: seq<Event>, requests: nat)
    requires dedup.max == None && forall g | g in gaps :: ValidQuery(QueryFor(rest, g))
    requires rest.iv > 0
    modifies dedup
    ensures (dedup.View(), updated, added) == FillAll(old(dedup.View()), gaps, Answers(rest, gaps))
  {
    hide Offer, Answer, Fetch, ValidQuery;
    updated, added, requests := [], [], 0;
    ghost var answers := Answers(rest, gaps);
    for k := 0 to |gaps|
      invariant (dedup.View(), updated, added) == FillAll(old(dedup.View()), gaps[..k], answers[..k])
    {
      assert gaps[..k + 1][..k] == gaps[..k] && answers[..k + 1][..k] == answers[..k];
      var g := gaps[k];
      assert g in gaps;
      var answer, m := Ask(rest, g);
      requests := requests + m;
      var n, more := OfferInRange(dedup, g, answer);
      added := added + more;
      updated := updated + [Attempted(g, n)];
    }
    assert gaps[..|gaps|] == gaps && answers[..|gaps|] == answers;
  }

  method Ask(rest: Rest, g: Hole) returns (answer: seq<Event>, requests: nat)
    requires ValidQuery(QueryFor(rest, g))
    ensures answer == Answer(rest, g)
  {
    var q := QueryFor(rest, g);
    var scan, gaps;
    scan, gaps, requests := BackfillKlines(rest.exchange(q), q);
    answer := EventsOf(rest, scan.byOpen, SortedKeys(scan.byOpen.Keys));
  }

  method OfferInRange(dedup: Deduplicator.Deduper, g: Hole, es: seq<Event>) returns (n: nat, added: seq<Event>)
    requires dedup.max == None
    modifies dedup
    ensures (dedup.View(), added) == OfferNew(old(dedup.View()), InRange(g, es)) && n == |InRange(g, es)|
  {
    hide Offer;
    n, added := 0, [];
    for i := 0 to |es|
      invariant (dedup.View(), added) == OfferNew(old(dedup.View()), InRange(g, es[..i])) && n == |InRange(g, es[..i])|
    {
      assert es[..i + 1][..i] == es[..i];
      ghost var before := InRange(g, es[..i]);
      assert InRange(g, es[..i + 1]) == before + if Inside(g, es[i]) then [es[i]] else [];
      assert before + [] == before;
      if Inside(g, es[i]) {
        OfferNewStep(old(dedup.View()), before, es[i]);
        var outcome := dedup.Offer(es[i]);
        if !outcome.Duplicate? {
          added := added + [es[i]];
        }
        n := n + 1;
      }
    }
    assert es[..|es|] == es;
  }
}
