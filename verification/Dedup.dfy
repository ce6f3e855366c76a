/** Deduplication by event identity: one representative per uid, chosen by a total order of precedence. */
module Dedup {
  import opened Base
  import opened Events

  datatype Outcome = New | Duplicate | Replaced

  /** Precedence (closed first, then source, exchange time, earliest arrival) with the digest as last resort. */
  function Key(e: Event): (int, int, int, int, int) {
    if e.payload.Kline? then
      (if e.payload.candle.closed then 1 else 0, -e.src, e.tsEvent, -e.tsIngest, e.canon)
    else (1, 0, e.tsEvent, -e.tsIngest, e.canon)
  }

  predicate Above(a: (int, int, int, int, int), b: (int, int, int, int, int)) {
    if a.0 != b.0 then a.0 > b.0
    else if a.1 != b.1 then a.1 > b.1
    else if a.2 != b.2 then a.2 > b.2
    else if a.3 != b.3 then a.3 > b.3
    else a.4 > b.4
  }

  predicate Outranks(newer: Event, older: Event) {
    Above(Key(newer), Key(older))
  }

  predicate IsClosedCandle(e: Event) {
    e.payload.Kline? && e.payload.candle.closed
  }

  /** The insertion-ordered dictionary uid -> event. `inserted` is its history: every uid that was ever stored as new,
      in order, including those evicted since; no operation reads it. */
  datatype Store = Store(events: map<int, Event>, order: seq<int>, inserted: seq<int>)

  const EMPTY := Store(map[], [], [])

  function Offer(s: Store, max: Option<nat>, e: Event): (Store, Outcome) {
    if e.uid !in s.events then
      var t := Store(s.events[e.uid := e], s.order + [e.uid], s.inserted + [e.uid]);
      if max.Some? && |t.events| > max.value then (t.(events := t.events - {t.order[0]}, order := t.order[1..]), New)
      else (t, New)
    else if Outranks(e, s.events[e.uid]) then (s.(events := s.events[e.uid := e]), Replaced)
    else (s, Duplicate)
  }

  function OfferAll(s: Store, max: Option<nat>, es: seq<Event>): Store {
    if es == [] then s else Offer(OfferAll(s, max, es[..|es| - 1]), max, es[|es| - 1]).0
  }

  // ---------------------------------------------------------------- canonical order of the stored events

  function ValueKey(e: Event): (int, int) {
    (e.tsEvent, e.uid)
  }

  function Insert(e: Event, s: seq<Event>): seq<Event> {
    if s == [] || Before(ValueKey(e), ValueKey(s[0])) then [e] + s else [s[0]] + Insert(e, s[1..])
  }

  /** `values()`: the stored events sorted by (exchange time, uid). */
  function Values(events: map<int, Event>, order: seq<int>): seq<Event>
    requires forall u | u in order :: u in events
  {
    if order == [] then []
    else
      var u := order[0];
      assert u in order;
      Insert(events[u], Values(events, order[1..]))
  }

  ghost predicate WellFormed(s: Store) {
    && (forall u :: u in s.order <==> u in s.events)
    && (forall i, j | 0 <= i < j < |s.order| :: s.order[i] != s.order[j])
    && forall u | u in s.events :: s.events[u].uid == u
  }

  lemma {:induction false} InsertSorted(e: Event, s: seq<Event>)
    requires SortedBy(s, ValueKey) && forall x | x in s :: x.uid != e.uid
    ensures SortedBy(Insert(e, s), ValueKey) && forall x :: x in Insert(e, s) <==> x == e || x in s
  {
    if s == [] {
    } else if Before(ValueKey(e), ValueKey(s[0])) {
      forall j | 0 <= j < |s| ensures Before(ValueKey(e), ValueKey(s[j])) { }
      var r := [e] + s;
      assert forall i, j | 0 <= i < j < |r| :: Before(ValueKey(r[i]), ValueKey(r[j])) by {
        forall i, j | 0 <= i < j < |r| ensures Before(ValueKey(r[i]), ValueKey(r[j])) {
          assert r[j] == s[j - 1];
          if i > 0 { assert r[i] == s[i - 1]; }
        }
      }
    } else {
      TailMembers(s, ValueKey);
      InsertSorted(e, s[1..]);
      var t := Insert(e, s[1..]);
      assert s[0] in s;
      forall j | 0 <= j < |t| ensures Before(ValueKey(s[0]), ValueKey(t[j])) {
        assert t[j] in t;
        if t[j] != e { FirstIsLeast(s, t[j], ValueKey); }
      }
      var r := [s[0]] + t;
      forall i, j | 0 <= i < j < |r| ensures Before(ValueKey(r[i]), ValueKey(r[j])) {
        assert r[j] == t[j - 1];
        if i > 0 { assert r[i] == t[i - 1]; }
      }
    }
  }

  lemma {:induction false} ValuesSorted(events: map<int, Event>, order: seq<int>)
    requires forall u | u in order :: u in events && events[u].uid == u
    requires forall i, j | 0 <= i < j < |order| :: order[i] != order[j]
    ensures SortedBy(Values(events, order), ValueKey)
    ensures forall x :: x in Values(events, order) <==> exists u :: u in order && events[u] == x
  {
    if order != [] {
      var first := order[0];
      assert first in order;
      ValuesSorted(events, order[1..]);
      InsertSorted(events[first], Values(events, order[1..]));
      forall x ensures x in Values(events, order) <==> exists u :: u in order && events[u] == x {
        if x in Values(events, order[1..]) {
          var u :| u in order[1..] && events[u] == x;
          assert u in order;
        }
        if exists u :: u in order && events[u] == x {
          var u :| u in order && events[u] == x;
          assert u == order[0] || u in order[1..];
        }
      }
    }
  }

  // ---------------------------------------------------------------- a maximum per uid

  lemma AppendWellFormed(s: Store, e: Event)
    requires WellFormed(s) && e.uid !in s.events
    ensures WellFormed(Store(s.events[e.uid := e], s.order + [e.uid], s.inserted + [e.uid]))
  {
    var order := s.order + [e.uid];
    forall i, j | 0 <= i < j < |order| ensures order[i] != order[j] {
      assert s.order[i] in s.order;
    }
  }

  lemma EvictWellFormed(s: Store)
    requires WellFormed(s) && s.order != []
    ensures WellFormed(s.(events := s.events - {s.order[0]}, order := s.order[1..]))
  {
    var rest := s.order[1..];
    forall u ensures u in rest <==> u in s.order && u != s.order[0] {
      if u in rest {
        var i :| 0 <= i < |rest| && rest[i] == u;
        assert s.order[i + 1] == u;
      }
      if u in s.order && u != s.order[0] {
        var i :| 0 <= i < |s.order| && s.order[i] == u;
        assert rest[i - 1] == u;
      }
    }
  }

  lemma OfferWellFormed(s: Store, max: Option<nat>, e: Event)
    requires WellFormed(s)
    ensures WellFormed(Offer(s, max, e).0)
    ensures Offer(s, max, e).1.Duplicate? <==> e.uid in s.events && !Outranks(e, s.events[e.uid])
  {
    if e.uid !in s.events {
      AppendWellFormed(s, e);
      EvictWellFormed(Store(s.events[e.uid := e], s.order + [e.uid], s.inserted + [e.uid]));
    }
  }

  /** `s` holds, for every uid offered, an offered event that no offered event of that uid outranks. */
  ghost predicate HoldsBest(s: Store, es: seq<Event>) {
    && WellFormed(s)
    && (forall e | e in es :: e.uid in s.events && !Outranks(e, s.events[e.uid]))
    && forall u | u in s.events :: s.events[u] in es
  }

  lemma {:induction false} StoreIsBest(es: seq<Event>)
    ensures HoldsBest(OfferAll(EMPTY, None, es), es)
  {
    if es != [] {
      var n := |es| - 1;
      StoreIsBest(es[..n]);
      assert es == es[..n] + [es[n]];
      OfferWellFormed(OfferAll(EMPTY, None, es[..n]), None, es[n]);
    }
  }

  /** Equal digests mean equal events (a collision-free digest). */
  ghost predicate Digested(es: seq<Event>) {
    forall a, b | a in es && b in es && a.canon == b.canon :: a == b
  }

  lemma BestIsUnique(s: Store, t: Store, es: seq<Event>, fs: seq<Event>)
    requires HoldsBest(s, es) && HoldsBest(t, fs) && Digested(es) && forall e :: e in es <==> e in fs
    ensures s.events == t.events
  {
    hide Outranks;
    forall u ensures u in s.events <==> u in t.events {
      if u in s.events { assert s.events[u] in fs; }
      if u in t.events { assert t.events[u] in es; }
    }
    forall u | u in s.events ensures s.events[u] == t.events[u] {
      var a, b := s.events[u], t.events[u];
      assert a in fs && b in es;
      SameRank(a, b);
    }
  }

  lemma SameRank(a: Event, b: Event)
    requires !Outranks(a, b) && !Outranks(b, a)
    ensures a.canon == b.canon
  {
  }

  lemma ValuesUnique(s: Store, t: Store)
    requires WellFormed(s) && WellFormed(t) && s.events == t.events
    ensures Values(s.events, s.order) == Values(t.events, t.order)
  {
    ValuesSorted(s.events, s.order);
    ValuesSorted(t.events, t.order);
    SortedUnique(Values(s.events, s.order), Values(t.events, t.order), ValueKey);
  }

  /** The store and the canonical list depend only on the set of events offered: neither the order of arrival nor
      repetition matters. */
  lemma ArrivalOrderIrrelevant(es: seq<Event>, fs: seq<Event>)
    requires Digested(es) && forall e :: e in es <==> e in fs
    ensures var s, t := OfferAll(EMPTY, None, es), OfferAll(EMPTY, None, fs);
            && WellFormed(s) && WellFormed(t)
            && s.events == t.events && Values(s.events, s.order) == Values(t.events, t.order)
  {
    StoreIsBest(es);
    StoreIsBest(fs);
    BestIsUnique(OfferAll(EMPTY, None, es), OfferAll(EMPTY, None, fs), es, fs);
    ValuesUnique(OfferAll(EMPTY, None, es), OfferAll(EMPTY, None, fs));
  }

  /** Offering again anything that was offered before is a duplicate and changes nothing. */
  lemma ReofferIsDuplicate(es: seq<Event>, e: Event)
    requires e in es
    ensures var s := OfferAll(EMPTY, None, es); Offer(s, None, e) == (s, Duplicate)
  {
    StoreIsBest(es);
  }

  /** The first closed version of a candle is never dropped in favour of an open one, and once a closed version is
      stored it stays closed. */
  lemma ClosedWins(s: Store, max: Option<nat>, e: Event)
    requires WellFormed(s)
    ensures IsClosedCandle(e) && (e.uid !in s.events
            || (s.events[e.uid].payload.Kline? && !IsClosedCandle(s.events[e.uid])))
            ==> !Offer(s, max, e).1.Duplicate?
    ensures forall u | u in s.events && u in Offer(s, max, e).0.events && s.events[u].payload.Kline?
                       && e.payload.Kline? && IsClosedCandle(s.events[u]) ::
              IsClosedCandle(Offer(s, max, e).0.events[u])
  {
  }

  /** Both are candles, or neither is. */
  predicate SameKind(x: Event, e: Event) {
    x.payload.Kline? <==> e.payload.Kline?
  }

  /** `x` is the version to keep when `e` is another one. Of two candles: a closed one before an open one; then the
      source, stream before REST before replay. Of any two events: then the later exchange time, then the earlier
      arrival, and of two that agree in all this the one with the greater digest. */
  predicate Preferred(x: Event, e: Event) {
    if x.payload.Kline? && e.payload.Kline?
      && x.payload.candle.closed != e.payload.candle.closed then x.payload.candle.closed
    else if x.payload.Kline? && e.payload.Kline? && x.src != e.src then x.src < e.src
    else if x.tsEvent != e.tsEvent then x.tsEvent > e.tsEvent
    else if x.tsIngest != e.tsIngest then x.tsIngest < e.tsIngest
    else x.canon >= e.canon
  }

  /** A known uid: the stored version stays, as a duplicate, exactly if it is to be preferred; otherwise it is
      replaced. */
  lemma OfferByFields(s: Store, max: Option<nat>, e: Event)
    requires e.uid in s.events && SameKind(s.events[e.uid], e)
    ensures Offer(s, max, e) == if Preferred(s.events[e.uid], e) then (s, Duplicate)
                                else (s.(events := s.events[e.uid := e]), Replaced)
  {
  }

  /** Whatever is offered in whatever order: of all versions of one uid the store holds the one to be preferred to every
      other. */
  lemma StoredIsPreferred(es: seq<Event>, e: Event)
    requires e in es && forall x | x in es && x.uid == e.uid :: SameKind(x, e)
    ensures var s := OfferAll(EMPTY, None, es);
            e.uid in s.events && s.events[e.uid] in es && s.events[e.uid].uid == e.uid && Preferred(s.events[e.uid], e)
  {
    StoreIsBest(es);
    hide OfferAll;
  }

  /** A backfill that overlaps the stream changes nothing: the REST copy of a closed candle from the stream is a
      duplicate. */
  lemma RestCopyIsDuplicate(s: Store, max: Option<nat>, e: Event)
    requires IsClosedCandle(e) && e.uid in s.events && IsClosedCandle(s.events[e.uid]) && s.events[e.uid].src < e.src
    ensures Offer(s, max, e) == (s, Duplicate)
  {
    OfferByFields(s, max, e);
  }

  /** The stored events come out by exchange time, and by uid where that is equal, each once. */
  lemma ValuesInTimeOrder(s: Store)
    requires WellFormed(s)
    ensures var v := Values(s.events, s.order);
            && (forall i, j | 0 <= i < j < |v| ::
                  v[i].tsEvent < v[j].tsEvent || (v[i].tsEvent == v[j].tsEvent && v[i].uid < v[j].uid))
            && forall e :: e in v <==> e.uid in s.events && s.events[e.uid] == e
  {
    ValuesSorted(s.events, s.order);
    var v := Values(s.events, s.order);
    hide Values;
    forall e ensures e in v <==> e.uid in s.events && s.events[e.uid] == e {
      assert e.uid in s.order <==> e.uid in s.events;
    }
    forall i, j | 0 <= i < j < |v|
      ensures v[i].tsEvent < v[j].tsEvent || (v[i].tsEvent == v[j].tsEvent && v[i].uid < v[j].uid)
    {
      assert Before(ValueKey(v[i]), ValueKey(v[j]));
    }
  }

  // ---------------------------------------------------------------- with a size limit

  /** The last `max` uids that were stored as new. */
  function Recent(inserted: seq<int>, max: Option<nat>): seq<int> {
    if max.None? || |inserted| <= max.value then inserted else inserted[|inserted| - max.value..]
  }

  /** A uid is stored as new again only after more than `max` steps: at least `max` other uids came in between. */
  ghost predicate Spaced(inserted: seq<int>, max: Option<nat>) {
    forall a, b | 0 <= a < b < |inserted| && inserted[a] == inserted[b] :: max.Some? && b - a > max.value
  }

  /** The store forgot `u`: after it was stored, at least `max` other uids were, and then it was stored again. */
  ghost predicate Forgot(s: Store, max: Option<nat>, u: int) {
    max.Some? && exists a, b :: 0 <= a < b < |s.inserted| && s.inserted[a] == s.inserted[b] == u && b - a > max.value
  }

  /** The store is the window of the most recent uids. */
  ghost predicate Windowed(s: Store, max: Option<nat>) {
    WellFormed(s) && s.order == Recent(s.inserted, max) && Spaced(s.inserted, max)
  }

  lemma StoreSize(s: Store)
    requires WellFormed(s)
    ensures |s.events| == |s.order|
  {
    SizeOfDistinct(s.order);
    assert s.events.Keys == set u | u in s.order;
  }

  lemma NotRecent(inserted: seq<int>, max: Option<nat>, u: int)
    requires Spaced(inserted, max) && u !in Recent(inserted, max)
    ensures Spaced(inserted + [u], max)
  {
    RecentHas(inserted, max);
  }

  lemma RecentHas(inserted: seq<int>, max: Option<nat>)
    ensures forall a | 0 <= a < |inserted| && (max.None? || |inserted| - a <= max.value) ::
            inserted[a] in Recent(inserted, max)
  {
    var r := Recent(inserted, max);
    forall a | 0 <= a < |inserted| && (max.None? || |inserted| - a <= max.value) ensures inserted[a] in r {
      assert r[a - (|inserted| - |r|)] == inserted[a];
    }
  }

  /** Offering keeps the window: a uid is new exactly if it is not among the last `max` new ones. */
  lemma OfferKeepsWindow(s: Store, max: Option<nat>, e: Event)
    requires Windowed(s, max)
    ensures var (t, outcome) := Offer(s, max, e);
            && Windowed(t, max) && (outcome.New? <==> e.uid !in Recent(s.inserted, max))
            && t.inserted == if outcome.New? then s.inserted + [e.uid] else s.inserted
  {
    OfferWellFormed(s, max, e);
    if e.uid !in s.events {
      NotRecent(s.inserted, max, e.uid);
      var t := Store(s.events[e.uid := e], s.order + [e.uid], s.inserted + [e.uid]);
      AppendWellFormed(s, e);
      StoreSize(t);
      hide WellFormed, Spaced;
      assert |t.order| == |s.order| + 1;
    }
  }
}
