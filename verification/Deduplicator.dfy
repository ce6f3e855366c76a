/** The mutable deduplicator. */
module Deduplicator {
  import opened Base
  import opened Events
  import opened Dedup

  class Deduper {
    const max: Option<nat>
    var events: map<int, Event>
    var order: seq<int>
    ghost var inserted: seq<int>

    ghost function View(): Store
      reads this
    {
      Store(events, order, inserted)
    }

    constructor (max: Option<nat>)
      ensures this.max == max && View() == EMPTY
    {
      this.max := max;
      events, order := map[], [];
      inserted := [];
    }

    method Offer(e: Event) returns (outcome: Outcome)
      modifies this
      ensures (View(), outcome) == Dedup.Offer(old(View()), max, e)
    {
      if e.uid !in events {
        events := events[e.uid := e];
        order := order + [e.uid];
        inserted := inserted + [e.uid];
        if max.Some? && |events| > max.value {
          events := events - {order[0]};
          order := order[1..];
        }
        outcome := New;
      } else if Outranks(e, events[e.uid]) {
        events := events[e.uid := e];
        outcome := Replaced;
      } else {
        outcome := Duplicate;
      }
    }
  }

  /** Batch deduplication: one representative per uid in canonical order. */
  method DedupAll(es: seq<Event>) returns (out: seq<Event>)
    ensures var s := OfferAll(EMPTY, None, es); WellFormed(s) && out == Values(s.events, s.order)
  {
    var d := new Deduper(None);
    for i := 0 to |es|
      invariant fresh(d) && d.max.None?
      invariant d.View() == OfferAll(EMPTY, None, es[..i])
    {
      assert es[..i + 1][..i] == es[..i] && es[..i + 1][i] == es[i];
      var _ := d.Offer(es[i]);
    }
    assert es[..|es|] == es;
    StoreIsBest(es);
    out := Values(d.events, d.order);
  }
}
