/** Kline history page by page with an overlap of one bar, and gap detection by continuity of open times. */
module Backfill {
  import opened Base

  // ---------------------------------------------------------------- data

  const MAX_LIMIT := 1500

  /** A kline row: its open time (milliseconds) and everything else. */
  datatype Row = Row(open: int, body: int)

  datatype Seam = SeamOk | SeamMismatch | SeamMissing
  datatype Segment = Segment(start: int, rows: nat, first: Option<int>, last: Option<int>, seam: Option<Seam>)
  datatype Mismatch = Mismatch(open: int, segment: nat, previous: Row, current: Row)
  datatype Gap = Gap(lo: int, hi: int, count: int)

  /** The request: bars with open time in [start, end], at most `limit` per page; `now` is the exchange time. */
  datatype Query = Query(start: int, end: int, limit: int, now: int, iv: int)

  ghost predicate ValidQuery(q: Query) {
    q.start <= q.end && 2 <= q.limit <= MAX_LIMIT && q.iv > 0
  }

  datatype Scan = Scan(byOpen: map<int, Row>, segments: seq<Segment>, mismatches: seq<Mismatch>)

  function FloorTo(x: int, step: int): int
    requires step > 0
  {
    x / step * step
  }

  function CeilTo(x: int, step: int): int
    requires step > 0
  {
    -(-x / step) * step
  }

  function FirstExpected(q: Query): int
    requires q.iv > 0
  {
    CeilTo(q.start, q.iv)
  }

  /** Open time of the last bar that is both in range and closed. */
  function LastExpected(q: Query): int
    requires q.iv > 0
  {
    var a, b := FloorTo(q.end, q.iv), FloorTo(q.now, q.iv) - q.iv;
    if a <= b then a else b
  }

  predicate Closed(q: Query, r: Row) {
    r.open + q.iv - 1 < q.now
  }

  // ---------------------------------------------------------------- paging

  /** Closed bars from the first expected one on are kept; a later version replaces an earlier one. */
  function Keep(q: Query, m: map<int, Row>, rows: seq<Row>): map<int, Row>
    requires q.iv > 0
  {
    if rows == [] then m
    else
      var n := |rows| - 1;
      var k := Keep(q, m, rows[..n]);
      if Closed(q, rows[n]) && FirstExpected(q) <= rows[n].open then k[rows[n].open := rows[n]] else k
  }

  function SeamOf(prev: Option<Row>, page: seq<Row>): Option<Seam> {
    if prev.None? then None
    else if page != [] && page[0].open == prev.value.open
    then Some(if page[0] == prev.value then SeamOk else SeamMismatch)
    else Some(SeamMissing)
  }

  function NewRows(prev: Option<Row>, page: seq<Row>): seq<Row> {
    if SeamOf(prev, page) == Some(SeamOk) then page[1..] else page
  }

  function Absorb(q: Query, s: Scan, cursor: int, prev: Option<Row>, page: seq<Row>): Scan
    requires q.iv > 0
  {
    Scan(Keep(q, s.byOpen, NewRows(prev, page)),
         s.segments + [Segment(cursor, |page|, if page == [] then None else Some(page[0].open),
                               if page == [] then None else Some(page[|page| - 1].open), SeamOf(prev, page))],
         if SeamOf(prev, page) == Some(SeamMismatch)
         then s.mismatches + [Mismatch(page[0].open, |s.segments|, prev.value, page[0])] else s.mismatches)
  }

  /** The page was full, did not reach the last expected bar, and went beyond the previous page. */
  predicate Continue(q: Query, prev: Option<Row>, page: seq<Row>)
    requires q.iv > 0
  {
    && page != [] && |page| >= q.limit && page[|page| - 1].open < LastExpected(q)
    && (prev.None? || page[|page| - 1].open > prev.value.open)
  }

  /** `server(k, cursor)` is whatever the exchange answers to the k-th request. The scan ends for every server: each
      further page starts strictly later and before the last expected bar. */
  function Collect(server: (nat, int) -> seq<Row>, q: Query, s: Scan, cursor: int, prev: Option<Row>): Scan
    requires q.iv > 0 && (prev.Some? ==> cursor == prev.value.open)
    decreases if prev.None? then 1 else 0, if LastExpected(q) > cursor then LastExpected(q) - cursor else 0
  {
    var page := server(|s.segments|, cursor);
    var s1 := Absorb(q, s, cursor, prev, page);
    if !Continue(q, prev, page) then s1
    else Collect(server, q, s1, page[|page| - 1].open, Some(page[|page| - 1]))
  }

  function Fetch(server: (nat, int) -> seq<Row>, q: Query): Scan
    requires q.iv > 0
  {
    Collect(server, q, Scan(map[], [], []), q.start, None)
  }

  /** One row at a time, as the loop does it. */
  method KeepRows(q: Query, m: map<int, Row>, rows: seq<Row>) returns (r: map<int, Row>)
    requires q.iv > 0
    ensures r == Keep(q, m, rows)
  {
    r := m;
    for i := 0 to |rows|
      invariant r == Keep(q, m, rows[..i])
    {
      assert rows[..i + 1][..i] == rows[..i];
      if Closed(q, rows[i]) && FirstExpected(q) <= rows[i].open {
        r := r[rows[i].open := rows[i]];
      }
    }
    assert rows[..|rows|] == rows;
  }

  method Scanned(server: (nat, int) -> seq<Row>, q: Query) returns (s: Scan, requests: nat)
    requires ValidQuery(q)
    ensures s == Fetch(server, q) && requests == |s.segments|
  {
    hide Keep, LastExpected, FirstExpected;
    s := Scan(map[], [], []);
    var cursor, prev: Option<Row> := q.start, None;
    requests := 0;
    var more := true;
    while more
      invariant prev.Some? ==> cursor == prev.value.open
      invariant requests == |s.segments|
      invariant more ==> Collect(server, q, s, cursor, prev) == Fetch(server, q)
      invariant !more ==> s == Fetch(server, q)
      decreases more, if prev.None? then 1 else 0, if LastExpected(q) > cursor then LastExpected(q) - cursor else 0
    {
      var page := server(requests, cursor);
      requests := requests + 1;
      var seam, rows := None, page;
      var mismatches := s.mismatches;
      if prev.Some? {
        if page != [] && page[0].open == prev.value.open {
          seam := Some(if page[0] == prev.value then SeamOk else SeamMismatch);
          if seam == Some(SeamMismatch) {
            mismatches := mismatches + [Mismatch(page[0].open, |s.segments|, prev.value, page[0])];
          }
          rows := if seam == Some(SeamMismatch) then page else page[1..];
        } else {
          seam := Some(SeamMissing);
        }
      }
      var kept := KeepRows(q, s.byOpen, rows);
      ghost var was := s;
      s := Scan(kept, s.segments + [Segment(cursor, |page|, if page == [] then None else Some(page[0].open),
                                            if page == [] then None else Some(page[|page| - 1].open), seam)],
                                              mismatches);
      assert s == Absorb(q, was, cursor, prev, page);
      if !Continue(q, prev, page) {
        more := false;
      } else {
        prev := Some(page[|page| - 1]);
        cursor := page[|page| - 1].open;
      }
    }
  }

  // ---------------------------------------------------------------- gaps

  /** Gaps before `prev + iv`, walking over sorted opens. None: an open is off the grid (the source raises). */
  function GapsFrom(opens: seq<int>, prev: int, iv: int, last: int): Option<seq<Gap>>
    requires iv > 0
    decreases |opens|
  {
    if opens == [] then Some(if last > prev then [Gap(prev + iv, last, (last - prev - iv) / iv + 1)] else [])
    else
      var o := opens[0];
      if (o - prev) % iv != 0 then None
      else
        var rest := GapsFrom(opens[1..], o, iv, last);
        if rest.None? then None
        else Some((if o - prev > iv then [Gap(prev + iv, o - iv, (o - iv - prev - iv) / iv + 1)] else []) + rest.value)
  }

  /** Gaps by continuity of the open times; the bounds, where given, add gaps at the edges. */
  function Detect(opens: set<int>, iv: int, first: Option<int>, last: Option<int>): Option<seq<Gap>>
    requires iv > 0
  {
    var s := SortedKeys(opens);
    if first.None? && s == [] then Some([])
    else
      var prev, rest := if first.Some? then first.value - iv else s[0], if first.Some? then s else s[1..];
      GapsFrom(rest, prev, iv, if last.Some? then last.value else if rest == [] then prev else rest[|rest| - 1])
  }

  /** What a scan reports as missing. */
  function Reported(s: Scan, q: Query): Option<seq<Gap>>
    requires q.iv > 0
  {
    if FirstExpected(q) <= LastExpected(q)
      then Detect(s.byOpen.Keys, q.iv, Some(FirstExpected(q)), Some(LastExpected(q))) else Some([])
  }

  method DetectGaps(opens: seq<int>, iv: int, first: Option<int>, last: Option<int>) returns (r: Option<seq<Gap>>)
    requires iv > 0
    ensures r == Detect((set o | o in opens), iv, first, last)
  {
    var sorted := SortedKeys((set o | o in opens));
    if first.None? && sorted == [] {
      return Some([]);
    }
    var prev := if first.Some? then first.value - iv else sorted[0];
    var rest := if first.Some? then sorted else sorted[1..];
    r := GapsBetween(rest, prev, iv, if last.Some? then last.value else if rest == [] then prev else rest[|rest| - 1]);
  }

  method GapsBetween(opens: seq<int>, start: int, iv: int, last: int) returns (r: Option<seq<Gap>>)
    requires iv > 0
    ensures r == GapsFrom(opens, start, iv, last)
  {
    var gaps: seq<Gap>, prev := [], start;
    assert opens[0..] == opens;
    assert var whole := GapsFrom(opens, start, iv, last); whole.Some? ==> [] + whole.value == whole.value;
    for i := 0 to |opens|
      invariant GapsFrom(opens, start, iv, last)
             == (var rest := GapsFrom(opens[i..], prev, iv, last); if rest.None? then None else Some(gaps + rest.value))
    {
      var o := opens[i];
      assert opens[i..][0] == o && opens[i..][1..] == opens[i + 1..];
      if (o - prev) % iv != 0 {
        return None;
      }
      ghost var rest := GapsFrom(opens[i + 1..], o, iv, last);
      if o - prev > iv {
        ghost var g := Gap(prev + iv, o - iv, (o - iv - prev - iv) / iv + 1);
        assert rest.Some? ==> gaps + ([g] + rest.value) == (gaps + [g]) + rest.value;
        gaps := gaps + [Gap(prev + iv, o - iv, (o - iv - prev - iv) / iv + 1)];
      } else {
        assert rest.Some? ==> gaps + ([] + rest.value) == gaps + rest.value;
      }
      prev := o;
    }
    assert opens[|opens|..] == [];
    assert gaps + [] == gaps;
    if last > prev {
      gaps := gaps + [Gap(prev + iv, last, (last - prev - iv) / iv + 1)];
    }
    r := Some(gaps);
  }

  /** The whole call: the closed bars, the pages and their seams, and the gaps between the expected bounds. */
  method BackfillKlines(server: (nat, int) -> seq<Row>, q: Query)
      returns (s: Scan, gaps: Option<seq<Gap>>, requests: nat)
    requires ValidQuery(q)
    ensures s == Fetch(server, q) && gaps == Reported(s, q) && requests == |s.segments|
  {
    s, requests := Scanned(server, q);
    gaps := Some([]);
    if FirstExpected(q) <= LastExpected(q) {
      var opens := SortedKeys(s.byOpen.Keys);
      assert (set o | o in opens) == s.byOpen.Keys;
      gaps := DetectGaps(opens, q.iv, Some(FirstExpected(q)), Some(LastExpected(q)));
    }
  }
}
