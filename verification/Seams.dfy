/** Paging against an exchange that may answer anything: what each seam says, and which version of a bar is kept. */
module Seams {
  import opened Base
  import opened Backfill

  /** The k-th page of a scan. */
  function Page(server: (nat, int) -> seq<Row>, s: Scan, k: nat): seq<Row>
    requires k < |s.segments|
  {
    server(k, s.segments[k].start)
  }

  /** All rows of the first `n` pages, in the order of arrival. */
  function Rows(server: (nat, int) -> seq<Row>, s: Scan, n: nat): seq<Row>
    requires n <= |s.segments|
  {
    if n == 0 then [] else Rows(server, s, n - 1) + Page(server, s, n - 1)
  }

  /** The version of the bar at `o` that came last, among closed bars from the first expected one on. */
  function LastVersion(q: Query, rows: seq<Row>, o: int): Option<Row>
    requires q.iv > 0
  {
    if rows == [] then None
    else
      var r := rows[|rows| - 1];
      if r.open == o && Closed(q, r) && FirstExpected(q) <= o then Some(r) else LastVersion(q, rows[..|rows| - 1], o)
  }

  /** What the seam between two pages says: the last bar of the one comes again as the first of the other, or comes
      changed, or does not come. */
  predicate SeamSays(seam: Option<Seam>, before: seq<Row>, page: seq<Row>)
    requires before != []
  {
    var last := before[|before| - 1];
    if page == [] || page[0].open != last.open then seam == Some(SeamMissing)
    else seam == if page[0] == last then Some(SeamOk) else Some(SeamMismatch)
  }

  /** The mismatches among the first `n` seams. */
  function Mismatches(server: (nat, int) -> seq<Row>, s: Scan, n: nat): seq<Mismatch>
    requires n <= |s.segments|
  {
    if n < 2 then []
    else
      var (before, page) := (Page(server, s, n - 2), Page(server, s, n - 1));
      Mismatches(server, s, n - 1)
      + if before != [] && page != [] && page[0].open == before[|before| - 1].open && page[0] != before[|before| - 1]
        then [Mismatch(page[0].open, n - 1, before[|before| - 1], page[0])] else []
  }

  /** Segment `k` describes its page, starts where the one before ended, and its seam is true. */
  ghost predicate SegmentTrue(server: (nat, int) -> seq<Row>, q: Query, s: Scan, k: nat)
    requires k < |s.segments|
  {
    var (g, page) := (s.segments[k], Page(server, s, k));
    && g.rows == |page|
    && g.first == (if page == [] then None else Some(page[0].open))
    && g.last == (if page == [] then None else Some(page[|page| - 1].open))
    && if k == 0 then g.start == q.start && g.seam.None?
       else
         var before := Page(server, s, k - 1);
         before != [] && g.start == before[|before| - 1].open && SeamSays(g.seam, before, page)
  }

  ghost predicate ScanTrue(server: (nat, int) -> seq<Row>, q: Query, s: Scan)
    requires q.iv > 0
  {
    && (forall k | 0 <= k < |s.segments| :: SegmentTrue(server, q, s, k))
    && s.mismatches == Mismatches(server, s, |s.segments|)
    && forall o :: (o in s.byOpen <==> LastVersion(q, Rows(server, s, |s.segments|), o).Some?)
                   && (o in s.byOpen ==> s.byOpen[o] == LastVersion(q, Rows(server, s, |s.segments|), o).value)
  }

  lemma {:induction false} VersionAfter(q: Query, a: seq<Row>, b: seq<Row>, o: int)
    requires q.iv > 0
    ensures LastVersion(q, a + b, o) == if LastVersion(q, b, o).Some? then LastVersion(q, b, o)
            else LastVersion(q, a, o)
    decreases |b|
  {
    if b == [] {
      assert a + b == a;
    } else {
      assert (a + b)[..|a + b| - 1] == a + b[..|b| - 1];
      VersionAfter(q, a, b[..|b| - 1], o);
    }
  }

  lemma {:induction false} KeepIsLast(q: Query, m: map<int, Row>, rows: seq<Row>, o: int)
    requires q.iv > 0
    ensures var (k, v) := (Keep(q, m, rows), LastVersion(q, rows, o));
            (o in k <==> o in m || v.Some?) && (o in k ==> k[o] == if v.Some? then v.value else m[o])
  {
    if rows != [] {
      KeepIsLast(q, m, rows[..|rows| - 1], o);
    }
  }

  /** A bar that comes again unchanged, right after itself, changes no version. */
  lemma SameAgain(q: Query, a: seq<Row>, page: seq<Row>, o: int)
    requires q.iv > 0 && a != [] && page != [] && page[0] == a[|a| - 1]
    ensures LastVersion(q, a + page, o) == LastVersion(q, a + page[1..], o)
  {
    var r := page[0];
    assert page == [r] + page[1..];
    VersionAfter(q, a, page, o);
    VersionAfter(q, a, page[1..], o);
    VersionAfter(q, [r], page[1..], o);
    assert [r][..0] == [];
  }

  // ---------------------------------------------------------------- page by page

  /** The next request follows on the scan so far. */
  ghost predicate Follows(server: (nat, int) -> seq<Row>, q: Query, s: Scan, cursor: int, prev: Option<Row>) {
    var n := |s.segments|;
    if n == 0 then prev.None? && cursor == q.start && s.byOpen == map[]
    else
      var before := Page(server, s, n - 1);
      before != [] && prev == Some(before[|before| - 1]) && cursor == prev.value.open
  }

  /** A further page leaves the earlier ones as they were. */
  lemma {:induction false} RowsFrame(server: (nat, int) -> seq<Row>, s: Scan, t: Scan, n: nat)
    requires n <= |s.segments| && s.segments <= t.segments
    ensures Rows(server, t, n) == Rows(server, s, n) && Mismatches(server, t, n) == Mismatches(server, s, n)
  {
    if n > 0 {
      RowsFrame(server, s, t, n - 1);
    }
  }

  lemma LastOfRows(server: (nat, int) -> seq<Row>, s: Scan)
    requires |s.segments| > 0 && Page(server, s, |s.segments| - 1) != []
    ensures var (a, before) := (Rows(server, s, |s.segments|), Page(server, s, |s.segments| - 1));
            a != [] && a[|a| - 1] == before[|before| - 1]
  {
  }

  lemma AbsorbSegments(server: (nat, int) -> seq<Row>, q: Query, s: Scan, cursor: int, prev: Option<Row>)
    requires q.iv > 0 && ScanTrue(server, q, s) && Follows(server, q, s, cursor, prev)
    ensures var t := Absorb(q, s, cursor, prev, server(|s.segments|, cursor));
            && (forall k | 0 <= k < |t.segments| :: SegmentTrue(server, q, t, k))
            && t.mismatches == Mismatches(server, t, |t.segments|)
  {
    var n := |s.segments|;
    var t := Absorb(q, s, cursor, prev, server(n, cursor));
    assert s.segments <= t.segments && t.segments[n].start == cursor;
    RowsFrame(server, s, t, n);
    forall k | 0 <= k < |t.segments| ensures SegmentTrue(server, q, t, k) {
      if k < n {
        assert SegmentTrue(server, q, s, k);
      }
    }
    assert s.mismatches + [] == s.mismatches;
  }

  lemma AbsorbVersions(server: (nat, int) -> seq<Row>, q: Query, s: Scan, cursor: int, prev: Option<Row>, o: int)
    requires q.iv > 0 && ScanTrue(server, q, s) && Follows(server, q, s, cursor, prev)
    ensures var t := Absorb(q, s, cursor, prev, server(|s.segments|, cursor));
            var v := LastVersion(q, Rows(server, t, |t.segments|), o);
            (o in t.byOpen <==> v.Some?) && (o in t.byOpen ==> t.byOpen[o] == v.value)
  {
    var n := |s.segments|;
    var page := server(n, cursor);
    var t := Absorb(q, s, cursor, prev, page);
    assert s.segments <= t.segments && t.segments[n].start == cursor;
    RowsFrame(server, s, t, n);
    var a := Rows(server, s, n);
    assert Rows(server, t, n + 1) == a + page;
    var rows := NewRows(prev, page);
    KeepIsLast(q, s.byOpen, rows, o);
    VersionAfter(q, a, rows, o);
    if n > 0 && rows != page {
      LastOfRows(server, s);
      SameAgain(q, a, page, o);
    }
  }

  /** After this page there is another one: it was full, ended before the last expected bar, and ended later than the
      page before. */
  ghost predicate GoesOn(server: (nat, int) -> seq<Row>, q: Query, s: Scan, k: nat)
    requires q.iv > 0 && k < |s.segments|
  {
    var page := Page(server, s, k);
    && page != [] && |page| >= q.limit && page[|page| - 1].open < LastExpected(q)
    && (k > 0 ==> var before := Page(server, s, k - 1);
         before != [] && page[|page| - 1].open > before[|before| - 1].open)
  }

  lemma GoesOnFrame(server: (nat, int) -> seq<Row>, q: Query, s: Scan, t: Scan, cursor: int, prev: Option<Row>)
    requires q.iv > 0 && Follows(server, q, s, cursor, prev)
    requires t == Absorb(q, s, cursor, prev, server(|s.segments|, cursor))
    requires forall k | 0 <= k < |s.segments| :: GoesOn(server, q, s, k)
    ensures |t.segments| == |s.segments| + 1
    ensures forall k | 0 <= k < |s.segments| :: GoesOn(server, q, t, k)
    ensures GoesOn(server, q, t, |s.segments|) <==> Continue(q, prev, server(|s.segments|, cursor))
    ensures Continue(q, prev, server(|s.segments|, cursor)) ==>
              var page := server(|s.segments|, cursor);
              Follows(server, q, t, page[|page| - 1].open, Some(page[|page| - 1]))
  {
    hide LastExpected;
    var n := |s.segments|;
    forall k | 0 <= k < n ensures GoesOn(server, q, t, k) {
      assert GoesOn(server, q, s, k);
    }
  }

  ghost predicate AllGoOn(server: (nat, int) -> seq<Row>, q: Query, s: Scan)
    requires q.iv > 0
  {
    forall k | 0 <= k < |s.segments| :: GoesOn(server, q, s, k)
  }

  /** There is a further page after every one but the last. */
  ghost predicate StopsAtLast(server: (nat, int) -> seq<Row>, q: Query, s: Scan)
    requires q.iv > 0
  {
    |s.segments| > 0 && forall k | 0 <= k < |s.segments| :: GoesOn(server, q, s, k) <==> k < |s.segments| - 1
  }

  lemma AbsorbTrue(server: (nat, int) -> seq<Row>, q: Query, s: Scan, cursor: int, prev: Option<Row>)
    requires q.iv > 0 && ScanTrue(server, q, s) && Follows(server, q, s, cursor, prev)
    ensures ScanTrue(server, q, Absorb(q, s, cursor, prev, server(|s.segments|, cursor)))
  {
    var t := Absorb(q, s, cursor, prev, server(|s.segments|, cursor));
    AbsorbSegments(server, q, s, cursor, prev);
    forall o
      ensures (o in t.byOpen <==> LastVersion(q, Rows(server, t, |t.segments|), o).Some?)
              && (o in t.byOpen ==> t.byOpen[o] == LastVersion(q, Rows(server, t, |t.segments|), o).value)
    {
      AbsorbVersions(server, q, s, cursor, prev, o);
    }
    hide Absorb, Follows, SegmentTrue, LastVersion, Rows, Mismatches;
  }

  lemma AbsorbGoesOn(server: (nat, int) -> seq<Row>, q: Query, s: Scan, cursor: int, prev: Option<Row>)
    requires q.iv > 0 && Follows(server, q, s, cursor, prev) && AllGoOn(server, q, s)
    ensures var page := server(|s.segments|, cursor);
            var t := Absorb(q, s, cursor, prev, page);
            if Continue(q, prev, page) then
              AllGoOn(server, q, t) && Follows(server, q, t, page[|page| - 1].open, Some(page[|page| - 1]))
            else StopsAtLast(server, q, t)
  {
    GoesOnFrame(server, q, s, Absorb(q, s, cursor, prev, server(|s.segments|, cursor)), cursor, prev);
    hide GoesOn, Absorb, Follows;
  }

  lemma {:induction false} CollectTrue(server: (nat, int) -> seq<Row>, q: Query, s: Scan, cursor: int,
      prev: Option<Row>)
    requires q.iv > 0 && (prev.Some? ==> cursor == prev.value.open)
    requires ScanTrue(server, q, s) && Follows(server, q, s, cursor, prev) && AllGoOn(server, q, s)
    ensures var e := Collect(server, q, s, cursor, prev); ScanTrue(server, q, e) && StopsAtLast(server, q, e)
    decreases if prev.None? then 1 else 0, if LastExpected(q) > cursor then LastExpected(q) - cursor else 0
  {
    var page := server(|s.segments|, cursor);
    AbsorbTrue(server, q, s, cursor, prev);
    AbsorbGoesOn(server, q, s, cursor, prev);
    hide ScanTrue, AllGoOn, StopsAtLast, LastExpected, Absorb, Follows;
    if Continue(q, prev, page) {
      CollectTrue(server, q, Absorb(q, s, cursor, prev, page), page[|page| - 1].open, Some(page[|page| - 1]));
    }
  }

  /** Whatever the exchange answers, also if its answers change from request to request: every page begins with the
      request for the last bar of the one before, and its seam says truly whether that bar came again, changed, or not
      at all; the mismatches are exactly the changed ones, with both versions; of every bar the version that came last
      is kept; and there is a further page exactly after a full one that made progress and did not reach the end. */
  lemma AnyServer(server: (nat, int) -> seq<Row>, q: Query)
    requires q.iv > 0
    ensures var s := Fetch(server, q);
            ScanTrue(server, q, s) && StopsAtLast(server, q, s)
  {
    hide LastExpected;
    CollectTrue(server, q, Scan(map[], [], []), q.start, None);
  }
}
