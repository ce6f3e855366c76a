/** Paging against an exchange that serves a fixed table, and the partition of the expected grid into bars and gaps. */
module BackfillProofs {
  import opened Base
  import opened Backfill

  // ---------------------------------------------------------------- the grid

  ghost predicate Aligned(m: int, iv: int)
    requires iv > 0
  {
    m % iv == 0
  }

  lemma FloorIs(x: int, iv: int)
    requires iv > 0
    ensures Aligned(FloorTo(x, iv), iv) && FloorTo(x, iv) <= x < FloorTo(x, iv) + iv
  {
    Multiple(x / iv, iv);
  }

  lemma CeilIs(x: int, iv: int)
    requires iv > 0
    ensures Aligned(CeilTo(x, iv), iv) && CeilTo(x, iv) - iv < x <= CeilTo(x, iv)
  {
    FloorIs(-x, iv);
    Multiple(-(-x / iv), iv);
  }

  /** Two grid points in order are a whole number of steps apart. */
  lemma Apart(a: int, b: int, iv: int)
    requires iv > 0 && Aligned(a, iv) && Aligned(b, iv) && a < b
    ensures a + iv <= b
  {
    if b < a + iv {
      GridGap(0, iv, a, b);
      assert false;
    }
  }

  lemma NextAligned(a: int, iv: int)
    requires iv > 0 && Aligned(a, iv)
    ensures Aligned(a + iv, iv) && Aligned(a - iv, iv)
  {
    GridStep(0, iv, a);
    var k := a / iv;
    assert a - iv == (k - 1) * iv;
    Multiple(k - 1, iv);
  }

  /** A bar of the grid is closed and in range exactly when it is not beyond the last expected one. */
  lemma ClosedMeans(q: Query, r: Row)
    requires q.iv > 0 && Aligned(r.open, q.iv)
    ensures Closed(q, r) && r.open <= q.end <==> r.open <= LastExpected(q)
  {
    var e, n := FloorTo(q.end, q.iv), FloorTo(q.now, q.iv);
    FloorIs(q.end, q.iv);
    FloorIs(q.now, q.iv);
    if e < r.open { Apart(e, r.open, q.iv); }
    if r.open < n { Apart(r.open, n, q.iv); }
  }

  lemma StartMeans(q: Query, m: int)
    requires q.iv > 0 && Aligned(m, q.iv)
    ensures q.start <= m <==> FirstExpected(q) <= m
  {
    CeilIs(q.start, q.iv);
    if m < FirstExpected(q) { Apart(m, FirstExpected(q), q.iv); }
  }

  // ---------------------------------------------------------------- a fixed table

  ghost predicate Sorted(rows: seq<Row>) {
    forall i, j | 0 <= i < j < |rows| :: rows[i].open < rows[j].open
  }

  /** The rows with open time in [lo, hi], in their order. */
  function Within(rows: seq<Row>, lo: int, hi: int): seq<Row> {
    if rows == [] then []
    else Within(rows[..|rows| - 1], lo, hi) + if lo <= rows[|rows| - 1].open <= hi then [rows[|rows| - 1]] else []
  }

  lemma {:induction false} WithinIs(rows: seq<Row>, lo: int, hi: int)
    ensures forall x :: x in Within(rows, lo, hi) <==> x in rows && lo <= x.open <= hi
  {
    if rows != [] {
      var n := |rows| - 1;
      WithinIs(rows[..n], lo, hi);
      assert rows == rows[..n] + [rows[n]];
    }
  }

  function Take(rows: seq<Row>, n: int): seq<Row> {
    if n < 0 then [] else if |rows| <= n then rows else rows[..n]
  }

  /** The exchange answers every request with the first `limit` rows of its table from the cursor to the end. */
  ghost predicate Serves(server: (nat, int) -> seq<Row>, table: seq<Row>, q: Query) {
    forall k, cursor :: server(k, cursor) == Take(Within(table, cursor, q.end), q.limit)
  }

  lemma {:induction false} WithinSorted(rows: seq<Row>, lo: int, hi: int)
    requires Sorted(rows)
    ensures Sorted(Within(rows, lo, hi))
  {
    if rows != [] {
      var n := |rows| - 1;
      WithinSorted(rows[..n], lo, hi);
      WithinIs(rows[..n], lo, hi);
      var w := Within(rows[..n], lo, hi);
      forall i | 0 <= i < |w| ensures w[i].open < rows[n].open {
        assert w[i] in w;
        var k :| 0 <= k < n && rows[..n][k] == w[i];
        assert rows[k] == w[i];
      }
    }
  }

  lemma RowsFrom(base: seq<Row>, k: nat)
    requires Sorted(base) && k < |base|
    ensures Sorted(base[k..]) && forall x :: x in base[k..] <==> x in base && base[k].open <= x.open
  {
    forall x | x in base && base[k].open <= x.open ensures x in base[k..] {
      var i :| 0 <= i < |base| && base[i] == x;
      assert i >= k;
      assert base[k..][i - k] == x;
    }
  }

  /** From one of its own rows on, a range continues as before. */
  lemma WithinTail(rows: seq<Row>, lo: int, hi: int, k: nat)
    requires Sorted(rows) && k < |Within(rows, lo, hi)|
    ensures Within(rows, Within(rows, lo, hi)[k].open, hi) == Within(rows, lo, hi)[k..]
  {
    hide Within, Sorted;
    WithinSorted(rows, lo, hi);
    var base := Within(rows, lo, hi);
    assert base[k] in base;
    WithinIs(rows, lo, hi);
    WithinIs(rows, base[k].open, hi);
    WithinSorted(rows, base[k].open, hi);
    RowsFrom(base, k);
    SameRows(base[k..], Within(rows, base[k].open, hi));
  }

  lemma SameRows(s: seq<Row>, t: seq<Row>)
    requires Sorted(s) && Sorted(t) && forall x :: x in s <==> x in t
    ensures s == t
  {
    var key := (r: Row) => (r.open, 0);
    SortedUnique(s, t, key);
  }

  // ---------------------------------------------------------------- what is kept

  lemma {:induction false} KeepConcat(q: Query, m: map<int, Row>, a: seq<Row>, b: seq<Row>)
    requires q.iv > 0
    ensures Keep(q, Keep(q, m, a), b) == Keep(q, m, a + b)
  {
    if b == [] {
      assert a + b == a;
    } else {
      var n := |b| - 1;
      assert (a + b)[..|a| + n] == a + b[..n];
      KeepConcat(q, m, a, b[..n]);
    }
  }

  /** Bars of `rows` that are closed and not before the first expected one. */
  ghost predicate Wanted(q: Query, rows: seq<Row>, r: Row)
    requires q.iv > 0
  {
    r in rows && Closed(q, r) && FirstExpected(q) <= r.open
  }

  lemma {:induction false} KeepIs(q: Query, rows: seq<Row>)
    requires q.iv > 0 && Sorted(rows)
    ensures var m := Keep(q, map[], rows);
            && (forall r | Wanted(q, rows, r) :: r.open in m && m[r.open] == r)
            && (forall o | o in m :: m[o].open == o && Wanted(q, rows, m[o]))
  {
    if rows != [] {
      hide FirstExpected, Closed;
      var n := |rows| - 1;
      KeepIs(q, rows[..n]);
      assert rows == rows[..n] + [rows[n]];
      forall r | r in rows[..n] ensures r.open < rows[n].open {
        var i :| 0 <= i < n && rows[..n][i] == r;
        assert rows[i] == r;
      }
      var k, m := Keep(q, map[], rows[..n]), Keep(q, map[], rows);
      forall o | o in m ensures m[o].open == o && Wanted(q, rows, m[o]) {
        if o in k && m[o] == k[o] {
          assert Wanted(q, rows[..n], k[o]);
        }
      }
      forall r | Wanted(q, rows, r) ensures r.open in m && m[r.open] == r {
        if r in rows[..n] {
          assert Wanted(q, rows[..n], r);
        }
      }
    }
  }

  /** Rows beyond the last expected bar contribute nothing. */
  lemma {:induction false} KeepNothing(q: Query, m: map<int, Row>, rows: seq<Row>)
    requires q.iv > 0 && forall r | r in rows :: !Closed(q, r)
    ensures Keep(q, m, rows) == m
  {
    if rows != [] {
      var n := |rows| - 1;
      assert rows[n] in rows && forall r | r in rows[..n] :: r in rows;
      KeepNothing(q, m, rows[..n]);
    }
  }

  // ---------------------------------------------------------------- the scan of a table

  /** All pages so far fit together. */
  ghost predicate Seamless(s: Scan) {
    && s.mismatches == []
    && forall i | 0 <= i < |s.segments| :: s.segments[i].seam == if i == 0 then None else Some(SeamOk)
  }

  /** The scan has kept the first `n` rows of the range. */
  ghost predicate Kept(q: Query, s: Scan, base: seq<Row>, n: nat)
    requires q.iv > 0 && n <= |base|
  {
    s.byOpen == Keep(q, map[], base[..n]) && Seamless(s)
  }

  ghost predicate TableOk(server: (nat, int) -> seq<Row>, table: seq<Row>, q: Query) {
    && ValidQuery(q) && Sorted(table) && Serves(server, table, q)
    && forall r | r in table :: Aligned(r.open, q.iv)
  }

  function PageEnd(q: Query, base: seq<Row>, k: nat): nat
    requires q.limit >= 2 && k <= |base|
  {
    if |base| <= k + q.limit then |base| else k + q.limit
  }

  /** The page that starts at row `k` of the range. */
  lemma PageIs(server: (nat, int) -> seq<Row>, table: seq<Row>, q: Query, n: nat, k: nat)
    requires TableOk(server, table, q)
    ensures var base := Within(table, q.start, q.end);
            && (k < |base| ==> server(n, base[k].open) == base[k..PageEnd(q, base, k)])
            && server(n, q.start) == base[..PageEnd(q, base, 0)]
  {
    hide Within, Sorted, Aligned;
    var base := Within(table, q.start, q.end);
    if k < |base| {
      WithinTail(table, q.start, q.end, k);
      assert Take(base[k..], q.limit) == base[k..PageEnd(q, base, k)];
    }
  }

  /** After the last page nothing wanted is left. */
  lemma RestUnwanted(table: seq<Row>, q: Query, e: nat)
    requires ValidQuery(q) && Sorted(table) && forall r | r in table :: Aligned(r.open, q.iv)
    requires var base := Within(table, q.start, q.end);
             0 < e <= |base| && (e == |base| || base[e - 1].open >= LastExpected(q))
    ensures var base := Within(table, q.start, q.end); Keep(q, map[], base[..e]) == Keep(q, map[], base)
  {
    hide Keep, Within, LastExpected, Aligned;
    var base := Within(table, q.start, q.end);
    WithinSorted(table, q.start, q.end);
    WithinIs(table, q.start, q.end);
    forall r | r in base[e..] ensures !Closed(q, r) {
      var i :| 0 <= i < |base[e..]| && base[e..][i] == r;
      assert base[e + i] == r && r in base;
      ClosedMeans(q, r);
    }
    KeepNothing(q, Keep(q, map[], base[..e]), base[e..]);
    KeepConcat(q, map[], base[..e], base[e..]);
    assert base[..e] + base[e..] == base;
  }

  lemma AbsorbNext(q: Query, s: Scan, base: seq<Row>, k: nat)
    requires ValidQuery(q) && k < |base| && Kept(q, s, base, k + 1) && s.segments != []
    ensures var e := PageEnd(q, base, k);
            var s1 := Absorb(q, s, base[k].open, Some(base[k]), base[k..e]);
            Kept(q, s1, base, e) && s1.segments != []
  {
    var e := PageEnd(q, base, k);
    var page := base[k..e];
    assert page[0] == base[k];
    assert page[1..] == base[k + 1..e];
    KeepConcat(q, map[], base[..k + 1], base[k + 1..e]);
    assert base[..k + 1] + base[k + 1..e] == base[..e];
    hide Keep;
  }

  lemma CollectStep(server: (nat, int) -> seq<Row>, q: Query, s: Scan, cursor: int, prev: Option<Row>)
    requires q.iv > 0 && (prev.Some? ==> cursor == prev.value.open)
    ensures var page := server(|s.segments|, cursor);
            Collect(server, q, s, cursor, prev)
            == if Continue(q, prev, page) then Collect(server, q, Absorb(q, s, cursor, prev, page),
              page[|page| - 1].open, Some(page[|page| - 1]))
               else Absorb(q, s, cursor, prev, page)
  {
  }

  /** A full page goes further; a page that ends the scan leaves nothing wanted behind. */
  lemma PageEnds(table: seq<Row>, q: Query, base: seq<Row>, prev: Option<Row>, k: nat)
    requires ValidQuery(q) && Sorted(table) && (forall r | r in table :: Aligned(r.open, q.iv))
             && base == Within(table, q.start, q.end)
    requires k < |base| && (prev.Some? ==> prev.value == base[k])
    ensures var e := PageEnd(q, base, k);
            && k < e && base[k..e] != [] && base[k..e][e - k - 1] == base[e - 1]
            && (Continue(q, prev, base[k..e]) ==> k < e - 1)
            && (!Continue(q, prev, base[k..e]) ==> Keep(q, map[], base[..e]) == Keep(q, map[], base))
  {
    hide Keep, Within, LastExpected, Aligned;
    var e := PageEnd(q, base, k);
    WithinSorted(table, q.start, q.end);
    if !Continue(q, prev, base[k..e]) {
      assert e == |base| || base[e - 1].open >= LastExpected(q);
      RestUnwanted(table, q, e);
    }
  }

  lemma {:induction false} CollectTable(server: (nat, int) -> seq<Row>, table: seq<Row>, q: Query, base: seq<Row>,
      s: Scan, k: nat)
    requires TableOk(server, table, q) && base == Within(table, q.start, q.end)
    requires k < |base| && Kept(q, s, base, k + 1) && s.segments != []
    ensures var r := Collect(server, q, s, base[k].open, Some(base[k])); Seamless(r) && r.byOpen == Keep(q, map[], base)
    decreases |base| - k
  {
    hide Keep, Within, Serves, LastExpected, Collect, Continue, Seamless, Sorted, Aligned, Absorb;
    var e := PageEnd(q, base, k);
    var page := base[k..e];
    PageIs(server, table, q, |s.segments|, k);
    PageEnds(table, q, base, Some(base[k]), k);
    AbsorbNext(q, s, base, k);
    CollectStep(server, q, s, base[k].open, Some(base[k]));
    var s1 := Absorb(q, s, base[k].open, Some(base[k]), page);
    if Continue(q, Some(base[k]), page) {
      CollectTable(server, table, q, base, s1, e - 1);
    }
  }

  /** Against a fixed table the scan keeps what it would keep of the whole range at once, and every seam fits. */
  lemma FetchTable(server: (nat, int) -> seq<Row>, table: seq<Row>, q: Query)
    requires TableOk(server, table, q)
    ensures var r := Fetch(server, q); Seamless(r) && r.byOpen == Keep(q, map[], Within(table, q.start, q.end))
  {
    hide Keep, Within, Serves, LastExpected, Collect, Continue, Seamless, Sorted, Aligned, Absorb;
    var base, s0 := Within(table, q.start, q.end), Scan(map[], [], []);
    var e := PageEnd(q, base, 0);
    PageIs(server, table, q, 0, 0);
    CollectStep(server, q, s0, q.start, None);
    FirstPage(q, base);
    var s1 := Absorb(q, s0, q.start, None, base[..e]);
    if base == [] {
      assert base[..e] == base;
    } else {
      assert base[0..e] == base[..e];
      PageEnds(table, q, base, None, 0);
      if Continue(q, None, base[..e]) {
        CollectTable(server, table, q, base, s1, e - 1);
      }
    }
  }

  lemma FirstPage(q: Query, base: seq<Row>)
    requires ValidQuery(q)
    ensures var e := PageEnd(q, base, 0); var s1 := Absorb(q, Scan(map[], [], []), q.start, None, base[..e]);
            Kept(q, s1, base, e) && s1.segments != [] && (base == [] ==> !Continue(q, None, base[..e]) && e == 0)
  {
  }

  /** The result is exactly the closed bars with open time in [start, end], each as the table has it, all seams fit. */
  lemma ExactlyTheClosedBars(server: (nat, int) -> seq<Row>, table: seq<Row>, q: Query)
    requires TableOk(server, table, q)
    ensures var r := Fetch(server, q);
            && Seamless(r)
            && (forall x | x in table && q.start <= x.open <= q.end && Closed(q, x) ::
                 x.open in r.byOpen && r.byOpen[x.open] == x)
            && (forall o | o in r.byOpen :: var x := r.byOpen[o];
                  x.open == o && x in table && q.start <= o <= q.end && Closed(q, x)
                    && FirstExpected(q) <= o <= LastExpected(q) && Aligned(o, q.iv))
  {
    FetchTable(server, table, q);
    WithinSorted(table, q.start, q.end);
    WithinIs(table, q.start, q.end);
    var base := Within(table, q.start, q.end);
    KeepIs(q, base);
    var m := Fetch(server, q).byOpen;
    hide Keep, Fetch, LastExpected, FirstExpected, Serves, Sorted, Aligned;
    forall x | x in table && q.start <= x.open <= q.end && Closed(q, x) ensures x.open in m && m[x.open] == x {
      StartMeans(q, x.open);
      assert Wanted(q, base, x);
    }
    forall o | o in m ensures FirstExpected(q) <= o <= LastExpected(q) && Aligned(o, q.iv) {
      ClosedMeans(q, m[o]);
      StartMeans(q, o);
    }
  }

  // ---------------------------------------------------------------- bars and gaps

  ghost predicate InGap(gs: seq<Gap>, m: int) {
    exists i :: 0 <= i < |gs| && gs[i].lo <= m <= gs[i].hi
  }

  /** The gaps between the grid points `prev` (excluded) and `last`: apart from each other, non-empty and counted. */
  ghost predicate GapsOk(gs: seq<Gap>, prev: int, iv: int, last: int)
    requires iv > 0
  {
    && (forall i | 0 <= i < |gs| ::
          && prev < gs[i].lo <= gs[i].hi <= last && OnGrid(prev, iv, gs[i].lo) && OnGrid(prev, iv, gs[i].hi)
          && gs[i].count == (gs[i].hi - gs[i].lo) / iv + 1)
    && (forall i, j | 0 <= i < j < |gs| :: gs[i].hi + iv < gs[j].lo)
  }

  function Missing(gs: seq<Gap>): int {
    if gs == [] then 0 else gs[0].count + Missing(gs[1..])
  }

  /** `a` grid points of step `iv` from one to the other. */
  lemma Steps(a: int, b: int, iv: int)
    requires iv > 0 && OnGrid(a, iv, b)
    ensures b - a == (b - a) / iv * iv
  {
  }

  lemma GridTrans(a: int, b: int, c: int, iv: int)
    requires iv > 0 && OnGrid(a, iv, b)
    ensures OnGrid(b, iv, c) <==> OnGrid(a, iv, c)
    ensures OnGrid(a, iv, c) ==> (c - a) / iv == (b - a) / iv + (c - b) / iv
  {
    var j := (b - a) / iv;
    assert b - a == j * iv;
    if OnGrid(a, iv, c) {
      var k := (c - a) / iv;
      assert c - b == (k - j) * iv;
      Multiple(k - j, iv);
      Exact(k - j, iv);
    }
    if OnGrid(b, iv, c) {
      var k := (c - b) / iv;
      assert c - a == (k + j) * iv;
      Multiple(k + j, iv);
    }
  }

  lemma Exact(k: int, s: int)
    requires s > 0
    ensures (k * s) / s == k
  {
    Multiple(k, s);
    var q := (k * s) / s;
    assert q * s == k * s;
    MulSign(q - k, s);
    assert (q - k) * s == 0;
  }

  /** Detection fails exactly when some open is off the grid. */
  lemma {:induction false} DetectsMisalignment(opens: seq<int>, prev: int, iv: int, last: int)
    requires iv > 0
    ensures GapsFrom(opens, prev, iv, last).Some? <==> forall i | 0 <= i < |opens| :: OnGrid(prev, iv, opens[i])
    decreases |opens|
  {
    if opens != [] {
      var o := opens[0];
      if OnGrid(prev, iv, o) {
        DetectsMisalignment(opens[1..], o, iv, last);
        forall i | 0 <= i < |opens| ensures OnGrid(prev, iv, opens[i]) <==> OnGrid(o, iv, opens[i]) {
          GridTrans(prev, o, opens[i], iv);
        }
        assert OnGrid(o, iv, o);
        assert forall i | 1 <= i < |opens| :: opens[1..][i - 1] == opens[i];
        assert forall i | 0 <= i < |opens| - 1 :: opens[1..][i] == opens[i + 1];
      }
    }
  }

  /** The gap in front of the next open, if any. */
  function Lead(prev: int, o: int, iv: int): seq<Gap>
    requires iv > 0
  {
    if o - prev > iv then [Gap(prev + iv, o - iv, (o - iv - prev - iv) / iv + 1)] else []
  }

  lemma LeadOk(prev: int, o: int, iv: int)
    requires iv > 0 && prev < o && OnGrid(prev, iv, o)
    ensures GapsOk(Lead(prev, o, iv), prev, iv, o - iv) && Missing(Lead(prev, o, iv)) == (o - prev) / iv - 1
    ensures forall m | OnGrid(prev, iv, m) && prev < m < o :: InGap(Lead(prev, o, iv), m)
  {
    LeadCount(prev, o, iv);
    hide OnGrid;
    GridStep0(prev, iv);
    if o - prev > iv {
      var gs := Lead(prev, o, iv);
      assert Missing(gs) == gs[0].count by { assert gs[1..] == []; }
      forall m | OnGrid(prev, iv, m) && prev < m < o ensures InGap(gs, m) {
        StepAbove(prev, m, iv);
        StepAbove2(prev, m, o, iv);
        assert gs[0].lo <= m <= gs[0].hi;
      }
    } else {
      forall m | OnGrid(prev, iv, m) && prev < m ensures prev + iv <= m {
        StepAbove(prev, m, iv);
      }
    }
  }

  lemma GridStep0(prev: int, iv: int)
    requires iv > 0
    ensures OnGrid(prev, iv, prev + iv)
  {
    GridStep(prev, iv, prev);
  }

  /** The arithmetic of a gap between two grid points. */
  lemma LeadCount(prev: int, o: int, iv: int)
    requires iv > 0 && prev < o && OnGrid(prev, iv, o)
    ensures prev + iv <= o && OnGrid(prev, iv, o - iv) && (o - prev > iv ==> prev + iv <= o - iv)
    ensures (o - iv - (prev + iv)) / iv == (o - prev) / iv - 2 && (o - prev <= iv ==> (o - prev) / iv == 1)
  {
    StepAbove(prev, o, iv);
    DivStep(o - prev, iv);
    DivStep(o - iv - prev, iv);
    GridTrans(prev, o, o - iv, iv) by { BackOne(o, iv); }
    if o - prev > iv {
      StepAbove2(prev, prev + iv, o, iv) by { GridStep0(prev, iv); }
    }
  }

  lemma BackOne(o: int, iv: int)
    requires iv > 0
    ensures OnGrid(o, iv, o - iv)
  {
    Multiple(-1, iv);
  }

  lemma StepAbove(a: int, m: int, iv: int)
    requires iv > 0 && OnGrid(a, iv, m) && a < m
    ensures a + iv <= m
  {
    Steps(a, m, iv);
    MulSign((m - a) / iv, iv);
  }

  lemma StepAbove2(a: int, m: int, o: int, iv: int)
    requires iv > 0 && OnGrid(a, iv, m) && OnGrid(a, iv, o) && m < o
    ensures m + iv <= o
  {
    GridTrans(a, m, o, iv);
    StepAbove(m, o, iv);
  }

  lemma {:induction false} MissingConcat(a: seq<Gap>, b: seq<Gap>)
    ensures Missing(a + b) == Missing(a) + Missing(b)
  {
    if a == [] {
      assert a + b == b;
    } else {
      assert (a + b)[1..] == a[1..] + b;
      MissingConcat(a[1..], b);
    }
  }

  lemma InGapConcat(a: seq<Gap>, b: seq<Gap>, m: int)
    ensures InGap(a + b, m) <==> InGap(a, m) || InGap(b, m)
  {
    if InGap(a, m) {
      var i :| 0 <= i < |a| && a[i].lo <= m <= a[i].hi;
      assert (a + b)[i] == a[i];
    }
    if InGap(b, m) {
      var i :| 0 <= i < |b| && b[i].lo <= m <= b[i].hi;
      assert (a + b)[|a| + i] == b[i];
    }
  }

  lemma GapsJoin(a: seq<Gap>, b: seq<Gap>, prev: int, o: int, iv: int, last: int)
    requires iv > 0 && prev < o <= last && OnGrid(prev, iv, o) && GapsOk(a, prev, iv, o - iv) && GapsOk(b, o, iv, last)
    ensures GapsOk(a + b, prev, iv, last)
  {
    forall i | 0 <= i < |b| ensures OnGrid(prev, iv, b[i].lo) && OnGrid(prev, iv, b[i].hi) {
      GridTrans(prev, o, b[i].lo, iv);
      GridTrans(prev, o, b[i].hi, iv);
    }
  }

  /** What the gaps after `prev` say about the bars. */
  ghost predicate Partition(opens: seq<int>, gs: seq<Gap>, prev: int, iv: int, last: int)
    requires iv > 0
  {
    && GapsOk(gs, prev, iv, last)
    && (forall m | OnGrid(prev, iv, m) && prev < m <= last :: m in opens <==> !InGap(gs, m))
    && |opens| + Missing(gs) == (last - prev) / iv
  }

  ghost predicate OpensOk(opens: seq<int>, prev: int, iv: int, last: int)
    requires iv > 0
  {
    Ascending(opens) && forall i | 0 <= i < |opens| :: prev < opens[i] <= last && OnGrid(prev, iv, opens[i])
  }

  lemma RestOk(opens: seq<int>, prev: int, iv: int, last: int)
    requires iv > 0 && opens != [] && OpensOk(opens, prev, iv, last)
    ensures OpensOk(opens[1..], opens[0], iv, last)
  {
    forall i | 0 <= i < |opens| - 1 ensures OnGrid(opens[0], iv, opens[1..][i]) {
      GridTrans(prev, opens[0], opens[i + 1], iv);
    }
  }

  lemma JoinPartition(opens: seq<int>, gs: seq<Gap>, prev: int, iv: int, last: int)
    requires iv > 0 && opens != [] && OpensOk(opens, prev, iv, last) && OnGrid(prev, iv, last)
    requires Partition(opens[1..], gs, opens[0], iv, last)
    ensures Partition(opens, Lead(prev, opens[0], iv) + gs, prev, iv, last)
  {
    hide Lead, GapsOk, InGap, Missing, OnGrid;
    var o := opens[0];
    var a := Lead(prev, o, iv);
    LeadOk(prev, o, iv);
    GapsJoin(a, gs, prev, o, iv, last);
    MissingConcat(a, gs);
    GridTrans(prev, o, last, iv);
    assert opens == [o] + opens[1..];
    forall m | OnGrid(prev, iv, m) && prev < m <= last ensures m in opens <==> !InGap(a + gs, m) {
      InGapConcat(a, gs, m);
      OnePoint(opens, gs, a, prev, iv, last, m);
    }
  }

  lemma OnePoint(opens: seq<int>, gs: seq<Gap>, a: seq<Gap>, prev: int, iv: int, last: int, m: int)
    requires iv > 0 && opens != [] && OpensOk(opens, prev, iv, last) && OnGrid(prev, iv, m) && prev < m <= last
    requires Partition(opens[1..], gs, opens[0], iv, last) && GapsOk(a, prev, iv, opens[0] - iv)
    requires prev < m < opens[0] ==> InGap(a, m)
    ensures m in opens <==> !(InGap(a, m) || InGap(gs, m))
  {
    var o := opens[0];
    assert opens == [o] + opens[1..];
    GridTrans(prev, o, m, iv);
    assert m >= o ==> !InGap(a, m);
    assert m <= o ==> !InGap(gs, m);
    assert forall x | x in opens[1..] :: o < x;
  }

  /** Bars and gaps partition the grid: every expected point is a bar or lies in exactly one gap, and the numbers add
      up. */
  lemma {:induction false} GapsPartition(opens: seq<int>, prev: int, iv: int, last: int)
    requires iv > 0 && OpensOk(opens, prev, iv, last) && prev <= last && OnGrid(prev, iv, last)
    ensures var r := GapsFrom(opens, prev, iv, last); r.Some? && Partition(opens, r.value, prev, iv, last)
    decreases |opens|
  {
    hide Partition, Lead, OnGrid;
    if opens == [] {
      LastGap(prev, iv, last);
    } else {
      RestOk(opens, prev, iv, last);
      GridTrans(prev, opens[0], last, iv);
      assert OnGrid(prev, iv, opens[0]);
      FirstStep(opens, prev, iv, last);
      hide GapsFrom, OpensOk;
      GapsPartition(opens[1..], opens[0], iv, last);
      JoinPartition(opens, GapsFrom(opens[1..], opens[0], iv, last).value, prev, iv, last);
    }
  }

  lemma FirstStep(opens: seq<int>, prev: int, iv: int, last: int)
    requires iv > 0 && opens != [] && OnGrid(prev, iv, opens[0])
    ensures var rest := GapsFrom(opens[1..], opens[0], iv, last);
            rest.Some? ==> GapsFrom(opens, prev, iv, last) == Some(Lead(prev, opens[0], iv) + rest.value)
  {
  }

  lemma LastGapIs(prev: int, iv: int, last: int)
    requires iv > 0
    ensures GapsFrom([], prev, iv, last) == Some(Lead(prev, last + iv, iv))
  {
  }

  lemma LastGap(prev: int, iv: int, last: int)
    requires iv > 0 && prev <= last && OnGrid(prev, iv, last)
    ensures GapsFrom([], prev, iv, last) == Some(Lead(prev, last + iv, iv))
    ensures Partition([], Lead(prev, last + iv, iv), prev, iv, last)
  {
    hide GapsOk, InGap, Missing, OnGrid, GapsFrom, Lead;
    LastGapIs(prev, iv, last);
    GridStep(prev, iv, last);
    LeadOk(prev, last + iv, iv);
    DivStep(last + iv - prev, iv);
  }

  /** The bars fetched from a table and the gaps detected between them partition the expected grid. */
  lemma BarsAndGapsPartition(server: (nat, int) -> seq<Row>, table: seq<Row>, q: Query)
    requires TableOk(server, table, q) && FirstExpected(q) <= LastExpected(q)
    ensures var r := Reported(Fetch(server, q), q);
            r.Some? && Partition(SortedKeys(Fetch(server, q).byOpen.Keys), r.value, FirstExpected(q) - q.iv, q.iv,
              LastExpected(q))
  {
    FetchedOpens(server, table, q);
    ExpectedAligned(q);
    var opens, prev, last := SortedKeys(Fetch(server, q).byOpen.Keys), FirstExpected(q) - q.iv, LastExpected(q);
    assert Reported(Fetch(server, q), q) == GapsFrom(opens, prev, q.iv, last);
    hide Fetch, FirstExpected, LastExpected, TableOk, Partition, OpensOk, Aligned, OnGrid, Reported, GapsFrom,
      SortedKeys;
    SameGrid(prev, last, q.iv);
    GapsPartition(opens, prev, q.iv, last);
  }

  /** The opens of a scan lie on the expected grid. */
  lemma FetchedOpens(server: (nat, int) -> seq<Row>, table: seq<Row>, q: Query)
    requires TableOk(server, table, q)
    ensures OpensOk(SortedKeys(Fetch(server, q).byOpen.Keys), FirstExpected(q) - q.iv, q.iv, LastExpected(q))
  {
    var keys := Fetch(server, q).byOpen.Keys;
    var opens, prev, last := SortedKeys(keys), FirstExpected(q) - q.iv, LastExpected(q);
    SortedKeysAscend(keys);
    ExactlyTheClosedBars(server, table, q);
    ExpectedAligned(q);
    hide Fetch, FirstExpected, LastExpected, TableOk, Aligned, OnGrid, Closed;
    forall i | 0 <= i < |opens| ensures prev < opens[i] <= last && OnGrid(prev, q.iv, opens[i]) {
      assert opens[i] in opens;
      SameGrid(prev, opens[i], q.iv);
    }
  }

  lemma ExpectedAligned(q: Query)
    requires q.iv > 0
    ensures Aligned(FirstExpected(q) - q.iv, q.iv) && Aligned(LastExpected(q), q.iv) && Aligned(FirstExpected(q), q.iv)
  {
    CeilIs(q.start, q.iv);
    FloorIs(q.end, q.iv);
    FloorIs(q.now, q.iv);
    NextAligned(FirstExpected(q), q.iv);
    NextAligned(FloorTo(q.now, q.iv), q.iv);
  }

  lemma SameGrid(a: int, m: int, iv: int)
    requires iv > 0 && Aligned(a, iv) && Aligned(m, iv)
    ensures OnGrid(a, iv, m)
  {
    assert m - a == (m / iv - a / iv) * iv;
    Multiple(m / iv - a / iv, iv);
  }

  // ---------------------------------------------------------------- the request plan

  /** Pages with an overlap of one bar: the first brings `limit` bars, each further one `limit - 1` new ones. */
  function PagesNeeded(n: nat, limit: int): int
    requires limit >= 2
  {
    if n <= limit then 1 else 1 + (n - limit + (limit - 1) - 1) / (limit - 1)
  }

  lemma PagesStep(n: nat, limit: int)
    requires limit >= 2 && n > limit
    ensures PagesNeeded(n, limit) == 1 + PagesNeeded(n - (limit - 1), limit)
  {
    var d := limit - 1;
    var x := n - limit + d - 1;
    assert x / d == (x - d) / d + 1 by { DivStep(x, d); }
    if n - d <= limit {
      assert d <= x < 2 * d;
      DivStep(x, d);
      assert (x - d) / d == 0;
    }
  }

  lemma DivStep(x: int, d: int)
    requires d > 0
    ensures x / d == (x - d) / d + 1
  {
    var k := x / d;
    assert x - d == (k - 1) * d + x % d;
    QuotientIs(x - d, d, k - 1, x % d);
  }

  lemma QuotientIs(x: int, d: int, k: int, r: int)
    requires d > 0 && x == k * d + r && 0 <= r < d
    ensures x / d == k
  {
    var j := x / d;
    assert (j - k) * d == r - x % d;
    MulSign(j - k, d);
  }

  lemma {:induction false} CollectCount(server: (nat, int) -> seq<Row>, table: seq<Row>, q: Query, base: seq<Row>,
      s: Scan, k: nat, prev: Option<Row>)
    requires TableOk(server, table, q) && base == Within(table, q.start, q.end) && k < |base|
    requires base[|base| - 1].open == LastExpected(q)
    requires prev == Some(base[k]) || (prev == None && k == 0)
    ensures var cursor := if prev.Some? then base[k].open else q.start;
            |Collect(server, q, s, cursor, prev).segments| == |s.segments| + PagesNeeded(|base| - k, q.limit)
    decreases |base| - k, if prev.None? then 1 else 0
  {
    hide Keep, Within, Serves, LastExpected, Collect, PagesNeeded, Aligned;
    var cursor := if prev.Some? then base[k].open else q.start;
    var e := PageEnd(q, base, k);
    var page := base[k..e];
    PageIs(server, table, q, |s.segments|, k);
    assert base[0..e] == base[..e];
    CollectStep(server, q, s, cursor, prev);
    WithinSorted(table, q.start, q.end);
    var s1 := Absorb(q, s, cursor, prev, page);
    assert page[|page| - 1] == base[e - 1];
    assert |s1.segments| == |s.segments| + 1;
    hide Absorb;
    if e == |base| {
      OnePage(|base| - k, q.limit);
    } else {
      PagesStep(|base| - k, q.limit);
      CollectCount(server, table, q, base, s1, e - 1, Some(base[e - 1]));
    }
  }

  lemma OnePage(n: nat, limit: int)
    requires limit >= 2 && n <= limit
    ensures PagesNeeded(n, limit) == 1
  {
  }

  /** Every expected bar exists, and nothing in range is still open. */
  ghost predicate DenseAndClosed(table: seq<Row>, q: Query)
    requires q.iv > 0
  {
    && FirstExpected(q) <= LastExpected(q)
    && (forall m | Aligned(m, q.iv) && FirstExpected(q) <= m <= LastExpected(q) :: exists r ::
         r in table && r.open == m)
    && forall r | r in table && q.start <= r.open <= q.end :: Closed(q, r)
  }

  function OpensOf(rows: seq<Row>): (r: seq<int>)
    ensures |r| == |rows| && forall i | 0 <= i < |rows| :: r[i] == rows[i].open
  {
    if rows == [] then [] else OpensOf(rows[..|rows| - 1]) + [rows[|rows| - 1].open]
  }

  lemma RowExpected(q: Query, r: Row)
    requires q.iv > 0 && Aligned(r.open, q.iv) && q.start <= r.open <= q.end && Closed(q, r)
    ensures FirstExpected(q) - q.iv < r.open <= LastExpected(q) && OnGrid(FirstExpected(q) - q.iv, q.iv, r.open)
  {
    hide FirstExpected, LastExpected, Aligned, OnGrid;
    ExpectedAligned(q);
    StartMeans(q, r.open);
    ClosedMeans(q, r);
    SameGrid(FirstExpected(q) - q.iv, r.open, q.iv);
  }

  /** The rows of a closed range are bars of the expected grid ... */
  lemma RangeOpens(table: seq<Row>, q: Query, base: seq<Row>)
    requires ValidQuery(q) && Sorted(table) && (forall r | r in table :: Aligned(r.open, q.iv))
    requires base == Within(table, q.start, q.end) && DenseAndClosed(table, q)
    ensures OpensOk(OpensOf(base), FirstExpected(q) - q.iv, q.iv, LastExpected(q))
  {
    hide Within, FirstExpected, LastExpected, Aligned, OnGrid;
    var first, last, opens := FirstExpected(q), LastExpected(q), OpensOf(base);
    WithinSorted(table, q.start, q.end);
    WithinIs(table, q.start, q.end);
    ExpectedAligned(q);
    forall i | 0 <= i < |opens| ensures first - q.iv < opens[i] <= last && OnGrid(first - q.iv, q.iv, opens[i]) {
      assert base[i] in base;
      RowExpected(q, base[i]);
    }
  }

  /** ... and a dense range misses none of them. */
  lemma DensePoint(table: seq<Row>, q: Query, base: seq<Row>, m: int)
    requires ValidQuery(q) && Sorted(table) && (forall r | r in table :: Aligned(r.open, q.iv))
    requires base == Within(table, q.start, q.end) && DenseAndClosed(table, q)
    requires Aligned(m, q.iv) && FirstExpected(q) <= m <= LastExpected(q)
    ensures m in OpensOf(base)
  {
    hide Within, FirstExpected, LastExpected, Aligned;
    WithinIs(table, q.start, q.end);
    var r :| r in table && r.open == m;
    StartMeans(q, m);
    ClosedMeans(q, r);
    assert r in base;
    var j :| 0 <= j < |base| && base[j] == r;
    assert OpensOf(base)[j] == m;
  }

  lemma NoGaps(opens: seq<int>, gs: seq<Gap>, prev: int, iv: int, last: int)
    requires iv > 0 && Partition(opens, gs, prev, iv, last) && forall m | OnGrid(prev, iv, m) && prev < m <= last ::
             m in opens
    ensures gs == []
  {
    if gs != [] {
      FirstInGap(gs, prev, iv, last);
      assert false;
    }
  }

  lemma FirstInGap(gs: seq<Gap>, prev: int, iv: int, last: int)
    requires iv > 0 && GapsOk(gs, prev, iv, last) && gs != []
    ensures var m := gs[0].lo; InGap(gs, m) && OnGrid(prev, iv, m) && prev < m <= last
  {
    assert gs[0].lo <= gs[0].lo <= gs[0].hi;
  }

  lemma Climbs(opens: seq<int>, j: nat)
    requires Ascending(opens) && j < |opens|
    ensures opens[j] <= opens[|opens| - 1]
  {
  }

  lemma LastOpen(opens: seq<int>, last: int)
    requires Ascending(opens) && last in opens && forall i | 0 <= i < |opens| :: opens[i] <= last
    ensures opens[|opens| - 1] == last
  {
    var j :| 0 <= j < |opens| && opens[j] == last;
    Climbs(opens, j);
  }

  /** The expected grid is exactly what a dense range holds. */
  lemma DenseOpens(table: seq<Row>, q: Query, base: seq<Row>)
    requires ValidQuery(q) && Sorted(table) && (forall r | r in table :: Aligned(r.open, q.iv))
    requires base == Within(table, q.start, q.end) && DenseAndClosed(table, q)
    ensures forall m | OnGrid(FirstExpected(q) - q.iv, q.iv, m) && FirstExpected(q) - q.iv < m <= LastExpected(q) ::
            m in OpensOf(base)
  {
    ExpectedAligned(q);
    var first, last, iv := FirstExpected(q), LastExpected(q), q.iv;
    hide Within, FirstExpected, LastExpected, Aligned, OnGrid, DenseAndClosed, Sorted, OpensOf;
    forall m | OnGrid(first - iv, iv, m) && first - iv < m <= last ensures m in OpensOf(base) {
      AlignedFrom(first - iv, m, iv);
      StepAbove(first - iv, m, iv);
      DensePoint(table, q, base, m);
    }
  }

  lemma FullGrid(opens: seq<int>, first: int, iv: int, last: int)
    requires iv > 0 && first <= last && OnGrid(first - iv, iv, last) && OpensOk(opens, first - iv, iv, last)
    requires forall m | OnGrid(first - iv, iv, m) && first - iv < m <= last :: m in opens
    ensures |opens| == (last - first) / iv + 1 && opens != [] && opens[|opens| - 1] == last
  {
    hide OnGrid, Partition;
    GapsPartition(opens, first - iv, iv, last);
    NoGaps(opens, GapsFrom(opens, first - iv, iv, last).value, first - iv, iv, last);
    hide GapsFrom;
    CountAll(opens, first - iv, iv, last);
    DivStep(last - first + iv, iv);
    LastOpen(opens, last);
  }

  /** A dense range has as many rows as the grid has points, and ends with the last expected one. */
  lemma DenseRange(table: seq<Row>, q: Query, base: seq<Row>)
    requires ValidQuery(q) && Sorted(table) && (forall r | r in table :: Aligned(r.open, q.iv))
    requires base == Within(table, q.start, q.end) && DenseAndClosed(table, q)
    ensures base != [] && base[|base| - 1].open == LastExpected(q)
    ensures |base| == (LastExpected(q) - FirstExpected(q)) / q.iv + 1
  {
    hide Within, FirstExpected, LastExpected, Aligned, OnGrid, Sorted, OpensOf, OpensOk;
    RangeOpens(table, q, base);
    DenseOpens(table, q, base);
    ExpectedAligned(q);
    SameGrid(FirstExpected(q) - q.iv, LastExpected(q), q.iv);
    FullGrid(OpensOf(base), FirstExpected(q), q.iv, LastExpected(q));
  }

  lemma CountAll(opens: seq<int>, prev: int, iv: int, last: int)
    requires iv > 0 && Partition(opens, [], prev, iv, last)
    ensures |opens| == (last - prev) / iv
  {
  }

  lemma AlignedFrom(a: int, m: int, iv: int)
    requires iv > 0 && Aligned(a, iv) && OnGrid(a, iv, m)
    ensures Aligned(m, iv)
  {
    assert m == (a / iv + (m - a) / iv) * iv;
    Multiple(a / iv + (m - a) / iv, iv);
  }

  /** For a dense, fully closed range the number of requests is the planned number of pages. */
  lemma RequestsAreThePlan(server: (nat, int) -> seq<Row>, table: seq<Row>, q: Query)
    requires TableOk(server, table, q) && DenseAndClosed(table, q)
    ensures |Fetch(server, q).segments| == PagesNeeded((LastExpected(q) - FirstExpected(q)) / q.iv + 1, q.limit)
  {
    var base := Within(table, q.start, q.end);
    DenseRange(table, q, base);
    CollectCount(server, table, q, base, Scan(map[], [], []), 0, None);
  }

  /** Every grid point from `lo` to `hi` is an open. */
  ghost predicate Complete(opens: seq<int>, lo: int, iv: int, hi: int)
    requires iv > 0
  {
    forall m | OnGrid(lo - iv, iv, m) && lo - iv < m <= hi :: m in opens
  }

  /** As many opens as the grid has points means all of them, and conversely. */
  lemma CountIsComplete(opens: seq<int>, lo: int, iv: int, hi: int)
    requires iv > 0 && lo <= hi && OnGrid(lo - iv, iv, hi) && OpensOk(opens, lo - iv, iv, hi)
    ensures |opens| == (hi - lo) / iv + 1 <==> Complete(opens, lo, iv, hi)
  {
    hide OnGrid, OpensOk, Partition;
    if Complete(opens, lo, iv, hi) {
      FullGrid(opens, lo, iv, hi);
    } else {
      GapsPartition(opens, lo - iv, iv, hi);
      DivStep(hi - lo + iv, iv);
      Incomplete(opens, GapsFrom(opens, lo - iv, iv, hi).value, lo - iv, iv, hi);
    }
  }

  lemma Incomplete(opens: seq<int>, gs: seq<Gap>, prev: int, iv: int, last: int)
    requires iv > 0 && Partition(opens, gs, prev, iv, last) && !forall m | OnGrid(prev, iv, m) && prev < m <= last ::
             m in opens
    ensures |opens| < (last - prev) / iv
  {
    MissingPositive(gs, prev, iv, last);
    hide GapsOk, Missing, OnGrid;
    var m :| OnGrid(prev, iv, m) && prev < m <= last && m !in opens;
    assert InGap(gs, m);
    assert gs != [];
  }

  lemma {:induction false} MissingPositive(gs: seq<Gap>, prev: int, iv: int, last: int)
    requires iv > 0 && GapsOk(gs, prev, iv, last)
    ensures Missing(gs) >= |gs|
  {
    if gs != [] {
      assert gs[0].count >= 1;
      MissingPositive(gs[1..], prev, iv, last);
    }
  }
}
