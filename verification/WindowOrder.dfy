/** Sliding extremes on a monotonic deque and the percentile rank on a sorted list. */
module WindowOrder {
  import opened Base

  // ---------------------------------------------------------------- monotonic deque

  /** `x` may stay in front of `y`: larger for a maximum, smaller for a minimum. */
  predicate AtLeast(maximum: bool, x: real, y: real) {
    if maximum then x >= y else x <= y
  }

  predicate Beats(maximum: bool, x: real, y: real) {
    if maximum then x > y else x < y
  }

  /** `v` is the extreme of xs[lo..hi]. */
  ghost predicate Extreme(maximum: bool, xs: seq<real>, lo: int, hi: int, v: real) {
    && 0 <= lo < hi <= |xs|
    && (exists k :: lo <= k < hi && xs[k] == v)
    && forall k | lo <= k < hi :: AtLeast(maximum, v, xs[k])
  }

  /** Indices increase, values fall, and each value is the one fed under its index. */
  ghost predicate Ordered(maximum: bool, idx: seq<int>, val: seq<real>, fed: seq<real>) {
    && |idx| == |val|
    && (forall a | 0 <= a < |idx| :: 0 <= idx[a] < |fed| && fed[idx[a]] == val[a])
    && (forall a, b | 0 <= a < b < |idx| :: idx[a] < idx[b] && Beats(maximum, val[a], val[b]))
  }

  /** Some element of the deque is as late and as good as value `k`. */
  ghost predicate Covered(maximum: bool, idx: seq<int>, val: seq<real>, k: int, v: real) {
    |idx| == |val| && exists a :: 0 <= a < |idx| && idx[a] >= k && AtLeast(maximum, val[a], v)
  }

  /** Every value from `lo` on is covered, or `x` is as good. */
  ghost predicate Covers(maximum: bool, idx: seq<int>, val: seq<real>, fed: seq<real>, lo: int, x: Option<real>) {
    0 <= lo && forall k | lo <= k < |fed| ::
      Covered(maximum, idx, val, k, fed[k]) || (x.Some? && AtLeast(maximum, x.value, fed[k]))
  }

  lemma PopBackKeeps(maximum: bool, idx: seq<int>, val: seq<real>, fed: seq<real>, lo: int, x: real)
    requires Ordered(maximum, idx, val, fed) && Covers(maximum, idx, val, fed, lo, Some(x))
    requires val != [] && AtLeast(maximum, x, val[|val| - 1])
    ensures var n := |val| - 1;
            Ordered(maximum, idx[..n], val[..n], fed) && Covers(maximum, idx[..n], val[..n], fed, lo, Some(x))
  {
    var n := |val| - 1;
    forall k | lo <= k < |fed|
      ensures Covered(maximum, idx[..n], val[..n], k, fed[k]) || AtLeast(maximum, x, fed[k])
    {
      if Covered(maximum, idx, val, k, fed[k]) {
        StillCovered(maximum, idx, val, k, fed[k], x);
      }
    }
    hide Covered;
  }

  lemma StillCovered(maximum: bool, idx: seq<int>, val: seq<real>, k: int, v: real, x: real)
    requires Covered(maximum, idx, val, k, v) && val != [] && AtLeast(maximum, x, val[|val| - 1])
    ensures var n := |val| - 1; Covered(maximum, idx[..n], val[..n], k, v) || AtLeast(maximum, x, v)
  {
    var n := |val| - 1;
    var a :| 0 <= a < |idx| && idx[a] >= k && AtLeast(maximum, val[a], v);
    if a < n {
      assert idx[..n][a] >= k && AtLeast(maximum, val[..n][a], v);
    }
  }

  lemma PopFrontKeeps(maximum: bool, idx: seq<int>, val: seq<real>, fed: seq<real>, lo: int)
    requires Ordered(maximum, idx, val, fed) && Covers(maximum, idx, val, fed, lo, None) && idx != [] && idx[0] < lo
    ensures Ordered(maximum, idx[1..], val[1..], fed) && Covers(maximum, idx[1..], val[1..], fed, lo, None)
  {
    TailOrdered(maximum, idx, val, fed);
    hide Covered, Ordered;
    forall k | lo <= k < |fed| ensures Covered(maximum, idx[1..], val[1..], k, fed[k]) {
      CoveredBehind(maximum, idx, val, k, fed[k]);
    }
  }

  lemma TailOrdered(maximum: bool, idx: seq<int>, val: seq<real>, fed: seq<real>)
    requires Ordered(maximum, idx, val, fed) && idx != []
    ensures Ordered(maximum, idx[1..], val[1..], fed)
  {
  }

  lemma CoveredBehind(maximum: bool, idx: seq<int>, val: seq<real>, k: int, v: real)
    requires Covered(maximum, idx, val, k, v) && idx != [] && idx[0] < k
    ensures Covered(maximum, idx[1..], val[1..], k, v)
  {
    var a :| 0 <= a < |idx| && idx[a] >= k && AtLeast(maximum, val[a], v);
    assert a > 0;
    assert idx[1..][a - 1] >= k && AtLeast(maximum, val[1..][a - 1], v);
  }

  lemma PushKeeps(maximum: bool, idx: seq<int>, val: seq<real>, fed: seq<real>, lo: int, x: real)
    requires Ordered(maximum, idx, val, fed) && Covers(maximum, idx, val, fed, lo, Some(x))
    requires forall a | 0 <= a < |val| :: Beats(maximum, val[a], x)
    ensures var i := |fed|;
            Ordered(maximum, idx + [i], val + [x], fed + [x])
              && Covers(maximum, idx + [i], val + [x], fed + [x], lo, None)
  {
    var ids, vs, fs := idx + [|fed|], val + [x], fed + [x];
    forall k | lo <= k < |fs| ensures Covered(maximum, ids, vs, k, fs[k]) {
      if k == |fed| || AtLeast(maximum, x, fed[k]) {
        assert ids[|idx|] >= k && AtLeast(maximum, vs[|idx|], fs[k]);
      } else {
        var a :| 0 <= a < |idx| && idx[a] >= k && AtLeast(maximum, val[a], fed[k]);
        assert ids[a] >= k && AtLeast(maximum, vs[a], fs[k]);
      }
    }
  }

  lemma LastBeats(maximum: bool, idx: seq<int>, val: seq<real>, fed: seq<real>, x: real)
    requires Ordered(maximum, idx, val, fed) && (val == [] || !AtLeast(maximum, x, val[|val| - 1]))
    ensures forall a | 0 <= a < |val| :: Beats(maximum, val[a], x)
  {
  }

  lemma HeadIsExtreme(maximum: bool, idx: seq<int>, val: seq<real>, fed: seq<real>, lo: int)
    requires Ordered(maximum, idx, val, fed) && Covers(maximum, idx, val, fed, lo, None)
    requires idx != [] && lo <= idx[0] && lo < |fed|
    ensures Extreme(maximum, fed, lo, |fed|, val[0])
  {
    assert fed[idx[0]] == val[0] && idx[0] < |fed|;
    hide Ordered, Covered;
    forall k | lo <= k < |fed| ensures AtLeast(maximum, val[0], fed[k]) {
      HeadIsBest(maximum, idx, val, fed, k, fed[k]);
    }
  }

  lemma HeadIsBest(maximum: bool, idx: seq<int>, val: seq<real>, fed: seq<real>, k: int, v: real)
    requires Ordered(maximum, idx, val, fed) && Covered(maximum, idx, val, k, v)
    ensures idx != [] && AtLeast(maximum, val[0], v)
  {
    var a :| 0 <= a < |idx| && idx[a] >= k && AtLeast(maximum, val[a], v);
    assert a == 0 || Beats(maximum, val[0], val[a]);
  }

  /** A later start asks for less. */
  lemma CoversLater(maximum: bool, idx: seq<int>, val: seq<real>, fed: seq<real>, lo: int, later: int, x: Option<real>)
    requires Covers(maximum, idx, val, fed, lo, None) && lo <= later
    ensures Covers(maximum, idx, val, fed, later, x)
  {
  }

  class MonotonicDeque {
    const n: nat
    const maximum: bool
    var idx: seq<int>
    var val: seq<real>
    var i: nat
    /** Everything fed so far, and the number of elements that left the deque. */
    ghost var fed: seq<real>
    ghost var popped: nat

    ghost function Lo(): int
      reads this
    {
      if i < n then 0 else i - n
    }

    ghost predicate Counted()
      reads this
    {
      0 < n && |fed| == i && popped + |idx| == i && |idx| == |val|
    }

    ghost predicate Valid()
      reads this
    {
      Counted() && Ordered(maximum, idx, val, fed) && Covers(maximum, idx, val, fed, Lo(), None)
        && (i > 0 ==> idx != [] && idx[0] >= Lo())
    }

    constructor (n: nat, maximum: bool)
      requires 0 < n
      ensures Valid() && fed == [] && this.n == n && this.maximum == maximum
    {
      this.n, this.maximum := n, maximum;
      idx, val, i := [], [], 0;
      fed, popped := [], 0;
    }

    /** Values that the new one makes useless leave at the back. */
    method DropBack(x: real)
      requires Valid()
      modifies this`idx, this`val, this`popped
      ensures Counted() && Ordered(maximum, idx, val, fed) && Covers(maximum, idx, val, fed, Lo(), Some(x))
      ensures (idx == [] || idx[0] >= Lo()) && (val == [] || !AtLeast(maximum, x, val[|val| - 1]))
    {
      hide Ordered, Covers, Extreme, AtLeast;
      CoversLater(maximum, idx, val, fed, Lo(), Lo(), Some(x));
      while val != [] && AtLeast(maximum, x, val[|val| - 1])
        invariant Counted() && Ordered(maximum, idx, val, fed) && Covers(maximum, idx, val, fed, Lo(), Some(x))
        invariant idx == [] || idx[0] >= Lo()
        decreases |val|
      {
        PopBackKeeps(maximum, idx, val, fed, Lo(), x);
        idx, val := idx[..|idx| - 1], val[..|val| - 1];
        popped := popped + 1;
      }
    }

    /** Values that are no longer in the window leave at the front. */
    method DropFront()
      requires Counted() && Ordered(maximum, idx, val, fed) && Covers(maximum, idx, val, fed, Lo(), None)
      requires idx != [] && idx[0] >= 0 && idx[|idx| - 1] == i - 1
      modifies this`idx, this`val, this`popped
      ensures Valid()
    {
      hide Ordered, Covers, Extreme;
      while idx[0] < i - n
        invariant Counted() && Ordered(maximum, idx, val, fed) && Covers(maximum, idx, val, fed, Lo(), None)
        invariant idx != [] && idx[0] >= 0 && idx[|idx| - 1] == i - 1
        decreases |idx|
      {
        PopFrontKeeps(maximum, idx, val, fed, Lo());
        OrderedIndices(maximum, idx, val, fed);
        idx, val := idx[1..], val[1..];
        popped := popped + 1;
      }
    }

    /** The result is the extreme of exactly the last `n` values. */
    method Update(x: real) returns (r: Option<real>)
      requires Valid()
      modifies this
      ensures Valid() && fed == old(fed) + [x]
      ensures r.Some? <==> |fed| >= n
      ensures r.Some? ==> Extreme(maximum, fed, |fed| - n, |fed|, r.value)
    {
      hide Ordered, Covers, Extreme;
      DropBack(x);
      ghost var lo := Lo();
      LastBeats(maximum, idx, val, fed, x);
      PushKeeps(maximum, idx, val, fed, lo, x);
      val := val + [x];
      idx := idx + [i];
      fed := fed + [x];
      i := i + 1;
      CoversLater(maximum, idx, val, fed, lo, Lo(), None);
      DropFront();
      if i >= n {
        HeadIsExtreme(maximum, idx, val, fed, i - n);
        r := Some(val[0]);
      } else {
        r := None;
      }
    }
  }

  lemma OrderedIndices(maximum: bool, idx: seq<int>, val: seq<real>, fed: seq<real>)
    requires Ordered(maximum, idx, val, fed)
    ensures forall a, b | 0 <= a < b < |idx| :: idx[a] < idx[b]
  {
  }

  ghost predicate ExtremeAt(xs: seq<real>, t: nat, n: nat, maximum: bool, r: Option<real>) {
    if t + 1 < n then r.None? else r.Some? && Extreme(maximum, xs, t + 1 - n, t + 1, r.value)
  }

  /** For every stream and window size: the extreme of the last `n` values, with at most one removal per value fed. */
  method SlidingExtremes(xs: seq<real>, n: nat, maximum: bool) returns (out: seq<Option<real>>, ghost removals: nat)
    requires 0 < n
    ensures |out| == |xs| && removals <= |xs|
    ensures forall t | 0 <= t < |xs| :: ExtremeAt(xs, t, n, maximum, out[t])
  {
    hide ExtremeAt, Ordered, Covers;
    var d := new MonotonicDeque(n, maximum);
    out := [];
    for t := 0 to |xs|
      invariant d.Valid() && fresh(d) && d.n == n && d.maximum == maximum && d.fed == xs[..t] && |out| == t
      invariant forall u | 0 <= u < t :: ExtremeAt(xs, u, n, maximum, out[u])
    {
      hide Extreme;
      assert xs[..t] + [xs[t]] == xs[..t + 1];
      var r := d.Update(xs[t]);
      ExtremeOfPrefix(maximum, xs, t, n, r);
      out := out + [r];
    }
    removals := d.popped;
  }

  lemma ExtremeOfPrefix(maximum: bool, xs: seq<real>, t: nat, n: nat, r: Option<real>)
    requires t < |xs| && 0 < n && (r.Some? <==> t + 1 >= n)
    requires r.Some? ==> Extreme(maximum, xs[..t + 1], t + 1 - n, t + 1, r.value)
    ensures ExtremeAt(xs, t, n, maximum, r)
  {
    if r.Some? {
      var lo, hi := t + 1 - n, t + 1;
      var k :| lo <= k < hi && xs[..hi][k] == r.value;
      assert xs[k] == r.value;
      forall k | lo <= k < hi ensures AtLeast(maximum, r.value, xs[k]) {
        assert xs[..hi][k] == xs[k];
      }
    }
  }

  // ---------------------------------------------------------------- percentile rank

  ghost predicate NonDecreasing(s: seq<real>) {
    forall i, j | 0 <= i < j < |s| :: s[i] <= s[j]
  }

  /** How many values are at most `x`. */
  function CountLe(s: seq<real>, x: real): (c: nat)
    ensures c <= |s|
  {
    if s == [] then 0 else CountLe(s[..|s| - 1], x) + if s[|s| - 1] <= x then 1 else 0
  }

  lemma {:induction false} CountConcat(s: seq<real>, t: seq<real>, x: real)
    ensures CountLe(s + t, x) == CountLe(s, x) + CountLe(t, x)
  {
    if t == [] {
      assert s + t == s;
    } else {
      assert (s + t)[..|s + t| - 1] == s + t[..|t| - 1];
      CountConcat(s, t[..|t| - 1], x);
    }
  }

  lemma DropAt(t: seq<real>, k: nat, x: real)
    requires k < |t|
    ensures var rest := t[..k] + t[k + 1..];
            && multiset(rest) == multiset(t) - multiset{t[k]}
            && CountLe(t, x) == CountLe(rest, x) + if t[k] <= x then 1 else 0
  {
    var a, z := t[..k], t[k + 1..];
    assert t == a + ([t[k]] + z);
    CountConcat(a, z, x);
    CountConcat(a, [t[k]] + z, x);
    CountConcat([t[k]], z, x);
    assert CountLe([t[k]], x) == if t[k] <= x then 1 else 0 by { assert [t[k]][..0] == []; }
  }

  /** Counting depends on the contents only. */
  lemma {:induction false} CountOfPermutation(s: seq<real>, t: seq<real>, x: real)
    requires multiset(s) == multiset(t)
    ensures CountLe(s, x) == CountLe(t, x)
    decreases |s|
  {
    if s == [] {
      assert |multiset(t)| == 0;
    } else {
      var n := |s| - 1;
      var v := s[n];
      assert v in multiset(s);
      assert v in t;
      var k :| 0 <= k < |t| && t[k] == v;
      DropAt(s, n, x);
      DropAt(t, k, x);
      assert s[..n] + s[n + 1..] == s[..n];
      CountOfPermutation(s[..n], t[..k] + t[k + 1..], x);
    }
  }

  /** In a sorted list the count is a position. */
  lemma {:induction false} CountOfSorted(s: seq<real>, x: real, p: nat)
    requires p <= |s| && (forall i | 0 <= i < p :: s[i] <= x) && forall i | p <= i < |s| :: s[i] > x
    ensures CountLe(s, x) == p
  {
    if s != [] {
      var n := |s| - 1;
      CountOfSorted(s[..n], x, if p <= n then p else n);
    }
  }

  method BisectLeft(s: seq<real>, x: real) returns (p: nat)
    requires NonDecreasing(s)
    ensures p <= |s| && (forall i | 0 <= i < p :: s[i] < x) && forall i | p <= i < |s| :: s[i] >= x
  {
    var lo, hi := 0, |s|;
    while lo < hi
      invariant 0 <= lo <= hi <= |s|
      invariant (forall i | 0 <= i < lo :: s[i] < x) && forall i | hi <= i < |s| :: s[i] >= x
    {
      var mid := (lo + hi) / 2;
      if s[mid] < x {
        lo := mid + 1;
      } else {
        hi := mid;
      }
    }
    p := lo;
  }

  method BisectRight(s: seq<real>, x: real) returns (p: nat)
    requires NonDecreasing(s)
    ensures p <= |s| && (forall i | 0 <= i < p :: s[i] <= x) && forall i | p <= i < |s| :: s[i] > x
  {
    var lo, hi := 0, |s|;
    while lo < hi
      invariant 0 <= lo <= hi <= |s|
      invariant (forall i | 0 <= i < lo :: s[i] <= x) && forall i | hi <= i < |s| :: s[i] > x
    {
      var mid := (lo + hi) / 2;
      if x < s[mid] {
        hi := mid;
      } else {
        lo := mid + 1;
      }
    }
    p := lo;
  }

  function Rank(w: seq<real>, x: real, n: nat): real
    requires 0 < n
  {
    CountLe(w, x) as real / n as real
  }

  class PercentileRank {
    const n: nat
    var fifo: seq<real>
    var sorted: seq<real>

    ghost predicate Valid()
      reads this
    {
      0 < n && |fifo| <= n && NonDecreasing(sorted) && multiset(sorted) == multiset(fifo)
    }

    constructor (n: nat)
      requires 0 < n
      ensures Valid() && fifo == [] && this.n == n
    {
      this.n := n;
      fifo, sorted := [], [];
    }

    method Remove(x: real)
      requires NonDecreasing(sorted) && x in sorted
      modifies this`sorted
      ensures NonDecreasing(sorted) && multiset(sorted) == multiset(old(sorted)) - multiset{x}
    {
      var p := BisectLeft(sorted, x);
      assert p < |sorted| && sorted[p] == x by {
        var k :| 0 <= k < |sorted| && sorted[k] == x;
      }
      assert sorted == sorted[..p] + ([x] + sorted[p + 1..]);
      sorted := sorted[..p] + sorted[p + 1..];
    }

    method Insert(x: real)
      requires NonDecreasing(sorted)
      modifies this`sorted
      ensures NonDecreasing(sorted) && multiset(sorted) == multiset(old(sorted)) + multiset{x}
    {
      var p := BisectRight(sorted, x);
      assert sorted == sorted[..p] + sorted[p..];
      sorted := sorted[..p] + [x] + sorted[p..];
    }

    /** The share of the last `n` values, the new one included, that are at most the new one. */
    method Update(x: real) returns (r: Option<real>)
      requires Valid()
      modifies this
      ensures Valid() && fifo == (if |old(fifo)| == n then old(fifo)[1..] else old(fifo)) + [x]
      ensures r == if |fifo| < n then None else Some(Rank(fifo, x, n))
    {
      if |fifo| == n {
        var oldest := fifo[0];
        assert fifo == [oldest] + fifo[1..];
        assert oldest in multiset(sorted);
        Remove(oldest);
        fifo := fifo[1..];
      }
      fifo := fifo + [x];
      Insert(x);
      if |fifo| < n {
        return None;
      }
      var c := BisectRight(sorted, x);
      CountOfSorted(sorted, x, c);
      CountOfPermutation(sorted, fifo, x);
      r := Some(c as real / n as real);
    }
  }

  /** Every rank lies in [1/n, 1]: the value counts itself. */
  lemma RankInRange(w: seq<real>)
    requires w != []
    ensures 1.0 / |w| as real <= Rank(w, w[|w| - 1], |w|) <= 1.0
  {
    var n, c := |w| as real, CountLe(w, w[|w| - 1]) as real;
    assert 1.0 <= c <= n;
    Divides(1.0, c, n);
    Divides(c, n, n);
  }

  lemma Divides(a: real, b: real, n: real)
    requires a <= b && n > 0.0
    ensures a / n <= b / n && n / n == 1.0
  {
    assert b / n - a / n == (b - a) / n;
  }

  /** The last `n` values with value `t`, and the rank of value `t` among them. */
  function RankAt(xs: seq<real>, t: nat, n: nat): Option<real>
    requires t < |xs| && 0 < n
  {
    if t + 1 < n then None else Some(Rank(xs[t + 1 - n..t + 1], xs[t], n))
  }

  /** The queue after `t` values. */
  function FifoAt(xs: seq<real>, t: nat, n: nat): (w: seq<real>)
    requires t <= |xs|
    ensures |w| == if t <= n then t else n
  {
    if t <= n then xs[..t] else xs[t - n..t]
  }

  lemma FifoStep(xs: seq<real>, t: nat, n: nat)
    requires t < |xs| && 0 < n
    ensures var f, g := FifoAt(xs, t, n), FifoAt(xs, t + 1, n);
            && g == (if |f| == n then f[1..] else f) + [xs[t]]
            && RankAt(xs, t, n) == if |g| < n then None else Some(Rank(g, xs[t], n))
  {
    hide Rank;
    if t >= n {
      assert xs[t - n..t][1..] + [xs[t]] == xs[t + 1 - n..t + 1];
    } else {
      assert xs[..t] + [xs[t]] == xs[..t + 1];
    }
  }

  method SlidingRanks(xs: seq<real>, n: nat) returns (out: seq<Option<real>>)
    requires 0 < n
    ensures |out| == |xs| && forall t | 0 <= t < |xs| :: out[t] == RankAt(xs, t, n)
  {
    hide NonDecreasing, CountLe, Rank, RankAt, FifoAt;
    var p := new PercentileRank(n);
    out := [];
    for t := 0 to |xs|
      invariant p.Valid() && fresh(p) && p.n == n && p.fifo == FifoAt(xs, t, n) && |out| == t
      invariant forall u | 0 <= u < t :: out[u] == RankAt(xs, u, n)
    {
      FifoStep(xs, t, n);
      var r := p.Update(xs[t]);
      out := out + [r];
    }
  }
}
