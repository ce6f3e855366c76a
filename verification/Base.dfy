/** Small shared vocabulary: optional values and the uniform time grid. */
module Base {

  datatype Option<+T> = None | Some(value: T)

  /** A witness of non-emptiness. */
  lemma Pick<T>(s: set<T>) returns (x: T)
    requires s != {}
    ensures x in s
  {
    if forall m :: m in s ==> false { assert false; }
    x :| x in s;
  }

  /** `m` lies on the grid of step `step` through `origin`. */
  ghost predicate OnGrid(origin: int, step: int, m: int)
    requires step > 0
  {
    (m - origin) % step == 0
  }

  lemma MulSign(k: int, s: int)
    requires s > 0
    ensures k >= 1 ==> k * s >= s
    ensures k <= -1 ==> k * s <= -s
  {
  }

  lemma Multiple(k: int, s: int)
    requires s > 0
    ensures (k * s) % s == 0
  {
    var q := (k * s) / s;
    assert (k * s) % s == (k - q) * s;
    MulSign(k - q, s);
  }

  lemma GridStep(origin: int, step: int, m: int)
    requires step > 0 && OnGrid(origin, step, m)
    ensures OnGrid(origin, step, m + step)
  {
    var k := (m - origin) / step;
    assert m + step - origin == (k + 1) * step;
    Multiple(k + 1, step);
  }

  /** Between two neighbouring grid points there is no third one. */
  lemma GridGap(origin: int, step: int, a: int, m: int)
    requires step > 0 && OnGrid(origin, step, a) && OnGrid(origin, step, m)
    requires a <= m < a + step
    ensures m == a
  {
    var i, j := (a - origin) / step, (m - origin) / step;
    assert m - a == (j - i) * step by {
      assert a - origin == i * step;
      assert m - origin == j * step;
    }
    MulSign(j - i, step);
  }

  // ---------------------------------------------------------------- numbers

  function Min(x: real, y: real): real {
    if x <= y then x else y
  }

  function Max(x: real, y: real): real {
    if x >= y then x else y
  }

  lemma ProductSign(a: real, b: real)
    requires a >= 0.0 && b >= 0.0
    ensures a * b >= 0.0
  {
  }

  lemma Quotient(a: real, k: real)
    requires k > 0.0
    ensures k * (a / k) == a
  {
  }

  // ---------------------------------------------------------------- sets

  /** The least element. */
  function MinOf(s: set<int>): (m: int)
    requires s != {}
    ensures m in s && forall x | x in s :: m <= x
  {
    HasMin(s);
    var m :| m in s && forall x | x in s :: m <= x;
    m
  }

  /** The greatest element. */
  function MaxOf(s: set<int>): (m: int)
    requires s != {}
    ensures m in s && forall x | x in s :: x <= m
  {
    HasMax(s);
    var m :| m in s && forall x | x in s :: x <= m;
    m
  }

  lemma {:induction false} HasMin(s: set<int>)
    requires s != {}
    ensures exists m :: m in s && forall x | x in s :: m <= x
    decreases |s|
  {
    var a := Pick(s);
    var rest := s - {a};
    assert forall x | x in s :: x == a || x in rest;
    if rest != {} {
      HasMin(rest);
    }
  }

  lemma {:induction false} HasMax(s: set<int>)
    requires s != {}
    ensures exists m :: m in s && forall x | x in s :: x <= m
    decreases |s|
  {
    var a := Pick(s);
    var rest := s - {a};
    assert forall x | x in s :: x == a || x in rest;
    if rest != {} {
      HasMax(rest);
    }
  }

  lemma SubsetSize<T>(a: set<T>, b: set<T>)
    requires a <= b
    ensures |a| <= |b| && (|a| == |b| ==> a == b)
  {
    assert b == a + (b - a);
  }

  // ---------------------------------------------------------------- sequences

  ghost predicate Distinct<T(!new)>(s: seq<T>) {
    forall i, j | 0 <= i < j < |s| :: s[i] != s[j]
  }

  lemma {:induction false} SizeOfDistinct<T(!new)>(s: seq<T>)
    requires Distinct(s)
    ensures |set x | x in s| == |s|
  {
    if s != [] {
      var n := |s| - 1;
      SizeOfDistinct(s[..n]);
      assert s == s[..n] + [s[n]];
      assert (set x | x in s) == (set x | x in s[..n]) + {s[n]};
    }
  }

  ghost predicate Ascending(s: seq<int>) {
    forall i, j | 0 <= i < j < |s| :: s[i] < s[j]
  }

  /** The elements of a set in ascending order. */
  function SortedKeys(keys: set<int>): (s: seq<int>)
    ensures forall k :: k in s <==> k in keys
    decreases |keys|
  {
    if keys == {} then [] else var m := MinOf(keys); [m] + SortedKeys(keys - {m})
  }

  lemma {:induction false} SortedKeysAscend(keys: set<int>)
    ensures Ascending(SortedKeys(keys)) && |SortedKeys(keys)| == |keys|
    decreases |keys|
  {
    if keys != {} {
      var m := MinOf(keys);
      SortedKeysAscend(keys - {m});
      PutFirst(m, SortedKeys(keys - {m}));
      hide MinOf, Ascending;
    }
  }

  lemma PutFirst(m: int, rest: seq<int>)
    requires Ascending(rest) && forall x | x in rest :: m < x
    ensures Ascending([m] + rest)
  {
    assert forall i | 0 <= i < |rest| :: rest[i] in rest;
  }

  lemma ConcatParts<T>(a: seq<T>, b: seq<T>)
    ensures a == [] ==> a + b == b
    ensures a != [] ==> (a + b)[0] == a[0] && (a + b)[1..] == a[1..] + b
  {
  }

  lemma ConcatAssociates<T>(a: seq<T>, b: seq<T>, c: seq<T>)
    ensures a + (b + c) == (a + b) + c
  {
  }

  // ---------------------------------------------------------------- sorted sequences

  predicate Before(a: (int, int), b: (int, int)) {
    a.0 < b.0 || (a.0 == b.0 && a.1 < b.1)
  }

  ghost predicate SortedBy<T>(s: seq<T>, key: T -> (int, int)) {
    forall i, j | 0 <= i < j < |s| :: Before(key(s[i]), key(s[j]))
  }

  /** A strictly sorted sequence is determined by its elements. */
  lemma {:induction false} SortedUnique<T>(s: seq<T>, t: seq<T>, key: T -> (int, int))
    requires SortedBy(s, key) && SortedBy(t, key)
    requires forall x :: x in s <==> x in t
    ensures s == t
    decreases |s|
  {
    assert s != [] ==> s[0] in t;
    assert t != [] ==> t[0] in s;
    if s != [] {
      FirstIsLeast(s, t[0], key);
      FirstIsLeast(t, s[0], key);
      TailMembers(s, key);
      TailMembers(t, key);
      SortedUnique(s[1..], t[1..], key);
      assert s == [s[0]] + s[1..] && t == [t[0]] + t[1..];
    }
  }

  lemma FirstIsLeast<T>(s: seq<T>, x: T, key: T -> (int, int))
    requires SortedBy(s, key) && s != [] && x in s
    ensures x == s[0] || Before(key(s[0]), key(x))
  {
  }

  lemma TailMembers<T>(s: seq<T>, key: T -> (int, int))
    requires SortedBy(s, key) && s != []
    ensures SortedBy(s[1..], key) && forall x :: x in s[1..] <==> x in s && x != s[0]
  {
    forall x ensures x in s[1..] <==> x in s && x != s[0] {
      if x in s[1..] {
        var i :| 0 <= i < |s[1..]| && s[1..][i] == x;
        assert s[i + 1] == x && Before(key(s[0]), key(s[i + 1]));
      }
      if x in s && x != s[0] {
        var i :| 0 <= i < |s| && s[i] == x;
        assert s[1..][i - 1] == x;
      }
    }
  }
}
