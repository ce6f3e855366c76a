/** Batch definitions of the window statistics, and the algebra of sliding a window by one value. */
module Statistics {
  import opened Base

  // ---------------------------------------------------------------- definitions

  function Sum(s: seq<real>): real {
    if s == [] then 0.0 else Sum(s[..|s| - 1]) + s[|s| - 1]
  }

  function Mean(s: seq<real>): real {
    if s == [] then 0.0 else Sum(s) / |s| as real
  }

  function Sq(x: real): real {
    x * x
  }

  function Times(x: real, y: real): real {
    x * y
  }

  /** Sum of squared deviations from `m`. */
  function Spread(s: seq<real>, m: real): real {
    if s == [] then 0.0 else Spread(s[..|s| - 1], m) + Sq(s[|s| - 1] - m)
  }

  /** S = sum of (x - mean)^2. */
  function Dispersion(s: seq<real>): real {
    Spread(s, Mean(s))
  }

  /** Sum of (k - xbar)(y_k - m). */
  function CoSpread(s: seq<real>, xbar: real, m: real): real {
    if s == [] then 0.0 else CoSpread(s[..|s| - 1], xbar, m) + Times((|s| - 1) as real - xbar, s[|s| - 1] - m)
  }

  function Centre(n: nat): real {
    (n as real - 1.0) / 2.0
  }

  /** S_xy of the window against 0, 1, ..., n - 1. */
  function CoDispersion(s: seq<real>): real {
    CoSpread(s, Centre(|s|), Mean(s))
  }

  /** Sum of (k - xbar)^2. */
  function XSpread(n: nat, xbar: real): real {
    if n == 0 then 0.0 else XSpread(n - 1, xbar) + Sq((n - 1) as real - xbar)
  }

  /** n (n^2 - 1) / 12. */
  function Sxx(n: nat): real {
    n as real * (n as real * n as real - 1.0) / 12.0
  }

  /** The last `n` values of a stream, or all of them while there are fewer. */
  function LastN(xs: seq<real>, n: nat): seq<real> {
    if |xs| <= n then xs else xs[|xs| - n..]
  }

  // ---------------------------------------------------------------- one-value updates

  function GrownMean(m: real, x: real, k: nat): real
    requires k > 0
  {
    m + (x - m) / k as real
  }

  function GrownS(s: real, m: real, x: real, m': real): real {
    s + (x - m) * (x - m')
  }

  function SlidMean(m: real, y: real, x: real, n: nat): real
    requires n > 0
  {
    m + (x - y) / n as real
  }

  function SlidS(s: real, y: real, x: real, m: real, m': real): real {
    s + (x - y) * (x - m' + y - m)
  }

  function SlidSxy(sxy: real, y: real, x: real, m: real, n: nat): real {
    sxy + 0.5 * (n as real + 1.0) * (y - m) + 0.5 * (n as real - 1.0) * (x - m)
  }

  // ---------------------------------------------------------------- sums

  lemma {:induction false} SumConcat(s: seq<real>, t: seq<real>)
    ensures Sum(s + t) == Sum(s) + Sum(t)
  {
    if t == [] {
      assert s + t == s;
    } else {
      assert (s + t)[..|s + t| - 1] == s + t[..|t| - 1];
      SumConcat(s, t[..|t| - 1]);
    }
  }

  lemma {:induction false} SpreadConcat(s: seq<real>, t: seq<real>, m: real)
    ensures Spread(s + t, m) == Spread(s, m) + Spread(t, m)
  {
    if t == [] {
      assert s + t == s;
    } else {
      assert (s + t)[..|s + t| - 1] == s + t[..|t| - 1];
      SpreadConcat(s, t[..|t| - 1], m);
    }
  }

  lemma SumEnds(y: real, t: seq<real>, x: real)
    ensures Sum([y] + t) == y + Sum(t) && Sum(t + [x]) == Sum(t) + x
  {
    SumConcat([y], t);
    SumConcat(t, [x]);
    assert Sum([y]) == y by { assert [y][..0] == []; }
    assert Sum([x]) == x by { assert [x][..0] == []; }
  }

  lemma SpreadEnds(y: real, t: seq<real>, x: real, m: real)
    ensures Spread([y] + t, m) == Sq(y - m) + Spread(t, m) && Spread(t + [x], m) == Spread(t, m) + Sq(x - m)
  {
    SpreadConcat([y], t, m);
    SpreadConcat(t, [x], m);
    assert Spread([y], m) == Sq(y - m) by { assert [y][..0] == []; }
    assert Spread([x], m) == Sq(x - m) by { assert [x][..0] == []; }
  }

  lemma MeanSum(s: seq<real>)
    ensures Sum(s) == |s| as real * Mean(s)
  {
  }

  lemma {:induction false} SpreadNonNegative(s: seq<real>, m: real)
    ensures Spread(s, m) >= 0.0
  {
    if s != [] {
      SpreadNonNegative(s[..|s| - 1], m);
      Positive(1.0, s[|s| - 1] - m);
      Distribute(Sq(s[|s| - 1] - m), 0.0, 0.0);
    }
  }

  lemma SquareShift(v: real, m: real, c: real)
    ensures Sq(v - c) == Sq(v - m) + Times(2.0 * (m - c), v - m) + Sq(m - c)
  {
  }

  lemma Distribute(a: real, b: real, c: real)
    ensures Times(a, b + c) == Times(a, b) + Times(a, c) && Times(a + b, c) == Times(a, c) + Times(b, c)
    ensures Times(1.0, a) == a && Times(0.0, a) == 0.0 && Times(a, 0.0) == 0.0
  {
  }

  /** What is left of the sum when `m` is taken from every value. */
  function Excess(s: seq<real>, m: real): real {
    Sum(s) - Times(|s| as real, m)
  }

  lemma ExcessGrows(s: seq<real>, m: real)
    requires s != []
    ensures Excess(s, m) == Excess(s[..|s| - 1], m) + (s[|s| - 1] - m)
  {
    Distribute((|s| - 1) as real, 1.0, m);
  }

  /** Moving the reference point from `m` to `c`. */
  lemma {:induction false} SpreadShift(s: seq<real>, m: real, c: real)
    ensures Spread(s, c) == Spread(s, m) + Times(2.0 * (m - c), Excess(s, m)) + Times(|s| as real, Sq(m - c))
  {
    hide Times, Sq, Excess;
    if s == [] {
      Distribute(2.0 * (m - c), 0.0, 0.0);
      Distribute(Sq(m - c), 0.0, 0.0);
      assert Excess(s, m) == 0.0 by { NoExcess(m); }
    } else {
      var n := |s| - 1;
      SpreadShift(s[..n], m, c);
      SquareShift(s[n], m, c);
      ExcessGrows(s, m);
      Distribute(2.0 * (m - c), Excess(s[..n], m), s[n] - m);
      Distribute(n as real, 1.0, Sq(m - c));
      Distribute(Sq(m - c), 0.0, 0.0);
    }
  }

  lemma NoExcess(m: real)
    ensures Excess([], m) == 0.0
  {
  }

  lemma MeanHasNoExcess(s: seq<real>)
    ensures Excess(s, Mean(s)) == 0.0
  {
    MeanSum(s);
  }

  /** The mean minimises the spread. */
  lemma SpreadAboutMean(s: seq<real>, c: real)
    ensures Spread(s, c) == Dispersion(s) + Times(|s| as real, Sq(Mean(s) - c))
  {
    SpreadShift(s, Mean(s), c);
    MeanHasNoExcess(s);
    Distribute(2.0 * (Mean(s) - c), 0.0, 0.0);
    hide Times, Sq;
  }

  // ---------------------------------------------------------------- Welford

  lemma GrowAlgebra(k: real, d: real, e: real)
    requires k * e == d
    ensures Times(k - 1.0, Sq(e)) + Sq(d - e) == d * (d - e)
  {
    assert Times(k - 1.0, Sq(e)) == (k * e) * e - Sq(e) == d * e - Sq(e);
    assert Sq(d - e) == Sq(d) - 2.0 * d * e + Sq(e);
    assert d * (d - e) == Sq(d) - d * e;
  }

  lemma SameQuotient(k: real, a: real, b: real)
    requires k > 0.0 && k * a == k * b
    ensures a == b
  {
    assert k * (a - b) == 0.0;
  }

  lemma MeanGrows(s: seq<real>, x: real)
    ensures Mean(s + [x]) == Mean(s) + (x - Mean(s)) / (|s| + 1) as real
  {
    var k := (|s| + 1) as real;
    var e := (x - Mean(s)) / k;
    MeanSum(s);
    MeanSum(s + [x]);
    SumEnds(0.0, s, x);
    assert k * e == x - Mean(s);
    assert k * (Mean(s) + e) == k * Mean(s) + k * e;
    assert k * Mean(s) == |s| as real * Mean(s) + Mean(s);
    SameQuotient(k, Mean(s) + e, Mean(s + [x]));
  }

  /** Adding a value while the window fills up. */
  lemma WelfordGrows(s: seq<real>, x: real)
    ensures Mean(s + [x]) == GrownMean(Mean(s), x, |s| + 1)
    ensures Dispersion(s + [x]) == GrownS(Dispersion(s), Mean(s), x, Mean(s + [x]))
  {
    var k := (|s| + 1) as real;
    var d := x - Mean(s);
    var e := d / k;
    var m := Mean(s) + e;
    MeanGrows(s, x);
    SpreadEnds(0.0, s, x, m);
    SpreadAboutMean(s, m);
    assert k * e == d;
    GrowAlgebra(k, d, e);
    SquareNegates(e);
    hide Times, Sq, Mean, Spread;
    assert Mean(s) - m == -e && x - m == d - e && |s| as real == k - 1.0;
  }

  lemma SquareNegates(e: real)
    ensures Sq(-e) == Sq(e)
  {
  }

  lemma SlideAlgebra(n: real, y: real, x: real, m: real, m': real)
    requires Times(n, m' - m) == x - y
    ensures Times(n, Sq(m - m')) + Sq(x - m') - Sq(y - m') == Times(x - y, x - m' + y - m)
  {
    var d := m' - m;
    assert Times(n, Sq(m - m')) == (n * d) * d == (x - y) * d;
    assert Sq(x - m') - Sq(y - m') == (x - y) * (x + y - 2.0 * m');
    assert (x - y) * d + (x - y) * (x + y - 2.0 * m') == (x - y) * (d + x + y - 2.0 * m');
  }

  lemma MeanSlides(y: real, t: seq<real>, x: real)
    ensures Mean(t + [x]) == Mean([y] + t) + (x - y) / (|t| + 1) as real
  {
    var w, n := [y] + t, (|t| + 1) as real;
    var e := (x - y) / n;
    MeanSum(w);
    MeanSum(t + [x]);
    SumEnds(y, t, x);
    assert n * e == x - y;
    assert n * (Mean(w) + e) == n * Mean(w) + n * e;
    SameQuotient(n, Mean(w) + e, Mean(t + [x]));
  }

  lemma DispersionSlides(y: real, t: seq<real>, x: real, m: real)
    requires Mean(t + [x]) == m && Times((|t| + 1) as real, m - Mean([y] + t)) == x - y
    ensures Dispersion(t + [x]) == Dispersion([y] + t) + Times(x - y, x - m + y - Mean([y] + t))
  {
    hide Times, Sq, Mean, Spread;
    SpreadEnds(y, t, x, m);
    SpreadAboutMean([y] + t, m);
    SlideAlgebra((|t| + 1) as real, y, x, Mean([y] + t), m);
  }

  /** Sliding a full window: the oldest value leaves and the new one enters. */
  lemma WelfordSlides(y: real, t: seq<real>, x: real)
    ensures var w := [y] + t;
            && Mean(t + [x]) == SlidMean(Mean(w), y, x, |w|)
            && Dispersion(t + [x]) == SlidS(Dispersion(w), y, x, Mean(w), Mean(t + [x]))
  {
    hide Mean, Dispersion;
    var w, n := [y] + t, (|t| + 1) as real;
    var e := (x - y) / n;
    MeanSlides(y, t, x);
    Quotient(x - y, n);
    assert Mean(w) + e - Mean(w) == e;
    DispersionSlides(y, t, x, Mean(w) + e);
  }

  // ---------------------------------------------------------------- least squares

  /** Weighted by position. */
  function Moment(s: seq<real>): real {
    if s == [] then 0.0 else Moment(s[..|s| - 1]) + Times((|s| - 1) as real, s[|s| - 1])
  }

  /** The deviations from the mean may be left uncentred on one side. */
  lemma {:induction false} CoSpreadIs(s: seq<real>, xbar: real, m: real)
    ensures CoSpread(s, xbar, m) == Moment(s) - Times(xbar, Excess(s, m)) - Times(m, XExcess(|s|, 0.0))
  {
    hide Times, Excess;
    if s == [] {
      NoExcess(m);
      Distribute(xbar, 0.0, 0.0);
      Distribute(m, 0.0, 0.0);
    } else {
      var n := |s| - 1;
      var t, v, k := s[..n], s[n], n as real;
      CoSpreadIs(t, xbar, m);
      ExcessGrows(s, m);
      Distribute(xbar, Excess(t, m), v - m);
      Distribute(m, XExcess(n, 0.0), k);
      Regroup(k, v, xbar, m);
    }
  }

  lemma Regroup(k: real, v: real, xbar: real, m: real)
    ensures Times(k - xbar, v - m) == Times(k, v) - Times(xbar, v - m) - Times(m, k)
  {
  }

  lemma CoDispersionIs(s: seq<real>)
    ensures CoDispersion(s) == Moment(s) - Centre(|s|) * Sum(s)
  {
    var c, m := Centre(|s|), Mean(s);
    CoSpreadIs(s, c, m);
    MeanHasNoExcess(s);
    Distribute(c, 0.0, 0.0);
    XExcessIs(|s|, 0.0);
    MeanSum(s);
    hide Excess, Mean, Moment, CoSpread;
    assert Times(m, |s| as real * c) == c * (|s| as real * m);
  }

  lemma {:induction false} MomentShifts(y: real, t: seq<real>)
    ensures Moment([y] + t) == Moment(t) + Sum(t)
  {
    if t == [] {
      assert [y] + t == [y] && [y][..0] == [];
    } else {
      var n := |t| - 1;
      assert ([y] + t)[..|t|] == [y] + t[..n];
      MomentShifts(y, t[..n]);
      assert (n + 1) as real * t[n] == n as real * t[n] + t[n];
    }
  }

  lemma CoAlgebra(n: real, y: real, x: real, m: real)
    ensures 0.5 * (n + 1.0) * (y - m) + 0.5 * (n - 1.0) * (x - m)
         == (1.0 + (n - 1.0) / 2.0) * y + (n - 1.0 - (n - 1.0) / 2.0) * x - n * m
  {
    var h := (n - 1.0) / 2.0;
    assert 0.5 * (n + 1.0) == h + 1.0 && 0.5 * (n - 1.0) == h && n - 1.0 - h == h;
    assert (h + 1.0) * (y - m) == (1.0 + h) * y - h * m - m;
    assert h * (x - m) == h * x - h * m;
    assert n * m == 2.0 * h * m + m;
  }

  /** Sliding S_xy: every x drops by one, the oldest y leaves, the new one enters at n - 1. */
  lemma OlsSlides(y: real, t: seq<real>, x: real)
    ensures var w := [y] + t; CoDispersion(t + [x]) == SlidSxy(CoDispersion(w), y, x, Mean(w), |w|)
  {
    var w, n, z := [y] + t, (|t| + 1) as real, t + [x];
    var c, m := Centre(|w|), Mean(w);
    CoDispersionIs(w);
    CoDispersionIs(z);
    SumEnds(y, t, x);
    MeanSum(w);
    MomentShifts(y, t);
    assert z[..|t|] == t;
    assert Moment(z) == Moment(t) + (n - 1.0) * x;
    assert c * Sum(z) == c * (Sum(t) + x) == c * Sum(t) + c * x;
    assert c * Sum(w) == c * (y + Sum(t)) == c * y + c * Sum(t);
    CoAlgebra(n, y, x, m);
    assert (1.0 + c) * y == y + c * y;
    assert (n - 1.0 - c) * x == (n - 1.0) * x - c * x;
  }

  lemma {:induction false} XSpreadIs(n: nat, c: real)
    ensures XSpread(n, c) == Sxx(n) + n as real * Sq(Centre(n) - c)
  {
    if n > 0 {
      XSpreadIs(n - 1, c);
      var k := (n - 1) as real;
      XAlgebra(k, c);
    }
  }

  lemma XAlgebra(k: real, c: real)
    ensures k * (k * k - 1.0) / 12.0 + k * Sq((k - 1.0) / 2.0 - c) + Sq(k - c)
         == (k + 1.0) * ((k + 1.0) * (k + 1.0) - 1.0) / 12.0 + (k + 1.0) * Sq(k / 2.0 - c)
  {
    var e := k / 2.0 - c;
    assert Sq((k - 1.0) / 2.0 - c) == Sq(e - 0.5) == Sq(e) - e + 0.25;
    assert Sq(k - c) == Sq(e + k / 2.0) == Sq(e) + k * e + k * k / 4.0;
    assert k * (Sq(e) - e + 0.25) == k * Sq(e) - k * e + 0.25 * k;
    assert (k + 1.0) * Sq(e) == k * Sq(e) + Sq(e);
    var q := k * k;
    assert k * (k * k - 1.0) == k * q - k;
    assert (k + 1.0) * (k + 1.0) - 1.0 == q + 2.0 * k;
    assert (k + 1.0) * (q + 2.0 * k) == k * q + 2.0 * q + q + 2.0 * k;
  }

  /** The constant denominator is what it stands for. */
  lemma SxxIsSpread(n: nat)
    ensures Sxx(n) == XSpread(n, Centre(n))
  {
    XSpreadIs(n, Centre(n));
  }

  lemma SxxPositive(n: nat)
    requires n >= 2
    ensures Sxx(n) > 0.0
  {
    var k := n as real;
    assert k * k >= 4.0;
    assert k * (k * k - 1.0) > 0.0;
  }

  /** Sum of squared errors of the line through (xbar, m + c) with slope `b`. */
  function Errors(s: seq<real>, xbar: real, m: real, b: real, c: real): real {
    if s == [] then 0.0
    else Errors(s[..|s| - 1], xbar, m, b, c) + Sq(s[|s| - 1] - m - Times(b, (|s| - 1) as real - xbar) - c)
  }

  lemma ErrorAlgebra(a: real, d: real, b: real, c: real)
    ensures Sq(a - Times(b, d) - c)
         == Sq(a) - Times(2.0 * b, Times(d, a)) + Times(Sq(b), Sq(d)) + Sq(c) - Times(2.0 * c, a)
           + Times(Times(2.0 * c, b), d)
  {
    var p := b * d;
    assert Sq(a - p - c) == Sq(a) + Sq(p) + Sq(c) - 2.0 * a * p - 2.0 * a * c + 2.0 * p * c;
    assert Sq(p) == Times(Sq(b), Sq(d));
    assert a * p == b * (d * a);
    assert 2.0 * p * c == Times(Times(2.0 * c, b), d);
  }

  /** Sum of (k - xbar). */
  function XExcess(n: nat, xbar: real): real {
    if n == 0 then 0.0 else XExcess(n - 1, xbar) + ((n - 1) as real - xbar)
  }

  lemma {:induction false} XExcessIs(n: nat, xbar: real)
    ensures XExcess(n, xbar) == n as real * (Centre(n) - xbar)
  {
    if n > 0 {
      XExcessIs(n - 1, xbar);
      var k := (n - 1) as real;
      assert (k + 1.0) * (k / 2.0 - xbar) == k * ((k - 1.0) / 2.0 - xbar) + (k - xbar);
    }
  }

  lemma {:induction false} ErrorsAre(s: seq<real>, xbar: real, m: real, b: real, c: real)
    ensures Errors(s, xbar, m, b, c)
         == Spread(s, m) - Times(2.0 * b, CoSpread(s, xbar, m)) + Times(Sq(b), XSpread(|s|, xbar))
           + Times(|s| as real, Sq(c))
            - Times(2.0 * c, Excess(s, m)) + Times(Times(2.0 * c, b), XExcess(|s|, xbar))
  {
    if s == [] {
      NoExcess(m);
      Nothing(2.0 * b, Sq(b), Sq(c), 2.0 * c, Times(2.0 * c, b));
      hide Times, Sq, Excess;
    } else {
      var n := |s| - 1;
      var t := s[..n];
      var a, d := s[n] - m, n as real - xbar;
      ErrorsAre(t, xbar, m, b, c);
      ErrorAlgebra(a, d, b, c);
      ExcessGrows(s, m);
      hide Times, Sq, Excess;
      Distribute(2.0 * b, CoSpread(t, xbar, m), Times(d, a));
      Distribute(Sq(b), XSpread(n, xbar), Sq(d));
      Distribute(n as real, 1.0, Sq(c));
      Distribute(Sq(c), 0.0, 0.0);
      Distribute(2.0 * c, Excess(t, m), a);
      Distribute(Times(2.0 * c, b), XExcess(n, xbar), d);
    }
  }

  lemma Nothing(a: real, b: real, c: real, d: real, e: real)
    ensures Times(a, 0.0) == Times(b, 0.0) == Times(0.0, c) == Times(d, 0.0) == Times(e, 0.0) == 0.0
  {
  }

  /** Centred: the error of any line is that of the slope alone plus the offset. */
  lemma CentredErrors(s: seq<real>, b: real, c: real)
    ensures Errors(s, Centre(|s|), Mean(s), b, c)
         == Dispersion(s) - Times(2.0 * b, CoDispersion(s)) + Times(Sq(b), Sxx(|s|)) + Times(|s| as real, Sq(c))
  {
    hide Times, Sq, Mean, Spread, Errors, CoSpread, Sxx, Excess, XExcess;
    ErrorsAre(s, Centre(|s|), Mean(s), b, c);
    SxxIsSpread(|s|);
    MeanHasNoExcess(s);
    assert XExcess(|s|, Centre(|s|)) == 0.0 by { XExcessIs(|s|, Centre(|s|)); }
    Nothing(2.0 * c, Times(2.0 * c, b), 0.0, 0.0, 0.0);
  }

  lemma CompleteSquare(sxx: real, sxy: real, b: real, q: real)
    requires Times(sxx, q) == sxy
    ensures Times(Sq(b), sxx) - Times(2.0 * b, sxy) == Times(sxx, Sq(b - q)) - Times(q, sxy)
  {
    assert sxx * Sq(b - q) == sxx * (b * b) - 2.0 * b * (sxx * q) + (sxx * q) * q;
  }

  lemma ZeroSquares(a: real, b: real)
    ensures Times(a, Sq(0.0)) == 0.0 && Times(b, Sq(0.0)) == 0.0
  {
  }

  function Ratio(a: real, b: real): real
    requires b > 0.0
  {
    a / b
  }

  function Slope(s: seq<real>): real
    requires |s| >= 2
  {
    SxxPositive(|s|);
    Ratio(CoDispersion(s), Sxx(|s|))
  }

  lemma SlopeIs(s: seq<real>)
    requires |s| >= 2
    ensures Times(Sxx(|s|), Slope(s)) == CoDispersion(s)
  {
    SxxPositive(|s|);
    hide Sxx, CoDispersion;
    Quotient(CoDispersion(s), Sxx(|s|));
  }

  /** The error of any line, split into the least error, the error of the slope and that of the offset. */
  lemma ErrorsSplit(s: seq<real>, b: real, c: real)
    requires |s| >= 2
    ensures var least := Dispersion(s) - Times(Slope(s), CoDispersion(s));
            && Errors(s, Centre(|s|), Mean(s), b, c)
               == least + Times(Sxx(|s|), Sq(b - Slope(s))) + Times(|s| as real, Sq(c))
            && Errors(s, Centre(|s|), Mean(s), Slope(s), 0.0) == least
  {
    hide Times, Sq, Mean, Errors, Dispersion, CoDispersion, Sxx, Slope;
    var sxx, sxy, q := Sxx(|s|), CoDispersion(s), Slope(s);
    SlopeIs(s);
    CentredErrors(s, b, c);
    CompleteSquare(sxx, sxy, b, q);
    CentredErrors(s, q, 0.0);
    CompleteSquare(sxx, sxy, q, q);
    ZeroSquares(sxx, |s| as real);
  }

  /** S_xy / S_xx is the least-squares slope: no line has a smaller squared error. */
  lemma SlopeIsLeastSquares(s: seq<real>, b: real, c: real)
    requires |s| >= 2
    ensures Errors(s, Centre(|s|), Mean(s), Slope(s), 0.0) <= Errors(s, Centre(|s|), Mean(s), b, c)
  {
    hide Times, Sq, Mean, Errors, Dispersion, CoDispersion, Sxx, Slope;
    SxxPositive(|s|);
    ErrorsSplit(s, b, c);
    Positive(Sxx(|s|), b - Slope(s));
    Positive(|s| as real, c);
  }

  lemma Positive(a: real, x: real)
    requires a >= 0.0
    ensures Times(a, Sq(x)) >= 0.0
  {
  }

  lemma {:induction false} ErrorsNonNegative(s: seq<real>, xbar: real, m: real, b: real, c: real)
    ensures Errors(s, xbar, m, b, c) >= 0.0
  {
    if s != [] {
      ErrorsNonNegative(s[..|s| - 1], xbar, m, b, c);
      var e := s[|s| - 1] - m - Times(b, (|s| - 1) as real - xbar) - c;
      Positive(1.0, e);
      Distribute(Sq(e), 0.0, 0.0);
    }
  }

  /** Cauchy-Schwarz. */
  lemma CauchySchwarz(s: seq<real>)
    requires |s| >= 2
    ensures CoDispersion(s) * CoDispersion(s) <= Sxx(|s|) * Dispersion(s)
  {
    hide Times, Sq, Mean, Errors, Dispersion, CoDispersion, Sxx, Slope;
    ErrorsSplit(s, 0.0, 0.0);
    ErrorsNonNegative(s, Centre(|s|), Mean(s), Slope(s), 0.0);
    SxxPositive(|s|);
    SlopeIs(s);
    Scale(Sxx(|s|), Slope(s), CoDispersion(s), Dispersion(s));
  }

  lemma Scale(sxx: real, q: real, sxy: real, syy: real)
    requires sxx > 0.0 && Times(q, sxy) <= syy && Times(sxx, q) == sxy
    ensures sxy * sxy <= sxx * syy
  {
    assert sxy * sxy == sxx * (q * sxy);
    assert sxx * (syy - q * sxy) >= 0.0;
  }

  function Share(sxx: real, sxy: real, syy: real): real
    requires sxx > 0.0 && syy > 0.0
  {
    sxy * sxy / (sxx * syy)
  }

  /** The spread is at the level of rounding noise. */
  predicate Noise(mean: real, syy: real, n: nat) {
    var tol := 0.000000001 * if mean < 0.0 then -mean else mean;
    syy <= n as real * tol * tol || syy <= 0.0
  }

  function RSquared(s: seq<real>): real
    requires |s| >= 2 && Dispersion(s) > 0.0
  {
    SxxPositive(|s|);
    Share(Sxx(|s|), CoDispersion(s), Dispersion(s))
  }

  /** R^2 never exceeds 1, and it is the explained share: one minus the residual error over the total. */
  lemma RSquaredIsShare(s: seq<real>)
    requires |s| >= 2 && Dispersion(s) > 0.0
    ensures 0.0 <= RSquared(s) <= 1.0
    ensures RSquared(s) == 1.0 - Errors(s, Centre(|s|), Mean(s), Slope(s), 0.0) / Dispersion(s)
  {
    hide Times, Sq, Mean, Errors, Dispersion, CoDispersion, Sxx, Slope;
    SxxPositive(|s|);
    CauchySchwarz(s);
    SlopeIs(s);
    ErrorsSplit(s, 0.0, 0.0);
    var sxx, sxy, syy, q := Sxx(|s|), CoDispersion(s), Dispersion(s), Slope(s);
    ShareAlgebra(sxx, sxy, syy, q);
    var err := Errors(s, Centre(|s|), Mean(s), q, 0.0);
    assert err == syy - Times(q, sxy);
    assert RSquared(s) == sxy * sxy / (sxx * syy);
  }

  lemma ShareAlgebra(sxx: real, sxy: real, syy: real, q: real)
    requires sxx > 0.0 && syy > 0.0 && sxy * sxy <= sxx * syy && Times(sxx, q) == sxy
    ensures sxx * syy > 0.0 && 0.0 <= sxy * sxy / (sxx * syy) <= 1.0
    ensures sxy * sxy / (sxx * syy) == 1.0 - (syy - Times(q, sxy)) / syy
  {
    var d, p, v := sxx * syy, sxy * sxy, Times(q, sxy);
    assert d > 0.0 && p >= 0.0;
    UnitQuotient(p, d);
    assert p == sxx * v;
    ShareOf(sxx, syy, v);
  }

  lemma ShareOf(sxx: real, syy: real, v: real)
    requires sxx > 0.0 && syy > 0.0 && sxx * syy > 0.0
    ensures sxx * v / (sxx * syy) == 1.0 - (syy - v) / syy
  {
    var r := v / syy;
    Quotient(v, syy);
    assert sxx * syy * r == sxx * (syy * r);
    Quotient(sxx * v, sxx * syy);
    SameQuotient(sxx * syy, r, sxx * v / (sxx * syy));
    Quotient(syy - v, syy);
    assert syy * (1.0 - r) == syy - v;
    SameQuotient(syy, 1.0 - r, (syy - v) / syy);
  }

  lemma UnitQuotient(p: real, d: real)
    requires 0.0 <= p <= d && d > 0.0
    ensures 0.0 <= p / d <= 1.0
  {
  }
}
