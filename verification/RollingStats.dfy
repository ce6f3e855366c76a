/** The sliding mean, variance and regression. Their ring buffers are proved to hold exactly the last `n` values and
    their running sums to equal the batch definitions, so resynchronisation and the clamps at zero change nothing. */
module RollingStats {
  import opened Base
  import opened Statistics

  lemma LastNLength(s: seq<real>, x: real, n: nat)
    requires 0 < n && |s| <= n
    ensures |LastN(s + [x], n)| == if |s| < n then |s| + 1 else n
  {
  }

  /** The last `n` of a stream need only the last `n` before. */
  lemma LastNStep(xs: seq<real>, x: real, n: nat)
    requires 0 < n
    ensures LastN(LastN(xs, n) + [x], n) == LastN(xs + [x], n)
  {
  }

  /** What the next value does to a window that is not full ... */
  lemma GrowLaw(w: seq<real>, x: real, n: nat)
    requires |w| < n
    ensures var z := LastN(w + [x], n);
            |z| == |w| + 1 && Mean(z) == GrownMean(Mean(w), x, |w| + 1)
              && Dispersion(z) == GrownS(Dispersion(w), Mean(w), x, Mean(z))
  {
    WelfordGrows(w, x);
  }

  /** ... and to a full one. */
  lemma SlideLaw(w: seq<real>, x: real, n: nat)
    requires 0 < n == |w|
    ensures var z := LastN(w + [x], n);
            && |z| == n && Mean(z) == SlidMean(Mean(w), w[0], x, n)
                 && Dispersion(z) == SlidS(Dispersion(w), w[0], x, Mean(w), Mean(z))
            && Dispersion(z) >= 0.0 && CoDispersion(z) == SlidSxy(CoDispersion(w), w[0], x, Mean(w), n)
  {
    var t := w[1..];
    assert w == [w[0]] + t;
    assert LastN(w + [x], n) == t + [x];
    hide Mean, Dispersion, CoDispersion, SlidMean, SlidS, SlidSxy, LastN;
    WelfordSlides(w[0], t, x);
    OlsSlides(w[0], t, x);
    DispersionNonNegative(t + [x]);
  }

  class Welford {
    const n: nat
    const resyncEvery: int
    const buf: array<real>
    var idx: nat
    var count: nat
    var mean: real
    var m2: real
    var since: int

    ghost function Window(): seq<real>
      requires idx <= buf.Length
      reads this, buf
    {
      if count < n then buf[..idx] else buf[idx..] + buf[..idx]
    }

    ghost predicate Placed()
      reads this, buf
    {
      0 < n == buf.Length && idx < n && count <= n && (count < n ==> idx == count)
    }

    ghost predicate Valid()
      reads this, buf
    {
      Placed() && mean == Mean(Window()) && m2 == Dispersion(Window())
    }

    constructor (n: nat, resyncEvery: int)
      requires 0 < n
      ensures Valid() && Window() == [] && this.n == n && fresh(buf)
    {
      this.n, this.resyncEvery := n, resyncEvery;
      buf := new real[n](_ => 0.0);
      idx, count, mean, m2, since := 0, 0, 0.0, 0.0, 0;
    }

    method SumBuffer() returns (r: real)
      ensures r == Sum(buf[..])
    {
      r := 0.0;
      for i := 0 to buf.Length
        invariant r == Sum(buf[..i])
      {
        assert buf[..i + 1][..i] == buf[..i];
        r := r + buf[i];
      }
      assert buf[..buf.Length] == buf[..];
    }

    method SpreadBuffer(m: real) returns (r: real)
      ensures r == Spread(buf[..], m)
    {
      r := 0.0;
      for i := 0 to buf.Length
        invariant r == Spread(buf[..i], m)
      {
        assert buf[..i + 1][..i] == buf[..i];
        r := r + Sq(buf[i] - m);
      }
      assert buf[..buf.Length] == buf[..];
    }

    /** Recomputing from the buffer, in whatever rotation it lies, changes nothing. */
    method Resync()
      requires Valid() && count == n
      modifies this`mean, this`m2
      ensures mean == old(mean) && m2 == old(m2)
    {
      ghost var w := Window();
      Rotation();
      var total := SumBuffer();
      mean := total / n as real;
      m2 := SpreadBuffer(mean);
    }

    lemma Rotation()
      requires Placed() && count == n
      ensures |Window()| == n && Sum(buf[..]) == Sum(Window()) && forall m :: Spread(buf[..], m) == Spread(Window(), m)
    {
      assert buf[..] == buf[..idx] + buf[idx..];
      SumConcat(buf[..idx], buf[idx..]);
      SumConcat(buf[idx..], buf[..idx]);
      forall m ensures Spread(buf[..], m) == Spread(Window(), m) {
        SpreadConcat(buf[..idx], buf[idx..], m);
        SpreadConcat(buf[idx..], buf[..idx], m);
      }
    }

    method Store(x: real)
      requires Placed()
      modifies this`idx, this`count, buf
      ensures Placed() && count == (if old(count) < n then old(count) + 1 else n)
      ensures Window() == LastN(old(Window()) + [x], n)
    {
      ghost var w := Window();
      buf[idx] := x;
      idx := if idx + 1 < n then idx + 1 else 0;
      if count < n {
        count := count + 1;
      }
      assert Window() == LastN(w + [x], n);
    }

    /** The window slides by one value and the result is its mean. */
    method Update(x: real) returns (r: Option<real>)
      requires Valid()
      modifies this, buf
      ensures Valid() && Window() == LastN(old(Window()) + [x], n)
      ensures r == if |Window()| < n then None else Some(Mean(Window()))
    {
      ghost var w := Window();
      hide Mean, Dispersion, GrownMean, GrownS, SlidMean, SlidS, LastN;
      if count < n {
        GrowLaw(w, x, n);
        var was := mean;
        mean := GrownMean(was, x, count + 1);
        m2 := GrownS(m2, was, x, mean);
      } else {
        var y := buf[idx];
        SlideLaw(w, x, n);
        var was := mean;
        mean := SlidMean(was, y, x, n);
        var next := SlidS(m2, y, x, was, mean);
        m2 := if next > 0.0 then next else 0.0;
      }
      Store(x);
      if count < n {
        return None;
      }
      since := since + 1;
      if since >= resyncEvery {
        since := 0;
        Resync();
      }
      r := Some(mean);
    }

    method Variance() returns (r: Option<real>)
      requires Valid()
      ensures r == if |Window()| < n then None else Some(BatchVariance(Window()))
    {
      r := if count == n then Some(m2 / n as real) else None;
    }
  }

  /** Population variance. */
  function BatchVariance(s: seq<real>): real {
    if s == [] then 0.0 else Dispersion(s) / |s| as real
  }

  lemma DispersionNonNegative(s: seq<real>)
    ensures Dispersion(s) >= 0.0
  {
    SpreadNonNegative(s, Mean(s));
  }

  /** The last `n` values when value `i` has just arrived; empty while there are fewer. */
  function WindowAt(xs: seq<real>, i: nat, n: nat): (w: seq<real>)
    requires i < |xs|
    ensures |w| == if i + 1 < n then 0 else n
  {
    if i + 1 < n then [] else xs[i + 1 - n..i + 1]
  }

  lemma WindowIs(xs: seq<real>, i: nat, n: nat)
    requires i < |xs| && 0 < n
    ensures LastN(LastN(xs[..i], n) + [xs[i]], n) == LastN(xs[..i + 1], n)
    ensures i + 1 >= n ==> LastN(xs[..i + 1], n) == WindowAt(xs, i, n) && |WindowAt(xs, i, n)| == n
    ensures i + 1 < n ==> |LastN(xs[..i + 1], n)| < n
  {
    LastNStep(xs[..i], xs[i], n);
    assert xs[..i] + [xs[i]] == xs[..i + 1];
    if i + 1 >= n {
      assert LastN(xs[..i + 1], n) == xs[i + 1 - n..i + 1];
    }
  }

  /** For every stream and window size, the sliding form yields the batch mean and variance of the last `n` values. */
  method SlidingMoments(xs: seq<real>, n: nat, resyncEvery: int)
      returns (means: seq<Option<real>>, vars: seq<Option<real>>)
    requires 0 < n
    ensures |means| == |vars| == |xs|
    ensures forall i | 0 <= i < |xs| :: means[i] == if i + 1 < n then None else Some(Mean(WindowAt(xs, i, n)))
    ensures forall i | 0 <= i < |xs| :: vars[i] == if i + 1 < n then None else Some(BatchVariance(WindowAt(xs, i, n)))
  {
    hide Mean, Dispersion, BatchVariance, LastN, WindowAt;
    var s := new Welford(n, resyncEvery);
    means, vars := [], [];
    assert xs[..0] == [] == LastN(xs[..0], n) by { NoneYet(n); }
    for i := 0 to |xs|
      invariant s.Valid() && fresh(s) && fresh(s.buf) && s.n == n && s.Window() == LastN(xs[..i], n)
                && |means| == |vars| == i
      invariant forall j | 0 <= j < i :: means[j] == if j + 1 < n then None else Some(Mean(WindowAt(xs, j, n)))
      invariant forall j | 0 <= j < i :: vars[j] == if j + 1 < n then None else Some(BatchVariance(WindowAt(xs, j, n)))
    {
      WindowIs(xs, i, n);
      var m := s.Update(xs[i]);
      var v := s.Variance();
      means, vars := means + [m], vars + [v];
    }
  }

  lemma NoneYet(n: nat)
    ensures LastN([], n) == []
  {
  }

  // ---------------------------------------------------------------- regression

  lemma NotNoise(mean: real, syy: real, n: nat)
    ensures Noise(mean, syy, n) || syy > 0.0
  {
  }

  class Ols {
    const n: nat
    const resyncEvery: int
    const buf: array<real>
    const sxx: real
    var idx: nat
    var count: nat
    var mean: real
    var syy: real
    var sxy: real
    var since: int

    ghost function Window(): seq<real>
      requires idx <= buf.Length
      reads this, buf
    {
      if count < n then buf[..idx] else buf[idx..] + buf[..idx]
    }

    ghost predicate Placed()
      reads this, buf
    {
      2 <= n == buf.Length && idx < n && count <= n && (count < n ==> idx == count)
    }

    /** The sums are only kept once the window is full. */
    ghost predicate Valid()
      reads this, buf
    {
      && Placed() && sxx == Sxx(n)
      && (count == n ==> mean == Mean(Window()) && syy == Dispersion(Window()) && sxy == CoDispersion(Window()))
    }

    constructor (n: nat, resyncEvery: int)
      requires 2 <= n
      ensures Valid() && Window() == [] && this.n == n && fresh(buf)
    {
      this.n, this.resyncEvery := n, resyncEvery;
      buf := new real[n](_ => 0.0);
      sxx := n as real * (n as real * n as real - 1.0) / 12.0;
      idx, count, mean, syy, sxy, since := 0, 0, 0.0, 0.0, 0.0, 0;
    }

    method Ordered() returns (ys: seq<real>)
      requires Placed() && count == n
      ensures ys == Window()
    {
      ys := buf[idx..] + buf[..idx];
    }

    method Resync()
      requires Placed() && count == n
      modifies this`mean, this`syy, this`sxy
      ensures mean == Mean(Window()) && syy == Dispersion(Window()) && sxy == CoDispersion(Window())
    {
      var ys := Ordered();
      var total := Total(ys);
      mean := total / n as real;
      assert mean == Mean(ys);
      hide Mean;
      syy, sxy := Deviations(ys, (n as real - 1.0) / 2.0, mean);
    }

    method Deviations(ys: seq<real>, xbar: real, m: real) returns (yy: real, xy: real)
      ensures yy == Spread(ys, m) && xy == CoSpread(ys, xbar, m)
    {
      hide Sq, Times;
      yy, xy := 0.0, 0.0;
      for k := 0 to |ys|
        invariant yy == Spread(ys[..k], m) && xy == CoSpread(ys[..k], xbar, m)
      {
        assert ys[..k + 1][..k] == ys[..k];
        yy := yy + Sq(ys[k] - m);
        xy := xy + Times(k as real - xbar, ys[k] - m);
      }
      assert ys[..|ys|] == ys;
    }

    method Total(ys: seq<real>) returns (r: real)
      ensures r == Sum(ys)
    {
      r := 0.0;
      for i := 0 to |ys|
        invariant r == Sum(ys[..i])
      {
        assert ys[..i + 1][..i] == ys[..i];
        r := r + ys[i];
      }
      assert ys[..|ys|] == ys;
    }

    method Store(y: real)
      requires Placed()
      modifies this`idx, this`count, buf
      ensures Placed() && count == (if old(count) < n then old(count) + 1 else n)
      ensures Window() == LastN(old(Window()) + [y], n)
    {
      ghost var w := Window();
      buf[idx] := y;
      idx := if idx + 1 < n then idx + 1 else 0;
      if count < n {
        count := count + 1;
      }
      assert Window() == LastN(w + [y], n);
    }

    /** The window slides by one value and the result is its least-squares slope. */
    method Update(y: real) returns (r: Option<real>)
      requires Valid()
      modifies this, buf
      ensures Valid() && Window() == LastN(old(Window()) + [y], n)
      ensures r == if |Window()| < n then None else Some(Statistics.Slope(Window()))
    {
      hide Mean, Dispersion, CoDispersion, Sxx, LastN, Ratio;
      SxxPositive(n);
      assert |old(Window())| == count;
      LastNLength(old(Window()), y, n);
      if count < n {
        Store(y);
        if count < n {
          return None;
        }
        since := 0;
        Resync();
      } else {
        Slide(y);
        since := since + 1;
        if since >= resyncEvery {
          since := 0;
          Resync();
        }
      }
      r := Some(Ratio(sxy, sxx));
    }

    method Slide(y: real)
      requires Valid() && count == n
      modifies this`idx, this`count, this`mean, this`syy, this`sxy, buf
      ensures Valid() && count == n && Window() == LastN(old(Window()) + [y], n)
    {
      ghost var w := Window();
      hide Mean, Dispersion, CoDispersion, Sxx, SlidMean, SlidS, SlidSxy, LastN;
      var y0, was := buf[idx], mean;
      SlideLaw(w, y, n);
      sxy := SlidSxy(sxy, y0, y, was, n);
      mean := SlidMean(was, y0, y, n);
      var next := SlidS(syy, y0, y, was, mean);
      syy := if next > 0.0 then next else 0.0;
      Store(y);
    }

    /** Zero for a window without spread beyond rounding noise, otherwise R^2 - which is at most 1 by itself. */
    method R2() returns (r: Option<real>)
      requires Valid()
      ensures |Window()| < n ==> r.None?
      ensures |Window()| == n ==>
                var w := Window();
                && r.Some? && 0.0 <= r.value <= 1.0
                && (Noise(Mean(w), Dispersion(w), n) ==> r.value == 0.0)
                && (!Noise(Mean(w), Dispersion(w), n) ==> Dispersion(w) > 0.0 && r.value == RSquared(w))
    {
      if count != n {
        return None;
      }
      SxxPositive(n);
      NotNoise(mean, syy, n);
      hide Mean, Dispersion, CoDispersion, Sxx, Share, Noise;
      if Noise(mean, syy, n) {
        return Some(0.0);
      }
      RSquaredIsShare(Window());
      var r2 := Share(sxx, sxy, syy);
      r := Some(if r2 > 1.0 then 1.0 else r2);
    }
  }

  /** For every stream and window size, the sliding regression yields the least-squares slope of the last `n` values. */
  method SlidingSlopes(ys: seq<real>, n: nat, resyncEvery: int) returns (slopes: seq<Option<real>>)
    requires 2 <= n
    ensures |slopes| == |ys|
    ensures forall i | 0 <= i < |ys| ::
              slopes[i] == if i + 1 < n then None else Some(Statistics.Slope(WindowAt(ys, i, n)))
  {
    hide Statistics.Slope, Mean, Dispersion, CoDispersion, Sxx, LastN, WindowAt;
    var s := new Ols(n, resyncEvery);
    slopes := [];
    assert ys[..0] == [] == LastN(ys[..0], n) by { NoneYet(n); }
    for i := 0 to |ys|
      invariant s.Valid() && fresh(s) && fresh(s.buf) && s.n == n && s.Window() == LastN(ys[..i], n) && |slopes| == i
      invariant forall j | 0 <= j < i ::
                  slopes[j] == if j + 1 < n then None else Some(Statistics.Slope(WindowAt(ys, j, n)))
    {
      WindowIs(ys, i, n);
      var r := s.Update(ys[i]);
      slopes := slopes + [r];
    }
  }
}
