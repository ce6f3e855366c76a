/** Wilder's ATR and RSI: the streaming updates against the batch definitions. */
module Wilder {
  import opened Base
  import opened Statistics

  // ---------------------------------------------------------------- Wilder's average

  function Blend(avg: real, x: real, n: nat): real
    requires n > 0
  {
    (avg * (n - 1) as real + x) / n as real
  }

  /** The mean of the first `n` values, then one nth of each further value blended in. */
  function Smoothed(xs: seq<real>, n: nat): real
    requires 0 < n <= |xs|
  {
    if |xs| == n then Ratio(Sum(xs), n as real) else Blend(Smoothed(xs[..|xs| - 1], n), xs[|xs| - 1], n)
  }

  /** The incremental form of the blend. */
  function Nudged(avg: real, x: real, n: nat): real
    requires n > 0
  {
    avg + (x - avg) / n as real
  }

  lemma BlendIsNudge(avg: real, x: real, n: nat)
    requires n > 0
    ensures Nudged(avg, x, n) == Blend(avg, x, n)
  {
    var k := n as real;
    var d := (x - avg) / k;
    Quotient(x - avg, k);
    assert k * (avg + d) == k * avg + (x - avg) == avg * (k - 1.0) + x;
    Quotient(avg * (k - 1.0) + x, k);
    SameQuotient(k, avg + d, (avg * (k - 1.0) + x) / k);
  }

  lemma {:induction false} SumBounds(xs: seq<real>, lo: real, hi: real)
    requires forall i | 0 <= i < |xs| :: lo <= xs[i] <= hi
    ensures Times(|xs| as real, lo) <= Sum(xs) <= Times(|xs| as real, hi)
  {
    hide Times;
    if xs == [] {
      Distribute(lo, 0.0, 0.0);
      Distribute(hi, 0.0, 0.0);
    } else {
      var n := |xs| - 1;
      SumBounds(xs[..n], lo, hi);
      Distribute(n as real, 1.0, lo);
      Distribute(lo, 0.0, 0.0);
      Distribute(n as real, 1.0, hi);
      Distribute(hi, 0.0, 0.0);
    }
  }

  lemma DivideBounds(lo: real, hi: real, s: real, k: real)
    requires k > 0.0 && Times(k, lo) <= s <= Times(k, hi)
    ensures lo <= s / k <= hi
  {
    Quotient(s, k);
    var q := s / k;
    assert q < lo ==> k * (lo - q) > 0.0;
    assert q > hi ==> k * (q - hi) > 0.0;
  }

  /** The average never leaves the range of the values. */
  lemma {:induction false} SmoothedWithin(xs: seq<real>, n: nat, lo: real, hi: real)
    requires 0 < n <= |xs| && forall i | 0 <= i < |xs| :: lo <= xs[i] <= hi
    ensures lo <= Smoothed(xs, n) <= hi
  {
    if |xs| == n {
      SumBounds(xs, lo, hi);
      DivideBounds(lo, hi, Sum(xs), n as real);
    } else {
      var avg, x := Smoothed(xs[..|xs| - 1], n), xs[|xs| - 1];
      SmoothedWithin(xs[..|xs| - 1], n, lo, hi);
      hide Smoothed;
      BlendWithin(avg, x, n, lo, hi);
    }
  }

  lemma BlendWithin(avg: real, x: real, n: nat, lo: real, hi: real)
    requires n > 0 && lo <= avg <= hi && lo <= x <= hi
    ensures lo <= Blend(avg, x, n) <= hi
  {
    var k := n as real;
    ProductSign(avg - lo, k - 1.0);
    ProductSign(hi - avg, k - 1.0);
    assert avg * (k - 1.0) + x >= lo * (k - 1.0) + lo == k * lo;
    assert avg * (k - 1.0) + x <= hi * (k - 1.0) + hi == k * hi;
    DivideBounds(lo, hi, avg * (k - 1.0) + x, k);
  }

  // ---------------------------------------------------------------- ATR

  datatype Hlc = Hlc(h: real, l: real, c: real)

  function AbsOf(x: real): real {
    if x < 0.0 then -x else x
  }

  function TrueRange(bar: Hlc, prev: real): real {
    Max(Max(bar.h - bar.l, AbsOf(bar.h - prev)), AbsOf(bar.l - prev))
  }

  /** One true range per bar from the second on. */
  function TrueRanges(bars: seq<Hlc>): (trs: seq<real>)
    ensures |trs| == if bars == [] then 0 else |bars| - 1
  {
    if |bars| < 2 then [] else TrueRanges(bars[..|bars| - 1]) + [TrueRange(bars[|bars| - 1], bars[|bars| - 2].c)]
  }

  function BatchAtr(bars: seq<Hlc>, n: nat): Option<real>
    requires n > 0
  {
    if |bars| <= n then None else Some(Smoothed(TrueRanges(bars), n))
  }

  class Atr {
    const n: nat
    var prevClose: Option<real>
    var count: nat
    var sum: real
    var value: Option<real>
    ghost var bars: seq<Hlc>

    ghost predicate Valid()
      reads this
    {
      && 0 < n && prevClose == (if bars == [] then None else Some(bars[|bars| - 1].c))
      && value == BatchAtr(bars, n)
      && (|bars| <= n ==> count == |TrueRanges(bars)| && sum == Sum(TrueRanges(bars)))
    }

    constructor (n: nat)
      requires 0 < n
      ensures Valid() && bars == [] && this.n == n
    {
      this.n := n;
      prevClose, count, sum, value := None, 0, 0.0, None;
      bars := [];
    }

    /** The result is the batch ATR of all bars so far. */
    method Update(bar: Hlc) returns (r: Option<real>)
      requires Valid()
      modifies this
      ensures Valid() && bars == old(bars) + [bar] && r == BatchAtr(bars, n)
    {
      ghost var was := bars;
      var pc := prevClose;
      prevClose := Some(bar.c);
      bars := bars + [bar];
      assert bars[..|was|] == was;
      if pc.None? {
        return None;
      }
      var tr := TrueRange(bar, pc.value);
      assert TrueRanges(bars) == TrueRanges(was) + [tr];
      ghost var trs := TrueRanges(was);
      assert (trs + [tr])[..|trs|] == trs;
      hide TrueRange, TrueRanges, Blend, Nudged;
      if value.Some? {
        BlendIsNudge(value.value, tr, n);
        value := Some(Nudged(value.value, tr, n));
        return value;
      }
      count := count + 1;
      sum := sum + tr;
      if count == n {
        value := Some(Ratio(sum, n as real));
      }
      r := value;
    }
  }

  // ---------------------------------------------------------------- RSI

  function Gain(d: real): real {
    if d > 0.0 then d else 0.0
  }

  function Loss(d: real): real {
    if d < 0.0 then -d else 0.0
  }

  /** Gains (or losses) of the closes from the second on. */
  function Changes(cs: seq<real>, up: bool): (xs: seq<real>)
    ensures |xs| == if cs == [] then 0 else |cs| - 1
  {
    if |cs| < 2 then []
    else
      var d := cs[|cs| - 1] - cs[|cs| - 2];
      Changes(cs[..|cs| - 1], up) + [if up then Gain(d) else Loss(d)]
  }

  lemma {:induction false} ChangesNonNegative(cs: seq<real>, up: bool)
    ensures forall i | 0 <= i < |Changes(cs, up)| :: Changes(cs, up)[i] >= 0.0
  {
    if |cs| >= 2 {
      ChangesNonNegative(cs[..|cs| - 1], up);
    }
  }

  lemma AverageNonNegative(cs: seq<real>, up: bool, n: nat)
    requires 0 < n < |cs|
    ensures Smoothed(Changes(cs, up), n) >= 0.0
  {
    ChangesNonNegative(cs, up);
    SmoothedWithinZero(Changes(cs, up), n);
  }

  /** The textbook index, with its two exceptions. */
  function BatchIndex(g: real, l: real): real
    requires g >= 0.0 && l >= 0.0
  {
    if l == 0.0 then (if g > 0.0 then 100.0 else 50.0)
    else
      assert g / l >= 0.0 by { Fraction(g, l); }
      100.0 - 100.0 / (1.0 + g / l)
  }

  lemma Fraction(g: real, l: real)
    requires g >= 0.0 && l > 0.0
    ensures g / l >= 0.0
  {
  }

  /** The form that needs no division by the losses. */
  function Index(g: real, l: real): real {
    if g + l > 0.0 then 100.0 * g / (g + l) else 50.0
  }

  /** The two forms agree, and the index lies in [0, 100]. */
  lemma IndexForms(g: real, l: real)
    requires g >= 0.0 && l >= 0.0
    ensures Index(g, l) == BatchIndex(g, l) && 0.0 <= Index(g, l) <= 100.0
  {
    if g + l > 0.0 {
      DivideBounds(0.0, 100.0, 100.0 * g, g + l);
      if l > 0.0 {
        var q := g / l;
        Quotient(g, l);
        Fraction(g, l);
        IndexAlgebra(g, l, q);
      } else {
        Quotient(100.0 * g, g);
        SameQuotient(g, 100.0, 100.0 * g / g);
      }
    }
  }

  lemma IndexAlgebra(g: real, l: real, q: real)
    requires l > 0.0 && l * q == g && q >= 0.0
    ensures g + l > 0.0 && 100.0 * g / (g + l) == 100.0 - 100.0 / (1.0 + q)
  {
    ProductSign(l, q);
    var t := 1.0 / (1.0 + q);
    Quotient(1.0, 1.0 + q);
    assert g + l == l * (1.0 + q);
    assert (g + l) * t == l * ((1.0 + q) * t) == l;
    assert (g + l) * (100.0 - 100.0 * t) == 100.0 * g;
    Quotient(100.0 * g, g + l);
    SameQuotient(g + l, 100.0 - 100.0 * t, 100.0 * g / (g + l));
    assert 100.0 / (1.0 + q) == 100.0 * t;
  }

  function BatchRsi(cs: seq<real>, n: nat): Option<real>
    requires n > 0
  {
    if |cs| <= n then None
    else
      AverageNonNegative(cs, true, n);
      AverageNonNegative(cs, false, n);
      Some(BatchIndex(Smoothed(Changes(cs, true), n), Smoothed(Changes(cs, false), n)))
  }

  lemma {:induction false} SmoothedWithinZero(xs: seq<real>, n: nat)
    requires 0 < n <= |xs| && forall i | 0 <= i < |xs| :: xs[i] >= 0.0
    ensures Smoothed(xs, n) >= 0.0
  {
    if |xs| == n {
      SumNonNegative(xs);
      Fraction(Sum(xs), n as real);
    } else {
      SmoothedWithinZero(xs[..|xs| - 1], n);
      ProductSign(Smoothed(xs[..|xs| - 1], n), (n - 1) as real);
      Fraction(Smoothed(xs[..|xs| - 1], n) * (n - 1) as real + xs[|xs| - 1], n as real);
    }
  }

  lemma {:induction false} SumNonNegative(xs: seq<real>)
    requires forall i | 0 <= i < |xs| :: xs[i] >= 0.0
    ensures Sum(xs) >= 0.0
  {
    if xs != [] {
      SumNonNegative(xs[..|xs| - 1]);
    }
  }

  class Rsi {
    const n: nat
    var prev: Option<real>
    var count: nat
    var sumG: real
    var sumL: real
    var avgG: real
    var avgL: real
    var value: Option<real>
    ghost var closes: seq<real>

    /** Sums while the first `n` changes come in, Wilder averages from then on. */
    ghost predicate Averages(cs: seq<real>)
      requires 0 < n
      reads this
    {
      && (|cs| <= n ==>
            count == |Changes(cs, true)| && sumG == Sum(Changes(cs, true)) && sumL == Sum(Changes(cs, false)))
      && (|cs| > n ==> avgG == Smoothed(Changes(cs, true), n) && avgL == Smoothed(Changes(cs, false), n))
    }

    ghost predicate Valid()
      reads this
    {
      && 0 < n && prev == (if closes == [] then None else Some(closes[|closes| - 1]))
      && value == BatchRsi(closes, n) && Averages(closes)
    }

    constructor (n: nat)
      requires 0 < n
      ensures Valid() && closes == [] && this.n == n
    {
      this.n := n;
      prev, count, sumG, sumL, avgG, avgL, value := None, 0, 0.0, 0.0, 0.0, 0.0, None;
      closes := [];
    }

    /** The result is the batch RSI of all closes so far. */
    method Update(c: real) returns (r: Option<real>)
      requires Valid()
      modifies this
      ensures Valid() && closes == old(closes) + [c] && r == BatchRsi(closes, n)
    {
      hide BatchRsi, Changes, Smoothed, Index, Gain, Loss, Sum;
      ghost var was := closes;
      var pc := prev;
      prev := Some(c);
      closes := closes + [c];
      RsiIs(was, n);
      RsiIs(closes, n);
      if pc.None? {
        assert Changes(closes, true) == Changes(was, true) == [] && Changes(closes, false) == Changes(was, false) == [];
        return None;
      }
      var d := c - pc.value;
      var ready := Average(Gain(d), Loss(d), was, c);
      if !ready {
        return None;
      }
      value := Some(Index(avgG, avgL));
      r := value;
    }

    /** `ready` once there are `n` changes. */
    method Average(g: real, l: real, ghost was: seq<real>, ghost c: real) returns (ready: bool)
      requires 0 < n && was != [] && Averages(was) && (value.None? <==> |was| <= n)
      requires g == Gain(c - was[|was| - 1]) && l == Loss(c - was[|was| - 1])
      modifies this`count, this`sumG, this`sumL, this`avgG, this`avgL
      ensures Averages(was + [c]) && (ready <==> |was + [c]| > n)
    {
      Grown(was, c, true, g, n);
      Grown(was, c, false, l, n);
      hide Changes, Smoothed, Blend, Nudged, Gain, Loss, Sum, Ratio;
      if value.None? {
        count := count + 1;
        sumG, sumL := sumG + g, sumL + l;
        if count < n {
          return false;
        }
        avgG, avgL := Ratio(sumG, n as real), Ratio(sumL, n as real);
      } else {
        BlendIsNudge(avgG, g, n);
        BlendIsNudge(avgL, l, n);
        avgG, avgL := Nudged(avgG, g, n), Nudged(avgL, l, n);
      }
      ready := true;
    }
  }

  lemma RsiIs(cs: seq<real>, n: nat)
    requires n > 0
    ensures BatchRsi(cs, n) == if |cs| <= n then None
            else Some(Index(Smoothed(Changes(cs, true), n), Smoothed(Changes(cs, false), n)))
  {
    if |cs| > n {
      AverageNonNegative(cs, true, n);
      AverageNonNegative(cs, false, n);
      IndexForms(Smoothed(Changes(cs, true), n), Smoothed(Changes(cs, false), n));
      hide Index, Smoothed, Changes;
    }
  }

  /** One more close: one more change, and what that does to sum and average. */
  lemma Grown(cs: seq<real>, c: real, up: bool, x: real, n: nat)
    requires cs != [] && n > 0
    requires x == var d := c - cs[|cs| - 1]; if up then Gain(d) else Loss(d)
    ensures var xs, ys := Changes(cs, up), Changes(cs + [c], up);
            && |ys| == |xs| + 1 && Sum(ys) == Sum(xs) + x
            && (|ys| == n ==> Smoothed(ys, n) == Ratio(Sum(ys), n as real))
            && (|ys| > n ==> Smoothed(ys, n) == Blend(Smoothed(xs, n), x, n))
  {
    var xs, ys := Changes(cs, up), Changes(cs + [c], up);
    assert (cs + [c])[..|cs|] == cs;
    assert ys == xs + [x];
    assert ys[..|xs|] == xs;
  }

  /** For every series and period the streaming ATR is the batch ATR, and lies between the least and the greatest
      range. */
  method StreamAtr(bars: seq<Hlc>, n: nat) returns (out: seq<Option<real>>)
    requires 0 < n
    ensures |out| == |bars| && forall i | 0 <= i < |bars| :: out[i] == BatchAtr(bars[..i + 1], n)
  {
    var a := new Atr(n);
    out := [];
    for i := 0 to |bars|
      invariant a.Valid() && fresh(a) && a.n == n && a.bars == bars[..i] && |out| == i
      invariant forall j | 0 <= j < i :: out[j] == BatchAtr(bars[..j + 1], n)
    {
      hide BatchAtr;
      assert bars[..i] + [bars[i]] == bars[..i + 1];
      var r := a.Update(bars[i]);
      out := out + [r];
    }
  }

  method StreamRsi(cs: seq<real>, n: nat) returns (out: seq<Option<real>>)
    requires 0 < n
    ensures |out| == |cs| && forall i | 0 <= i < |cs| :: out[i] == BatchRsi(cs[..i + 1], n)
  {
    hide BatchRsi, Changes, Smoothed, Sum;
    var a := new Rsi(n);
    out := [];
    for i := 0 to |cs|
      invariant a.Valid() && fresh(a) && a.n == n && a.closes == cs[..i] && |out| == i
      invariant forall j | 0 <= j < i :: out[j] == BatchRsi(cs[..j + 1], n)
    {
      assert cs[..i] + [cs[i]] == cs[..i + 1];
      var r := a.Update(cs[i]);
      out := out + [r];
    }
  }

  /** The index always lies in [0, 100]. */
  lemma RsiInRange(cs: seq<real>, n: nat)
    requires 0 < n < |cs|
    ensures BatchRsi(cs, n).Some? && 0.0 <= BatchRsi(cs, n).value <= 100.0
  {
    var g, l := Smoothed(Changes(cs, true), n), Smoothed(Changes(cs, false), n);
    AverageNonNegative(cs, true, n);
    AverageNonNegative(cs, false, n);
    IndexForms(g, l);
    hide Index, Changes, Smoothed;
  }

  /** The ATR lies between the least and the greatest true range. */
  lemma AtrInRange(bars: seq<Hlc>, n: nat, lo: real, hi: real)
    requires 0 < n < |bars| && forall x | x in TrueRanges(bars) :: lo <= x <= hi
    ensures BatchAtr(bars, n).Some? && lo <= BatchAtr(bars, n).value <= hi
  {
    var trs := TrueRanges(bars);
    assert forall i | 0 <= i < |trs| :: trs[i] in trs;
    SmoothedWithin(trs, n, lo, hi);
  }
}
