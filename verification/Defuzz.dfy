/** Defuzzification by the centroid on a uniform grid, and the two inference paths of the engine. */
module Defuzz {
  import opened Base
  import opened Statistics
  import opened Mamdani

  // ---------------------------------------------------------------- grid and weights

  datatype Scheme = Rect | Trapezoid | Simpson

  function Delta(nodes: nat, lo: real, hi: real): real
    requires nodes >= 2
  {
    (hi - lo) / (nodes - 1) as real
  }

  predicate Supported(nodes: nat, scheme: Scheme) {
    nodes >= 3 && (scheme.Simpson? ==> (nodes - 1) % 2 == 0)
  }

  /** The weight of node `j` in steps. */
  function Factor(nodes: nat, scheme: Scheme, j: nat): real {
    match scheme
    case Rect => 1.0
    case Trapezoid => if j == 0 || j + 1 == nodes then 0.5 else 1.0
    case Simpson => if j == 0 || j + 1 == nodes then 1.0 / 3.0 else if j % 2 == 1 then 4.0 / 3.0 else 2.0 / 3.0
  }

  /** None: the scheme does not support that many nodes (the source raises). */
  method QuadratureWeights(nodes: nat, scheme: Scheme, lo: real, hi: real) returns (r: Option<seq<real>>)
    ensures r.Some? <==> Supported(nodes, scheme)
    ensures r.Some? ==> |r.value| == nodes && forall j | 0 <= j < nodes ::
            r.value[j] == Times(Factor(nodes, scheme, j), Delta(nodes, lo, hi))
  {
    if nodes < 3 {
      return None;
    }
    var delta := Delta(nodes, lo, hi);
    var w := new real[nodes](_ => delta);
    Distribute(delta, 0.0, 0.0);
    hide Times;
    if scheme.Trapezoid? {
      w[0] := Times(0.5, delta);
      w[nodes - 1] := Times(0.5, delta);
    } else if scheme.Simpson? {
      if (nodes - 1) % 2 != 0 {
        return None;
      }
      SimpsonWeights(w, delta);
    }
    r := Some(w[..]);
  }

  method SimpsonWeights(w: array<real>, delta: real)
    requires w.Length >= 3 && (w.Length - 1) % 2 == 0
    modifies w
    ensures forall j | 0 <= j < w.Length :: w[j] == Times(Factor(w.Length, Simpson, j), delta)
  {
    hide Times;
    var nodes := w.Length;
    for j := 0 to nodes
      invariant forall i | 0 <= i < j :: w[i] == Times(2.0 / 3.0, delta)
    {
      w[j] := Times(2.0 / 3.0, delta);
    }
    var j := 1;
    while j < nodes - 1
      invariant j % 2 == 1 && 1 <= j <= nodes
      invariant forall i | 0 <= i < nodes :: w[i] == Times(if i % 2 == 1 && i < j then 4.0 / 3.0 else 2.0 / 3.0, delta)
    {
      w[j] := Times(4.0 / 3.0, delta);
      j := j + 2;
    }
    w[0] := Times(1.0 / 3.0, delta);
    w[nodes - 1] := Times(1.0 / 3.0, delta);
  }

  /** c + h (2j - n) / n, the form that is exactly antisymmetric about the centre. */
  function Node(nodes: nat, lo: real, hi: real, j: int): real
    requires nodes >= 2
  {
    (lo + hi) / 2.0 + (hi - lo) / 2.0 * ((2 * j - (nodes - 1)) as real / (nodes - 1) as real)
  }

  lemma NodeAlgebra(lo: real, hi: real, j: real, n: real)
    requires n > 0.0
    ensures (lo + hi) / 2.0 + (hi - lo) / 2.0 * ((2.0 * j - n) / n) == lo + j * ((hi - lo) / n)
  {
    var h, q := (hi - lo) / 2.0, j / n;
    assert (2.0 * j - n) / n == 2.0 * q - 1.0 by {
      assert n * (2.0 * q - 1.0) == 2.0 * (n * q) - n == 2.0 * j - n;
      Quotient(2.0 * j - n, n);
      SameQuotient(n, 2.0 * q - 1.0, (2.0 * j - n) / n);
    }
    assert h * (2.0 * q - 1.0) == 2.0 * h * q - h;
    assert j * ((hi - lo) / n) == 2.0 * h * q by {
      var s := (hi - lo) / n;
      assert n * s == 2.0 * h;
      assert j == n * q;
      assert j * s == q * (n * s);
    }
  }

  /** The nodes run from `lo` to `hi` in equal steps. */
  lemma NodesAreUniform(nodes: nat, lo: real, hi: real, j: int)
    requires nodes >= 2
    ensures Node(nodes, lo, hi, j) == lo + j as real * Delta(nodes, lo, hi)
    ensures Node(nodes, lo, hi, 0) == lo && Node(nodes, lo, hi, nodes - 1) == hi
  {
    var n := (nodes - 1) as real;
    NodeAlgebra(lo, hi, j as real, n);
    NodeAlgebra(lo, hi, 0.0, n);
    NodeAlgebra(lo, hi, n, n);
    Quotient(hi - lo, n);
  }

  lemma NodeInside(nodes: nat, lo: real, hi: real, j: int)
    requires nodes >= 2 && 0 <= j < nodes && lo <= hi
    ensures lo <= Node(nodes, lo, hi, j) <= hi
  {
    var n, d := (nodes - 1) as real, Delta(nodes, lo, hi);
    NodesAreUniform(nodes, lo, hi, j);
    assert d >= 0.0 && n * d == hi - lo by { Quotient(hi - lo, n); }
    Within(j as real, n, d);
  }

  lemma Within(j: real, n: real, d: real)
    requires 0.0 <= j <= n && d >= 0.0
    ensures 0.0 <= j * d <= n * d
  {
    assert (n - j) * d >= 0.0;
  }

  /** Mirror images about the centre. */
  lemma NodeMirror(nodes: nat, lo: real, hi: real, j: int)
    requires nodes >= 2
    ensures Node(nodes, lo, hi, nodes - 1 - j) == (lo + hi) - Node(nodes, lo, hi, j)
  {
    var n, h := (nodes - 1) as real, (hi - lo) / 2.0;
    var a, b := (2 * j - (nodes - 1)) as real / n, (2 * (nodes - 1 - j) - (nodes - 1)) as real / n;
    assert b == -a by {
      assert (2 * (nodes - 1 - j) - (nodes - 1)) as real == -((2 * j - (nodes - 1)) as real);
    }
    assert h * b == -(h * a);
  }

  lemma FactorMirror(nodes: nat, scheme: Scheme, j: nat)
    requires Supported(nodes, scheme) && j < nodes
    ensures Factor(nodes, scheme, j) > 0.0 && Factor(nodes, scheme, nodes - 1 - j) == Factor(nodes, scheme, j)
  {
  }

  function FactorSum(nodes: nat, scheme: Scheme, k: nat): real {
    if k == 0 then 0.0 else FactorSum(nodes, scheme, k - 1) + Factor(nodes, scheme, k - 1)
  }

  lemma {:induction false} FactorSumIs(nodes: nat, scheme: Scheme, k: nat)
    requires Supported(nodes, scheme) && 1 <= k < nodes
    ensures FactorSum(nodes, scheme, k) == match scheme
                                           case Rect => k as real
                                           case Trapezoid => k as real - 0.5
                                           case Simpson => k as real - (if k % 2 == 1 then 2.0 / 3.0 else 1.0 / 3.0)
  {
    if k > 1 {
      FactorSumIs(nodes, scheme, k - 1);
    } else {
      assert FactorSum(nodes, scheme, 0) == 0.0;
    }
  }

  /** Trapezoid and Simpson weights integrate a constant exactly; the rectangles count one step too many. */
  lemma WeightsIntegrateConstants(nodes: nat, scheme: Scheme)
    requires Supported(nodes, scheme)
    ensures FactorSum(nodes, scheme, nodes) == (nodes - 1) as real + if scheme.Rect? then 1.0 else 0.0
  {
    FactorSumIs(nodes, scheme, nodes - 1);
  }

  // ---------------------------------------------------------------- the centroid

  function Dot(a: seq<real>, b: seq<real>): real
    requires |a| == |b|
  {
    if a == [] then 0.0 else Dot(a[..|a| - 1], b[..|b| - 1]) + Times(a[|a| - 1], b[|b| - 1])
  }

  function Weighted(w: seq<real>, u: seq<real>): (wu: seq<real>)
    requires |w| == |u|
    ensures |wu| == |w|
  {
    if w == [] then [] else Weighted(w[..|w| - 1], u[..|u| - 1]) + [Times(w[|w| - 1], u[|u| - 1])]
  }

  lemma {:induction false} WeightedAt(w: seq<real>, u: seq<real>, j: nat)
    requires |w| == |u| && j < |w|
    ensures Weighted(w, u)[j] == Times(w[j], u[j])
  {
    if j < |w| - 1 {
      WeightedAt(w[..|w| - 1], u[..|u| - 1], j);
    }
  }

  /** Clipped to [lo, hi]; an empty activation gives 0. */
  function CentroidWeighted(w: seq<real>, wu: seq<real>, mu: seq<real>, lo: real, hi: real): real
    requires |w| == |wu| == |mu|
  {
    var den := Dot(w, mu);
    if !(den > 0.0) then 0.0
    else
      var u := Dot(wu, mu) / den;
      if u < lo then lo else if u > hi then hi else u
  }

  /** A grid with positive weights on it. */
  ghost predicate Mesh(w: seq<real>, u: seq<real>, lo: real, hi: real) {
    |w| == |u| && forall j | 0 <= j < |w| :: w[j] > 0.0 && lo <= u[j] <= hi
  }

  lemma TermBounds(w: real, u: real, mu: real, lo: real, hi: real)
    requires w > 0.0 && mu >= 0.0 && lo <= u <= hi
    ensures Times(lo, Times(w, mu)) <= Times(Times(w, u), mu) <= Times(hi, Times(w, mu)) && Times(w, mu) >= 0.0
    ensures Times(w, mu) > 0.0 <==> mu > 0.0
  {
    var p := w * mu;
    assert p >= 0.0;
    assert (w * u) * mu == u * p;
    ProductSign(u - lo, p);
    ProductSign(hi - u, p);
    assert (u - lo) * p == u * p - lo * p && (hi - u) * p == hi * p - u * p;
    assert mu > 0.0 ==> p > 0.0;
  }

  lemma {:induction false} MomentBounds(w: seq<real>, u: seq<real>, mu: seq<real>, lo: real, hi: real)
    requires Mesh(w, u, lo, hi) && |mu| == |w| && NonNegative(mu)
    ensures Times(lo, Dot(w, mu)) <= Dot(Weighted(w, u), mu) <= Times(hi, Dot(w, mu))
    ensures Dot(w, mu) >= 0.0 && (Dot(w, mu) > 0.0 <==> exists j :: 0 <= j < |mu| && mu[j] > 0.0)
  {
    if w == [] {
      Distribute(lo, 0.0, 0.0);
      Distribute(hi, 0.0, 0.0);
    } else {
      var n := |w| - 1;
      MomentBounds(w[..n], u[..n], mu[..n], lo, hi);
      TermBounds(w[n], u[n], mu[n], lo, hi);
      Distribute(lo, Dot(w[..n], mu[..n]), Times(w[n], mu[n]));
      Distribute(hi, Dot(w[..n], mu[..n]), Times(w[n], mu[n]));
      hide Times;
      assert Weighted(w, u)[..n] == Weighted(w[..n], u[..n]);
      Somewhere(mu);
    }
  }

  lemma Somewhere(mu: seq<real>)
    requires mu != []
    ensures var n := |mu| - 1;
            (exists j :: 0 <= j < |mu| && mu[j] > 0.0) <==> (mu[n] > 0.0 || exists j :: 0 <= j < n && mu[..n][j] > 0.0)
  {
    var n := |mu| - 1;
    if exists j :: 0 <= j < n && mu[..n][j] > 0.0 {
      var j :| 0 <= j < n && mu[..n][j] > 0.0;
      assert mu[j] > 0.0;
    }
    if j :| 0 <= j < |mu| && mu[j] > 0.0 {
      assert j < n ==> mu[..n][j] > 0.0;
    }
  }

  /** The clipping never acts: an active aggregate has its quotient inside [lo, hi]; an empty one gives exactly 0. */
  lemma CentroidInside(w: seq<real>, u: seq<real>, mu: seq<real>, lo: real, hi: real)
    requires Mesh(w, u, lo, hi) && |mu| == |w| && NonNegative(mu)
    ensures (exists j :: 0 <= j < |mu| && mu[j] > 0.0) ==>
              && Dot(w, mu) > 0.0
              && lo <= Dot(Weighted(w, u), mu) / Dot(w, mu) <= hi
              && CentroidWeighted(w, Weighted(w, u), mu, lo, hi) == Dot(Weighted(w, u), mu) / Dot(w, mu)
    ensures (forall j | 0 <= j < |mu| :: mu[j] <= 0.0) ==> CentroidWeighted(w, Weighted(w, u), mu, lo, hi) == 0.0
  {
    MomentBounds(w, u, mu, lo, hi);
    if Dot(w, mu) > 0.0 {
      Bracket(lo, hi, Dot(Weighted(w, u), mu), Dot(w, mu));
    }
  }

  lemma Bracket(lo: real, hi: real, num: real, den: real)
    requires den > 0.0 && Times(lo, den) <= num <= Times(hi, den)
    ensures lo <= num / den <= hi
  {
    Quotient(num, den);
    var q := num / den;
    Ordered(lo, q, den);
    Ordered(q, hi, den);
  }

  lemma Ordered(a: real, b: real, k: real)
    requires k > 0.0 && a * k <= b * k
    ensures a <= b
  {
    assert a > b ==> (a - b) * k > 0.0;
  }

  // ---------------------------------------------------------------- symmetry

  function Reversed(s: seq<real>): (r: seq<real>)
    ensures |r| == |s| && forall j | 0 <= j < |s| :: r[j] == s[|s| - 1 - j]
  {
    if s == [] then [] else [s[|s| - 1]] + Reversed(s[..|s| - 1])
  }

  lemma {:induction false} DotFront(x: real, a: seq<real>, y: real, b: seq<real>)
    requires |a| == |b|
    ensures Dot([x] + a, [y] + b) == Times(x, y) + Dot(a, b)
  {
    var p, q := [x] + a, [y] + b;
    if a == [] {
      assert p[..0] == [] && q[..0] == [];
    } else {
      var n := |a| - 1;
      assert p[..|p| - 1] == [x] + a[..n] && q[..|q| - 1] == [y] + b[..n];
      DotFront(x, a[..n], y, b[..n]);
    }
  }

  lemma {:induction false} DotReversed(a: seq<real>, b: seq<real>)
    requires |a| == |b|
    ensures Dot(Reversed(a), Reversed(b)) == Dot(a, b)
  {
    if a != [] {
      var n := |a| - 1;
      DotReversed(a[..n], b[..n]);
      DotFront(a[n], Reversed(a[..n]), b[n], Reversed(b[..n]));
    }
  }

  lemma PairSum(w: real, u: real, total: real, mu: real)
    ensures Times(Times(w, u), mu) + Times(Times(w, total - u), mu) == Times(total, Times(w, mu))
  {
    assert w * u + w * (total - u) == w * total;
    assert (w * u) * mu + (w * (total - u)) * mu == (w * total) * mu;
  }

  lemma DotLast(a: seq<real>, b: seq<real>)
    requires |a| == |b| > 0
    ensures var n := |a| - 1; Dot(a, b) == Dot(a[..n], b[..n]) + Times(a[n], b[n])
  {
  }

  lemma WeightedInit(w: seq<real>, u: seq<real>)
    requires |w| == |u| > 0
    ensures var n, a := |w| - 1, Weighted(w, u); a[..n] == Weighted(w[..n], u[..n]) && a[n] == Times(w[n], u[n])
  {
    hide Times;
  }

  lemma DotWeighted(w: seq<real>, u: seq<real>, mu: seq<real>)
    requires |w| == |u| == |mu| > 0
    ensures var n := |w| - 1;
            Dot(Weighted(w, u), mu) == Dot(Weighted(w[..n], u[..n]), mu[..n]) + Times(Times(w[n], u[n]), mu[n])
  {
    hide Times, Dot;
    var n, a := |w| - 1, Weighted(w, u);
    WeightedInit(w, u);
    hide Weighted;
    DotLast(a, mu);
  }

  lemma {:induction false} MirrorSum(w: seq<real>, u: seq<real>, v: seq<real>, mu: seq<real>, total: real)
    requires |w| == |u| == |v| == |mu| && forall j | 0 <= j < |u| :: v[j] == total - u[j]
    ensures Dot(Weighted(w, u), mu) + Dot(Weighted(w, v), mu) == Times(total, Dot(w, mu))
  {
    hide Times;
    if w == [] {
      Distribute(total, 0.0, 0.0);
    } else {
      hide Dot, Weighted;
      var n := |w| - 1;
      assert v[n] == total - u[n];
      MirrorSum(w[..n], u[..n], v[..n], mu[..n], total);
      PairSum(w[n], u[n], total, mu[n]);
      Distribute(total, Dot(w[..n], mu[..n]), Times(w[n], mu[n]));
      DotWeighted(w, u, mu);
      DotWeighted(w, v, mu);
      DotLast(w, mu);
    }
  }

  /** A symmetric activation on a symmetric mesh has its centroid exactly in the middle: no bias to either side. */
  lemma SymmetricIsCentred(w: seq<real>, u: seq<real>, mu: seq<real>, lo: real, hi: real)
    requires Mesh(w, u, lo, hi) && |mu| == |w| && NonNegative(mu) && exists j :: 0 <= j < |mu| && mu[j] > 0.0
    requires Reversed(w) == w && Reversed(mu) == mu && forall j | 0 <= j < |u| :: Reversed(u)[j] == lo + hi - u[j]
    ensures CentroidWeighted(w, Weighted(w, u), mu, lo, hi) == (lo + hi) / 2.0
  {
    hide Times, Dot, CentroidWeighted, Reversed, Weighted;
    CentroidInside(w, u, mu, lo, hi);
    MirrorMoment(w, u, mu, lo + hi);
    Halve(Dot(Weighted(w, u), mu), lo + hi, Dot(w, mu));
  }

  lemma MirrorMoment(w: seq<real>, u: seq<real>, mu: seq<real>, total: real)
    requires |w| == |u| == |mu| && Reversed(w) == w && Reversed(mu) == mu
    requires forall j | 0 <= j < |u| :: Reversed(u)[j] == total - u[j]
    ensures var num := Dot(Weighted(w, u), mu); num + num == Times(total, Dot(w, mu))
  {
    hide Times, Dot, Reversed, Weighted;
    var v, wu := Reversed(u), Weighted(w, u);
    WeightedReversed(w, u);
    DotReversed(wu, mu);
    MirrorSum(w, u, v, mu, total);
  }

  /** Weighting and reversing commute. */
  lemma {:induction false} WeightedReversed(w: seq<real>, u: seq<real>)
    requires |w| == |u|
    ensures Reversed(Weighted(w, u)) == Weighted(Reversed(w), Reversed(u))
  {
    hide Times;
    if w != [] {
      var n := |w| - 1;
      WeightedReversed(w[..n], u[..n]);
      WeightedInit(w, u);
      WeightedFront(w[n], Reversed(w[..n]), u[n], Reversed(u[..n]));
    }
  }

  lemma {:induction false} WeightedFront(x: real, a: seq<real>, y: real, b: seq<real>)
    requires |a| == |b|
    ensures Weighted([x] + a, [y] + b) == [Times(x, y)] + Weighted(a, b)
  {
    hide Times;
    var p, q := [x] + a, [y] + b;
    WeightedInit(p, q);
    if a == [] {
      assert p[..0] == [] && q[..0] == [];
    } else {
      var n := |a| - 1;
      assert p[..|a|] == [x] + a[..n] && q[..|a|] == [y] + b[..n];
      WeightedFront(x, a[..n], y, b[..n]);
      WeightedInit(a, b);
    }
  }

  lemma Halve(num: real, total: real, den: real)
    requires den > 0.0 && num + num == Times(total, den)
    ensures num / den == total / 2.0
  {
    Quotient(num, den);
    assert den * (total / 2.0) == num;
    SameQuotient(den, total / 2.0, num / den);
  }

  /** The engine's own grid and weights, for every scheme: a symmetric mesh of positive weights. */
  lemma EngineMesh(nodes: nat, scheme: Scheme, lo: real, hi: real, w: seq<real>, u: seq<real>)
    requires Supported(nodes, scheme) && lo < hi && |w| == |u| == nodes
    requires forall j | 0 <= j < nodes ::
             w[j] == Times(Factor(nodes, scheme, j), Delta(nodes, lo, hi)) && u[j] == Node(nodes, lo, hi, j)
    ensures Mesh(w, u, lo, hi) && Reversed(w) == w && forall j | 0 <= j < nodes :: Reversed(u)[j] == lo + hi - u[j]
  {
    var d := Delta(nodes, lo, hi);
    assert d > 0.0;
    forall j | 0 <= j < nodes
      ensures w[j] > 0.0 && lo <= u[j] <= hi && w[nodes - 1 - j] == w[j] && u[nodes - 1 - j] == lo + hi - u[j]
    {
      FactorMirror(nodes, scheme, j);
      NodeInside(nodes, lo, hi, j);
      NodeMirror(nodes, lo, hi, j);
      PositiveProduct(Factor(nodes, scheme, j), d);
      hide Factor, Node, Times;
    }
    hide Reversed, Factor, Node, Times, Delta;
    assert forall j | 0 <= j < nodes :: Reversed(w)[j] == w[j];
  }

  lemma PositiveProduct(a: real, b: real)
    requires a > 0.0 && b > 0.0
    ensures Times(a, b) > 0.0
  {
  }

  // ---------------------------------------------------------------- inference

  /** `mu[j][k]` is the degree of node `j` in output term `k`. */
  datatype Engine = Engine(rules: seq<Compiled>, nU: nat, w: seq<real>, grid: seq<real>, mu: seq<seq<real>>, lo: real,
      hi: real)

  ghost predicate ValidEngine(e: Engine) {
    && e.nU > 0 && Mesh(e.w, e.grid, e.lo, e.hi) && |e.mu| == |e.w|
    && forall j | 0 <= j < |e.mu| :: |e.mu[j]| == e.nU && NonNegative(e.mu[j])
  }

  function Aggregate(beta: seq<real>, mu: seq<seq<real>>): (r: seq<real>)
    requires |beta| > 0 && forall j | 0 <= j < |mu| :: |mu[j]| == |beta|
    ensures |r| == |mu| && forall j | 0 <= j < |mu| :: r[j] == OverTerms(beta, mu[j], |beta|)
  {
    if mu == [] then [] else Aggregate(beta, mu[..|mu| - 1]) + [OverTerms(beta, mu[|mu| - 1], |beta|)]
  }

  /** No term is active. */
  predicate Quiet(beta: seq<real>) {
    forall k | 0 <= k < |beta| :: beta[k] <= 0.0
  }

  function Output(e: Engine, beta: seq<real>): real
    requires ValidEngine(e) && |beta| == e.nU
  {
    if Quiet(beta) then 0.0 else CentroidWeighted(e.w, Weighted(e.w, e.grid), Aggregate(beta, e.mu), e.lo, e.hi)
  }

  /** The result the textbook form prescribes, from strengths that are unique. */
  ghost predicate Prescribed(e: Engine, d: Degrees, u: real)
    requires ValidEngine(e) && AllFit(e.rules, d, e.nU)
  {
    exists beta :: |beta| == e.nU && Strengths(e.rules, d, beta) && u == Output(e, beta)
  }

  lemma PrescribedUnique(e: Engine, d: Degrees, u: real, v: real)
    requires ValidEngine(e) && AllFit(e.rules, d, e.nU) && Prescribed(e, d, u) && Prescribed(e, d, v)
    ensures u == v
  {
    hide Strengths, Output;
    var a :| |a| == e.nU && Strengths(e.rules, d, a) && u == Output(e, a);
    var b :| |b| == e.nU && Strengths(e.rules, d, b) && v == Output(e, b);
    StrengthsUnique(e.rules, d, a, b);
  }

  /** The fast path. */
  method InferU(e: Engine, d: Degrees) returns (u: real)
    requires ValidEngine(e) && AllFit(e.rules, d, e.nU)
    ensures Prescribed(e, d, u)
  {
    var beta := GroupedRules(e.rules, d, e.nU);
    hide Strengths, AllFit, CentroidWeighted;
    if Quiet(beta) {
      u := 0.0;
    } else {
      u := CentroidWeighted(e.w, Weighted(e.w, e.grid), Aggregate(beta, e.mu), e.lo, e.hi);
    }
    assert u == Output(e, beta);
  }

  /** The traced path: also which rules fired and the aggregate. */
  method Infer(e: Engine, d: Degrees) returns (u: real, fired: seq<nat>, agg: seq<real>)
    requires ValidEngine(e) && AllFit(e.rules, d, e.nU)
    ensures Prescribed(e, d, u) && |agg| == |e.w|
    ensures forall i | 0 <= i < |e.rules| :: i in fired <==> Alpha(e.rules[i], d) > 0.0
    ensures e.rules != [] && NonNegative(d.t) && NonNegative(d.r) && NonNegative(d.v) ==>
              forall j | 0 <= j < |agg| :: RuleAggregate(e.rules, d, e.mu[j], agg[j])
  {
    var beta;
    beta, fired := AllRules(e.rules, d, e.nU);
    agg := Aggregate(beta, e.mu);
    if e.rules != [] && NonNegative(d.t) && NonNegative(d.r) && NonNegative(d.v) {
      forall j | 0 <= j < |agg| ensures RuleAggregate(e.rules, d, e.mu[j], agg[j]) {
        TermsEqualRules(e.rules, d, beta, e.mu[j]);
      }
    }
    hide Strengths, AllFit, CentroidWeighted, Alpha, RuleAggregate, OverTerms;
    if Quiet(beta) {
      u := 0.0;
    } else {
      u := CentroidWeighted(e.w, Weighted(e.w, e.grid), agg, e.lo, e.hi);
    }
    assert u == Output(e, beta);
  }

  /** The fast path returns what the traced path returns: both return the one prescribed number. */
  method FastEqualsTraced(e: Engine, d: Degrees) returns (fast: real, traced: real)
    requires ValidEngine(e) && AllFit(e.rules, d, e.nU)
    ensures fast == traced && Prescribed(e, d, fast) && Prescribed(e, d, traced)
  {
    hide Prescribed;
    fast := InferU(e, d);
    var fired, agg;
    traced, fired, agg := Infer(e, d);
    PrescribedUnique(e, d, fast, traced);
  }

  /** The output is 0 when nothing is active and otherwise a point of the output range. */
  lemma OutputInRange(e: Engine, d: Degrees, u: real)
    requires ValidEngine(e) && AllFit(e.rules, d, e.nU) && Prescribed(e, d, u)
    ensures u == 0.0 || e.lo <= u <= e.hi
    ensures (forall i | 0 <= i < |e.rules| :: Alpha(e.rules[i], d) <= 0.0) ==> u == 0.0
  {
    var beta :| |beta| == e.nU && Strengths(e.rules, d, beta) && u == Output(e, beta);
    var agg := Aggregate(beta, e.mu);
    forall j | 0 <= j < |agg| ensures agg[j] >= 0.0 {
      OverTermsIs(beta, e.mu[j], e.nU);
      assert Strongest(e.rules, d, e.nU, 0, beta[0]);
      assert Min(beta[0], e.mu[j][0]) >= 0.0;
    }
    CentroidInside(e.w, e.grid, agg, e.lo, e.hi);
    if forall i | 0 <= i < |e.rules| :: Alpha(e.rules[i], d) <= 0.0 {
      forall k | 0 <= k < |beta| ensures beta[k] <= 0.0 {
        assert Strongest(e.rules, d, e.nU, k, beta[k]);
      }
    }
  }
}
