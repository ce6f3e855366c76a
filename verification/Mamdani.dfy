/** Mamdani max-min inference: the compiled, grouped and per-term form against the textbook per-rule form. */
module Mamdani {
  import opened Base
  import opened Rules

  // ---------------------------------------------------------------- compiled rules

  /** Indices of the three terms ("any" is the last slot), of the consequent, and the weight. */
  datatype Compiled = Compiled(t: nat, r: nat, v: nat, u: nat, w: real)

  /** Position of a term; the length of the list if it is not in it. */
  function IndexOf(names: seq<string>, term: string): (i: nat)
    ensures i <= |names| && (i < |names| <==> term in names) && (i < |names| ==> names[i] == term)
  {
    if names == [] then 0
    else
      assert names == [names[0]] + names[1..];
      if names[0] == term then 0 else 1 + IndexOf(names[1..], term)
  }

  function Slot(names: seq<string>, term: string): (i: nat)
    ensures i <= |names|
  {
    if term == ANY then |names| else IndexOf(names, term)
  }

  function Compile(m: Membership, r: Rule): Compiled
    requires r.antecedent.Keys == {"T", "R", "V"}
  {
    Compiled(Slot(m.T, r.antecedent["T"]), Slot(m.R, r.antecedent["R"]), Slot(m.V, r.antecedent["V"]),
      IndexOf(m.U, r.consequent), r.w)
  }

  /** Degrees of membership of one input in its terms, with the constant 1 of "any" at the end. */
  datatype Degrees = Degrees(t: seq<real>, r: seq<real>, v: seq<real>)

  ghost predicate Fits(c: Compiled, d: Degrees, nU: nat) {
    c.t < |d.t| && c.r < |d.r| && c.v < |d.v| && c.u < nU && c.w > 0.0
  }

  ghost predicate AllFit(cs: seq<Compiled>, d: Degrees, nU: nat) {
    forall i | 0 <= i < |cs| :: Fits(cs[i], d, nU)
  }

  /** Firing strength. */
  function Alpha(c: Compiled, d: Degrees): real
    requires c.t < |d.t| && c.r < |d.r| && c.v < |d.v|
  {
    Min(Min(d.t[c.t], d.r[c.r]), d.v[c.v]) * c.w
  }

  lemma AlphaSign(c: Compiled, d: Degrees, nU: nat)
    requires Fits(c, d, nU)
    ensures d.t[c.t] <= 0.0 ==> Alpha(c, d) <= 0.0
    ensures Alpha(c, d) > 0.0 <==> d.t[c.t] > 0.0 && d.r[c.r] > 0.0 && d.v[c.v] > 0.0
  {
    var x := Min(Min(d.t[c.t], d.r[c.r]), d.v[c.v]);
    assert x > 0.0 ==> x * c.w > 0.0;
    assert x <= 0.0 ==> x * c.w <= 0.0;
  }

  // ---------------------------------------------------------------- strengths of the output terms

  /** `b` is the largest strength of the rules that conclude term `k`, and 0 if none is positive. */
  ghost predicate Strongest(cs: seq<Compiled>, d: Degrees, nU: nat, k: nat, b: real)
    requires AllFit(cs, d, nU)
  {
    && b >= 0.0
    && (forall i | 0 <= i < |cs| && cs[i].u == k :: Alpha(cs[i], d) <= b)
    && (b == 0.0 || exists i :: 0 <= i < |cs| && cs[i].u == k && Alpha(cs[i], d) == b)
  }

  ghost predicate Strengths(cs: seq<Compiled>, d: Degrees, beta: seq<real>)
    requires AllFit(cs, d, |beta|)
  {
    forall k | 0 <= k < |beta| :: Strongest(cs, d, |beta|, k, beta[k])
  }

  /** The strengths are determined. */
  lemma StrengthsUnique(cs: seq<Compiled>, d: Degrees, a: seq<real>, b: seq<real>)
    requires |a| == |b| && AllFit(cs, d, |a|) && Strengths(cs, d, a) && Strengths(cs, d, b)
    ensures a == b
  {
    hide Alpha;
    forall k | 0 <= k < |a| ensures a[k] == b[k] {
      assert Strongest(cs, d, |a|, k, a[k]) && Strongest(cs, d, |b|, k, b[k]);
    }
  }

  /** One more rule. */
  lemma StrengthsGrow(cs: seq<Compiled>, c: Compiled, d: Degrees, beta: seq<real>)
    requires AllFit(cs, d, |beta|) && Fits(c, d, |beta|) && Strengths(cs, d, beta)
    ensures AllFit(cs + [c], d, |beta|)
    ensures Strengths(cs + [c], d, beta[c.u := Max(beta[c.u], Alpha(c, d))])
  {
    hide Alpha;
    var a, next := Alpha(c, d), beta[c.u := Max(beta[c.u], Alpha(c, d))];
    forall k | 0 <= k < |beta| ensures Strongest(cs + [c], d, |beta|, k, next[k]) {
      assert Strongest(cs, d, |beta|, k, beta[k]);
      if next[k] != 0.0 {
        if k == c.u && next[k] == a {
          assert (cs + [c])[|cs|].u == k && Alpha((cs + [c])[|cs|], d) == next[k];
        } else {
          var i :| 0 <= i < |cs| && cs[i].u == k && Alpha(cs[i], d) == beta[k];
          assert (cs + [c])[i].u == k && Alpha((cs + [c])[i], d) == next[k];
        }
      }
    }
  }

  // ---------------------------------------------------------------- the traced path: every rule in order

  method AllRules(cs: seq<Compiled>, d: Degrees, nU: nat) returns (beta: seq<real>, fired: seq<nat>)
    requires AllFit(cs, d, nU)
    ensures |beta| == nU && Strengths(cs, d, beta)
    ensures (forall k | k in fired :: k < |cs|) && forall i | 0 <= i < |cs| :: i in fired <==> Alpha(cs[i], d) > 0.0
  {
    hide Alpha, Strengths;
    beta := seq(nU, _ => 0.0);
    fired := [];
    assert Strengths([], d, beta) by { NoRules(d, beta); }
    for i := 0 to |cs|
      invariant |beta| == nU && Strengths(cs[..i], d, beta)
      invariant (forall k | k in fired :: k < i) && forall k | 0 <= k < i :: k in fired <==> Alpha(cs[k], d) > 0.0
    {
      assert cs[..i] + [cs[i]] == cs[..i + 1];
      StrengthsGrow(cs[..i], cs[i], d, beta);
      var a := Alpha(cs[i], d);
      beta := beta[cs[i].u := Max(beta[cs[i].u], a)];
      if a > 0.0 {
        fired := fired + [i];
      }
    }
    assert cs[..|cs|] == cs;
  }

  lemma NoRules(d: Degrees, beta: seq<real>)
    requires forall k | 0 <= k < |beta| :: beta[k] == 0.0
    ensures Strengths([], d, beta)
  {
  }

  // ---------------------------------------------------------------- the fast path: grouped by T, zero groups skipped

  /** The rules whose T-term has index `t`, in their order. */
  function Group(cs: seq<Compiled>, t: nat): seq<Compiled> {
    if cs == [] then []
    else Group(cs[..|cs| - 1], t) + if cs[|cs| - 1].t == t then [cs[|cs| - 1]] else []
  }

  lemma {:induction false} GroupIs(cs: seq<Compiled>, t: nat)
    ensures forall c :: c in Group(cs, t) <==> c in cs && c.t == t
  {
    if cs != [] {
      GroupIs(cs[..|cs| - 1], t);
      assert cs == cs[..|cs| - 1] + [cs[|cs| - 1]];
    }
  }

  /** All groups with T-index below `n`, concatenated. */
  function Regrouped(cs: seq<Compiled>, n: nat): seq<Compiled> {
    if n == 0 then [] else Regrouped(cs, n - 1) + Group(cs, n - 1)
  }

  lemma {:induction false} RegroupedIs(cs: seq<Compiled>, n: nat)
    ensures forall c :: c in Regrouped(cs, n) <==> c in cs && c.t < n
  {
    if n > 0 {
      RegroupedIs(cs, n - 1);
      GroupIs(cs, n - 1);
    }
  }

  /** Strengths depend on which rules there are, not on their order. */
  lemma SameRules(cs: seq<Compiled>, ds: seq<Compiled>, d: Degrees, beta: seq<real>)
    requires AllFit(cs, d, |beta|) && AllFit(ds, d, |beta|) && Strengths(cs, d, beta) && forall c ::
             c in cs <==> c in ds
    ensures Strengths(ds, d, beta)
  {
    hide Alpha;
    forall k | 0 <= k < |beta| ensures Strongest(ds, d, |beta|, k, beta[k]) {
      assert Strongest(cs, d, |beta|, k, beta[k]);
      forall i | 0 <= i < |ds| && ds[i].u == k ensures Alpha(ds[i], d) <= beta[k] {
        var c := ds[i];
        assert c in ds;
        var j :| 0 <= j < |cs| && cs[j] == c;
      }
      if beta[k] != 0.0 {
        var i :| 0 <= i < |cs| && cs[i].u == k && Alpha(cs[i], d) == beta[k];
        var c := cs[i];
        assert c in cs;
        var j :| 0 <= j < |ds| && ds[j] == c;
        assert ds[j].u == k && Alpha(ds[j], d) == beta[k];
      }
    }
  }

  /** Rules that cannot fire may be left out. */
  lemma SkipZero(cs: seq<Compiled>, zs: seq<Compiled>, d: Degrees, beta: seq<real>)
    requires AllFit(cs, d, |beta|) && AllFit(zs, d, |beta|) && Strengths(cs, d, beta)
    requires forall i | 0 <= i < |zs| :: Alpha(zs[i], d) <= 0.0
    ensures AllFit(cs + zs, d, |beta|) && Strengths(cs + zs, d, beta)
  {
    hide Alpha;
    forall k | 0 <= k < |beta| ensures Strongest(cs + zs, d, |beta|, k, beta[k]) {
      assert Strongest(cs, d, |beta|, k, beta[k]);
      if beta[k] != 0.0 {
        var i :| 0 <= i < |cs| && cs[i].u == k && Alpha(cs[i], d) == beta[k];
        assert (cs + zs)[i].u == k && Alpha((cs + zs)[i], d) == beta[k];
      }
    }
  }

  method GroupedRules(cs: seq<Compiled>, d: Degrees, nU: nat) returns (beta: seq<real>)
    requires AllFit(cs, d, nU)
    ensures |beta| == nU && Strengths(cs, d, beta)
  {
    hide Alpha, Strengths, AllFit;
    beta := seq(nU, _ => 0.0);
    assert Strengths(Regrouped(cs, 0), d, beta)
      && AllFit(Regrouped(cs, 0), d, nU) by { NoRules(d, beta); NoneFit(d, nU); }
    for t := 0 to |d.t|
      invariant |beta| == nU && AllFit(Regrouped(cs, t), d, nU) && Strengths(Regrouped(cs, t), d, beta)
    {
      GroupFits(cs, t, d, nU);
      if d.t[t] <= 0.0 && t != |d.t| - 1 {
        SkipZero(Regrouped(cs, t), Group(cs, t), d, beta);
      } else {
        beta := AddGroup(Regrouped(cs, t), Group(cs, t), d, beta);
      }
    }
    RegroupedIs(cs, |d.t|);
    AllInside(cs, d, nU);
    SameRules(Regrouped(cs, |d.t|), cs, d, beta);
  }

  method AddGroup(ghost before: seq<Compiled>, group: seq<Compiled>, d: Degrees, was: seq<real>)
      returns (beta: seq<real>)
    requires AllFit(before, d, |was|) && AllFit(group, d, |was|) && Strengths(before, d, was)
    ensures |beta| == |was| && AllFit(before + group, d, |beta|) && Strengths(before + group, d, beta)
  {
    hide Alpha, Strengths, AllFit;
    beta := was;
    assert before + group[..0] == before;
    for i := 0 to |group|
      invariant |beta| == |was| && AllFit(before + group[..i], d, |beta|) && Strengths(before + group[..i], d, beta)
    {
      OneFits(group, i, d, |was|);
      assert (before + group[..i]) + [group[i]] == before + group[..i + 1];
      StrengthsGrow(before + group[..i], group[i], d, beta);
      beta := beta[group[i].u := Max(beta[group[i].u], Alpha(group[i], d))];
    }
    assert group[..|group|] == group;
  }

  lemma NoneFit(d: Degrees, nU: nat)
    ensures AllFit([], d, nU)
  {
  }

  lemma OneFits(cs: seq<Compiled>, i: nat, d: Degrees, nU: nat)
    requires AllFit(cs, d, nU) && i < |cs|
    ensures Fits(cs[i], d, nU)
  {
  }

  lemma GroupFits(cs: seq<Compiled>, t: nat, d: Degrees, nU: nat)
    requires AllFit(cs, d, nU) && t < |d.t|
    ensures AllFit(Group(cs, t), d, nU)
    ensures d.t[t] <= 0.0 ==> forall i | 0 <= i < |Group(cs, t)| :: Alpha(Group(cs, t)[i], d) <= 0.0
  {
    GroupIs(cs, t);
    var g := Group(cs, t);
    forall i | 0 <= i < |g| ensures Fits(g[i], d, nU) && g[i].t == t {
      assert g[i] in g;
    }
    if d.t[t] <= 0.0 {
      forall i | 0 <= i < |g| ensures Alpha(g[i], d) <= 0.0 {
        AlphaSign(g[i], d, nU);
      }
    }
  }

  lemma AllInside(cs: seq<Compiled>, d: Degrees, nU: nat)
    requires AllFit(cs, d, nU) && forall c :: c in Regrouped(cs, |d.t|) <==> c in cs && c.t < |d.t|
    ensures forall c :: c in Regrouped(cs, |d.t|) <==> c in cs
  {
  }

  // ---------------------------------------------------------------- aggregation

  /** max over the terms below `n` of min(beta_k, mu_k). */
  function OverTerms(beta: seq<real>, mu: seq<real>, n: nat): real
    requires 0 < n <= |beta| == |mu|
  {
    var x := Min(beta[n - 1], mu[n - 1]);
    if n == 1 then x else Max(OverTerms(beta, mu, n - 1), x)
  }

  lemma {:induction false} OverTermsIs(beta: seq<real>, mu: seq<real>, n: nat)
    requires 0 < n <= |beta| == |mu|
    ensures forall k | 0 <= k < n :: Min(beta[k], mu[k]) <= OverTerms(beta, mu, n)
    ensures exists k :: 0 <= k < n && Min(beta[k], mu[k]) == OverTerms(beta, mu, n)
  {
    if n == 1 {
      assert Min(beta[0], mu[0]) == OverTerms(beta, mu, n);
    } else {
      OverTermsIs(beta, mu, n - 1);
      if OverTerms(beta, mu, n) == OverTerms(beta, mu, n - 1) {
        var k :| 0 <= k < n - 1 && Min(beta[k], mu[k]) == OverTerms(beta, mu, n - 1);
      } else {
        assert Min(beta[n - 1], mu[n - 1]) == OverTerms(beta, mu, n);
      }
    }
  }

  /** `v` is the textbook aggregate at one node: the largest of min(alpha_r, mu of the rule's consequent). */
  ghost predicate RuleAggregate(cs: seq<Compiled>, d: Degrees, mu: seq<real>, v: real)
    requires AllFit(cs, d, |mu|)
  {
    && (forall i | 0 <= i < |cs| :: Min(Alpha(cs[i], d), mu[cs[i].u]) <= v)
    && (exists i :: 0 <= i < |cs| && Min(Alpha(cs[i], d), mu[cs[i].u]) == v)
  }

  ghost predicate NonNegative(s: seq<real>) {
    forall i | 0 <= i < |s| :: s[i] >= 0.0
  }

  /** Aggregating over the output terms by their strengths equals aggregating over all rules by theirs, at every
      node. */
  lemma TermsEqualRules(cs: seq<Compiled>, d: Degrees, beta: seq<real>, mu: seq<real>)
    requires 0 < |beta| == |mu| && cs != [] && AllFit(cs, d, |mu|) && Strengths(cs, d, beta)
    requires NonNegative(mu) && NonNegative(d.t) && NonNegative(d.r) && NonNegative(d.v)
    ensures RuleAggregate(cs, d, mu, OverTerms(beta, mu, |mu|))
  {
    var n := |mu|;
    var v := OverTerms(beta, mu, n);
    OverTermsIs(beta, mu, n);
    forall i | 0 <= i < |cs| ensures Alpha(cs[i], d) >= 0.0 {
      AlphaNonNegative(cs[i], d, n);
    }
    hide Alpha, OverTerms;
    forall i | 0 <= i < |cs| ensures Min(Alpha(cs[i], d), mu[cs[i].u]) <= v {
      assert Strongest(cs, d, n, cs[i].u, beta[cs[i].u]);
    }
    var k :| 0 <= k < n && Min(beta[k], mu[k]) == v;
    assert Strongest(cs, d, n, k, beta[k]);
    if beta[k] == 0.0 {
      assert v == 0.0;
      assert 0.0 <= Min(Alpha(cs[0], d), mu[cs[0].u]) <= v;
    } else {
      var i :| 0 <= i < |cs| && cs[i].u == k && Alpha(cs[i], d) == beta[k];
      assert Min(Alpha(cs[i], d), mu[cs[i].u]) == v;
    }
  }

  lemma AlphaNonNegative(c: Compiled, d: Degrees, nU: nat)
    requires Fits(c, d, nU) && NonNegative(d.t) && NonNegative(d.r) && NonNegative(d.v)
    ensures Alpha(c, d) >= 0.0
  {
    var x := Min(Min(d.t[c.t], d.r[c.r]), d.v[c.v]);
    assert x >= 0.0;
  }

  // ---------------------------------------------------------------- a complete base always fires

  /** The degrees belong to the membership functions of `m`. */
  ghost predicate DegreesFor(m: Membership, d: Degrees) {
    && |d.t| == |m.T| + 1 && |d.r| == |m.R| + 1 && |d.v| == |m.V| + 1
    && d.t[|m.T|] == d.r[|m.R|] == d.v[|m.V|] == 1.0
  }

  lemma CompiledFits(m: Membership, production: bool, r: Rule, d: Degrees)
    requires Checked(m, production, r) && DegreesFor(m, d)
    ensures Fits(Compile(m, r), d, |m.U|)
  {
  }

  lemma {:induction false} IndexOfDistinct(names: seq<string>, i: nat)
    requires Distinct(names) && i < |names|
    ensures IndexOf(names, names[i]) == i
  {
    var j := IndexOf(names, names[i]);
    assert names[i] in names;
    assert names[j] == names[i];
  }

  lemma SlotPositive(names: seq<string>, term: string, degrees: seq<real>, i: nat)
    requires Distinct(names) && i < |names| && |degrees| == |names| + 1 && degrees[|names|] == 1.0 && degrees[i] > 0.0
    requires names[i] in Expand(names, term)
    ensures degrees[Slot(names, term)] > 0.0
  {
    if term != ANY {
      IndexOfDistinct(names, i);
    }
  }

  /** In an accepted complete base, inputs with some positive term each make at least one rule fire. */
  lemma SomeRuleFires(m: Membership, production: bool, rules: seq<Rule>, d: Degrees, t: nat, r: nat, v: nat)
    requires ValidMembership(m) && Consistent(m, production, rules) && |rules| == |Full(m)| && DegreesFor(m, d)
    requires t < |m.T| && r < |m.R| && v < |m.V| && d.t[t] > 0.0 && d.r[r] > 0.0 && d.v[v] > 0.0
    ensures exists i :: 0 <= i < |rules| && Fits(Compile(m, rules[i]), d, |m.U|) && Alpha(Compile(m, rules[i]), d) > 0.0
  {
    var c := (m.T[t], (m.R[r], m.V[v]));
    assert c in Full(m) by {
      CrossIs(m.R, m.V);
      CrossIs(m.T, Cross(m.R, m.V));
    }
    ExactlyOneRule(m, production, rules);
    var i :| 0 <= i < |rules| && c in Covers(m, rules[i]);
    RuleFires(m, production, rules[i], d, t, r, v);
  }

  lemma RuleFires(m: Membership, production: bool, rule: Rule, d: Degrees, t: nat, r: nat, v: nat)
    requires ValidMembership(m) && Checked(m, production, rule) && DegreesFor(m, d)
    requires t < |m.T| && r < |m.R| && v < |m.V| && d.t[t] > 0.0 && d.r[r] > 0.0 && d.v[v] > 0.0
    requires (m.T[t], (m.R[r], m.V[v])) in Covers(m, rule)
    ensures Fits(Compile(m, rule), d, |m.U|) && Alpha(Compile(m, rule), d) > 0.0
  {
    var a := rule.antecedent;
    CrossIs(Expand(m.R, a["R"]), Expand(m.V, a["V"]));
    CrossIs(Expand(m.T, a["T"]), Cross(Expand(m.R, a["R"]), Expand(m.V, a["V"])));
    SlotPositive(m.T, a["T"], d.t, t);
    SlotPositive(m.R, a["R"], d.r, r);
    SlotPositive(m.V, a["V"], d.v, v);
    CompiledFits(m, production, rule, d);
    AlphaSign(Compile(m, rule), d, |m.U|);
  }
}
