/** Validation of the rule base and why counting is enough to make it complete. */
module Rules {
  import opened Base

  // ---------------------------------------------------------------- data

  const ANY := "any"

  datatype Rule = Rule(id: string, antecedent: map<string, string>, consequent: string, w: real)

  /** Term names of the three inputs and of the output. */
  datatype Membership = Membership(T: seq<string>, R: seq<string>, V: seq<string>, U: seq<string>)

  type Combo = (string, (string, string))

  datatype Fault =
    | DuplicateId | UnknownVariable | MissingVariable | UnknownTerm | UnknownConsequent | BadWeight | NotProduction
    | DuplicateAntecedent | WrongCount

  /** `at` is the index of the offending rule. */
  datatype Verdict = Accepted | Refused(fault: Fault, at: nat)

  /** Terms are the keys of a dictionary. */
  ghost predicate ValidMembership(m: Membership) {
    Distinct(m.T) && Distinct(m.R) && Distinct(m.V)
  }

  // ---------------------------------------------------------------- combinations

  function Row<A, B>(x: A, b: seq<B>): (r: seq<(A, B)>)
    ensures |r| == |b| && forall j | 0 <= j < |b| :: r[j] == (x, b[j])
  {
    if b == [] then [] else Row(x, b[..|b| - 1]) + [(x, b[|b| - 1])]
  }

  /** The cartesian product, in the order of nested loops. */
  function Cross<A, B>(a: seq<A>, b: seq<B>): seq<(A, B)> {
    if a == [] then [] else Cross(a[..|a| - 1], b) + Row(a[|a| - 1], b)
  }

  lemma {:induction false} CrossLength<A, B>(a: seq<A>, b: seq<B>)
    ensures |Cross(a, b)| == |a| * |b|
  {
    if a != [] {
      var n := |a| - 1;
      CrossLength(a[..n], b);
      assert |a| * |b| == n * |b| + |b|;
    }
  }

  lemma {:induction false} RowIs<A(!new), B(!new)>(x: A, b: seq<B>)
    ensures forall p :: p in Row(x, b) <==> p.0 == x && p.1 in b
  {
    var row := Row(x, b);
    forall p: (A, B) | p.0 == x && p.1 in b ensures p in row {
      var j :| 0 <= j < |b| && b[j] == p.1;
      assert row[j] == p;
    }
  }

  lemma {:induction false} CrossIs<A(!new), B(!new)>(a: seq<A>, b: seq<B>)
    ensures forall p :: p in Cross(a, b) <==> p.0 in a && p.1 in b
  {
    if a != [] {
      var n := |a| - 1;
      CrossIs(a[..n], b);
      RowIs(a[n], b);
      assert a == a[..n] + [a[n]];
    }
  }

  lemma {:induction false} CrossDistinct<A(!new), B(!new)>(a: seq<A>, b: seq<B>)
    requires Distinct(a) && Distinct(b)
    ensures Distinct(Cross(a, b))
  {
    if a != [] {
      var n := |a| - 1;
      var init, last := a[..n], a[n];
      CrossDistinct(init, b);
      CrossIs(init, b);
      var c, row := Cross(init, b), Row(last, b);
      forall i | 0 <= i < |c| ensures c[i].0 != last {
        assert c[i] in c;
        var k :| 0 <= k < n && init[k] == c[i].0;
        assert a[k] != a[n];
      }
      DistinctConcat(c, row);
    }
  }

  lemma DistinctConcat<T(!new)>(s: seq<T>, t: seq<T>)
    requires Distinct(s) && Distinct(t) && forall i, j | 0 <= i < |s| && 0 <= j < |t| :: s[i] != t[j]
    ensures Distinct(s + t)
  {
  }

  function Full(m: Membership): seq<Combo> {
    Cross(m.T, Cross(m.R, m.V))
  }

  /** "any" stands for every term of the variable. */
  function Expand(names: seq<string>, term: string): seq<string> {
    if term == ANY then names else [term]
  }

  predicate Named(names: seq<string>, term: string) {
    term == ANY || term in names
  }

  /** What is required of one rule on its own. */
  predicate Checked(m: Membership, production: bool, r: Rule) {
    && r.antecedent.Keys == {"T", "R", "V"}
    && Named(m.T, r.antecedent["T"]) && Named(m.R, r.antecedent["R"]) && Named(m.V, r.antecedent["V"])
    && r.consequent in m.U && 0.0 < r.w <= 1.0 && (production ==> r.w == 1.0)
  }

  /** The combinations a rule answers for. */
  function Covers(m: Membership, r: Rule): seq<Combo>
    requires r.antecedent.Keys == {"T", "R", "V"}
  {
    Cross(Expand(m.T, r.antecedent["T"]), Cross(Expand(m.R, r.antecedent["R"]), Expand(m.V, r.antecedent["V"])))
  }

  /** Rules pass one by one, under different ids, and no combination is answered twice. */
  ghost predicate Consistent(m: Membership, production: bool, rules: seq<Rule>) {
    && (forall i | 0 <= i < |rules| :: Checked(m, production, rules[i]))
    && (forall i, j | 0 <= i < j < |rules| :: rules[i].id != rules[j].id)
    && NoOverlap(m, rules)
  }

  ghost predicate Keyed(rules: seq<Rule>) {
    forall i | 0 <= i < |rules| :: rules[i].antecedent.Keys == {"T", "R", "V"}
  }

  ghost predicate NoOverlap(m: Membership, rules: seq<Rule>) {
    && Keyed(rules)
    && forall i, j, c | 0 <= i < j < |rules| && c in Covers(m, rules[i]) :: c !in Covers(m, rules[j])
  }

  // ---------------------------------------------------------------- validation

  /** The checks on one rule, in the order of the source. */
  method CheckRule(m: Membership, production: bool, r: Rule) returns (fault: Option<Fault>)
    ensures fault.None? <==> Checked(m, production, r)
    ensures fault.Some? ==> !fault.value.WrongCount?
  {
    var known := {"T", "R", "V"};
    if r.antecedent.Keys - known != {} {
      return Some(UnknownVariable);
    }
    if "T" !in r.antecedent || "R" !in r.antecedent || "V" !in r.antecedent {
      return Some(MissingVariable);
    }
    if !Named(m.T, r.antecedent["T"]) || !Named(m.R, r.antecedent["R"]) || !Named(m.V, r.antecedent["V"]) {
      return Some(UnknownTerm);
    }
    if r.consequent !in m.U {
      return Some(UnknownConsequent);
    }
    if !(0.0 < r.w <= 1.0) {
      return Some(BadWeight);
    }
    if production && r.w != 1.0 {
      return Some(NotProduction);
    }
    fault := None;
  }

  /** Enter the combinations of rule `i`; `ok` is false if one of them is already answered. */
  method Cover(covered: map<Combo, nat>, combos: seq<Combo>, i: nat) returns (ok: bool, next: map<Combo, nat>)
    requires Distinct(combos)
    ensures ok <==> forall c | c in combos :: c !in covered
    ensures ok ==> forall c :: c in next <==> c in covered || c in combos
    ensures ok ==> forall c | c in next :: next[c] == if c in covered then covered[c] else i
  {
    next := covered;
    for k := 0 to |combos|
      invariant forall c | c in combos[..k] :: c !in covered
      invariant forall c :: c in next <==> c in covered || c in combos[..k]
      invariant forall c | c in next :: next[c] == if c in covered then covered[c] else i
    {
      assert combos[..k + 1] == combos[..k] + [combos[k]];
      assert combos[k] in combos && combos[k] !in combos[..k];
      if combos[k] in next {
        return false, next;
      }
      next := next[combos[k] := i];
    }
    assert combos[..|combos|] == combos;
    ok := true;
  }

  lemma CoversDistinct(m: Membership, r: Rule)
    requires ValidMembership(m) && r.antecedent.Keys == {"T", "R", "V"}
    ensures Distinct(Covers(m, r))
  {
    var t, q, v := Expand(m.T, r.antecedent["T"]), Expand(m.R, r.antecedent["R"]), Expand(m.V, r.antecedent["V"]);
    CrossDistinct(q, v);
    CrossDistinct(t, Cross(q, v));
  }

  /** `seen` and `covered` after a prefix of the rules. */
  ghost predicate Progress(m: Membership, rules: seq<Rule>, seen: map<string, nat>, covered: map<Combo, nat>)
    requires forall i | 0 <= i < |rules| :: rules[i].antecedent.Keys == {"T", "R", "V"}
  {
    && (forall i | 0 <= i < |rules| :: rules[i].id in seen)
    && (forall id | id in seen :: seen[id] < |rules| && rules[seen[id]].id == id)
    && (forall i, c | 0 <= i < |rules| && c in Covers(m, rules[i]) :: c in covered)
    && (forall c | c in covered :: covered[c] < |rules| && c in Covers(m, rules[covered[c]]))
  }

  lemma ProgressStep(m: Membership, production: bool, rules: seq<Rule>, n: nat, seen: map<string, nat>,
      covered: map<Combo, nat>,
                     next: map<Combo, nat>)
    requires n < |rules| && Consistent(m, production, rules[..n]) && Progress(m, rules[..n], seen, covered)
    requires rules[n].id !in seen && Checked(m, production, rules[n])
    requires forall c | c in Covers(m, rules[n]) :: c !in covered
    requires forall c :: c in next <==> c in covered || c in Covers(m, rules[n])
    requires forall c | c in next :: next[c] == if c in covered then covered[c] else n
    ensures Consistent(m, production, rules[..n + 1]) && Progress(m, rules[..n + 1], seen[rules[n].id := n], next)
  {
    hide Covers, Checked, Progress;
    CheckedKeys(m, production, rules[n]);
    ConsistentKeyed(m, production, rules[..n]);
    ConsistentGrows(m, production, rules, n, seen, covered);
    ConsistentKeyed(m, production, rules[..n + 1]);
    hide Consistent;
    ProgressGrows(m, rules, n, seen, covered, next);
  }

  lemma ConsistentGrows(m: Membership, production: bool, rules: seq<Rule>, n: nat, seen: map<string, nat>,
      covered: map<Combo, nat>)
    requires n < |rules| && Consistent(m, production, rules[..n]) && Keyed(rules[..n])
             && Progress(m, rules[..n], seen, covered)
    requires rules[n].id !in seen && Checked(m, production, rules[n])
    requires forall c | c in Covers(m, rules[n]) :: c !in covered
    ensures Consistent(m, production, rules[..n + 1])
  {
    CheckedKeys(m, production, rules[n]);
    NoOverlapGrows(m, rules, n, seen, covered);
    hide NoOverlap, Checked, Covers;
    var p, q := rules[..n], rules[..n + 1];
    assert forall i | 0 <= i < n :: q[i] == p[i];
    assert q[n] == rules[n];
  }

  lemma NoOverlapGrows(m: Membership, rules: seq<Rule>, n: nat, seen: map<string, nat>, covered: map<Combo, nat>)
    requires n < |rules| && NoOverlap(m, rules[..n]) && Progress(m, rules[..n], seen, covered)
    requires rules[n].antecedent.Keys == {"T", "R", "V"} && forall c | c in Covers(m, rules[n]) :: c !in covered
    ensures NoOverlap(m, rules[..n + 1])
  {
    hide Covers;
    var p, q := rules[..n], rules[..n + 1];
    assert forall i | 0 <= i < n :: q[i] == p[i];
    assert q[n] == rules[n];
    forall i, j, c | 0 <= i < j < |q| && c in Covers(m, q[i]) ensures c !in Covers(m, q[j]) {
      assert c in Covers(m, p[i]);
    }
  }

  lemma ProgressGrows(m: Membership, rules: seq<Rule>, n: nat, seen: map<string, nat>, covered: map<Combo, nat>,
      next: map<Combo, nat>)
    requires n < |rules| && Keyed(rules[..n + 1]) && Keyed(rules[..n]) && Progress(m, rules[..n], seen, covered)
    requires rules[n].antecedent.Keys == {"T", "R", "V"}
    requires forall c :: c in next <==> c in covered || c in Covers(m, rules[n])
    requires forall c | c in next :: next[c] == if c in covered then covered[c] else n
    ensures Progress(m, rules[..n + 1], seen[rules[n].id := n], next)
  {
    hide Covers;
    var p, q := rules[..n], rules[..n + 1];
    assert forall i | 0 <= i < n :: q[i] == p[i];
    assert q[n] == rules[n];
  }

  /** Two rules under one id: refused, and rightly so. */
  lemma ClashOfIds(m: Membership, production: bool, rules: seq<Rule>, n: nat, seen: map<string, nat>,
      covered: map<Combo, nat>)
    requires n < |rules| && Keyed(rules[..n]) && Progress(m, rules[..n], seen, covered) && rules[n].id in seen
    ensures !Consistent(m, production, rules[..n + 1])
  {
    hide Covers, Checked, NoOverlap;
    var j := seen[rules[n].id];
    assert rules[..n + 1][j] == rules[..n][j];
    assert rules[..n + 1][n] == rules[n];
  }

  /** Two rules for one combination: likewise. */
  lemma ClashOfCombos(m: Membership, production: bool, rules: seq<Rule>, n: nat, seen: map<string, nat>,
      covered: map<Combo, nat>, c: Combo)
    requires n < |rules| && Keyed(rules[..n]) && Progress(m, rules[..n], seen, covered)
    requires rules[n].antecedent.Keys == {"T", "R", "V"} && c in Covers(m, rules[n]) && c in covered
    ensures !Consistent(m, production, rules[..n + 1])
  {
    hide Covers, Checked;
    var j, q := covered[c], rules[..n + 1];
    assert q[j] == rules[..n][j] && q[n] == rules[n];
    assert c in Covers(m, rules[..n][j]);
    assert !NoOverlap(m, q);
  }

  /** Accepted exactly when the rules are consistent and, if completeness is required, as many as there are
      combinations. A refusal names the first rule that breaks consistency, or the count. */
  method ValidateRulebase(rules: seq<Rule>, m: Membership, production: bool, requireComplete: bool) returns (v: Verdict)
    requires ValidMembership(m)
    ensures v.Accepted? <==> Consistent(m, production, rules) && (requireComplete ==> |rules| == |Full(m)|)
    ensures v.Refused? && v.fault.WrongCount? ==> Consistent(m, production, rules)
    ensures v.Refused? && !v.fault.WrongCount? ==>
              && v.at < |rules| && Consistent(m, production, rules[..v.at])
                   && !Consistent(m, production, rules[..v.at + 1])
  {
    hide Covers, Checked, Consistent, Progress;
    var seen: map<string, nat>, covered: map<Combo, nat> := map[], map[];
    assert Consistent(m, production, []) && Progress(m, [], seen, covered) by { Start(m, production); }
    assert rules[..0] == [];
    for i := 0 to |rules|
      invariant Consistent(m, production, rules[..i]) && Keyed(rules[..i]) && Progress(m, rules[..i], seen, covered)
    {
      if rules[i].id in seen {
        ClashOfIds(m, production, rules, i, seen, covered);
        PrefixConsistent(m, production, rules, i + 1);
        return Refused(DuplicateId, i);
      }
      var fault := CheckRule(m, production, rules[i]);
      if fault.Some? {
        Unchecked(m, production, rules, i);
        PrefixConsistent(m, production, rules, i + 1);
        return Refused(fault.value, i);
      }
      CheckedKeys(m, production, rules[i]);
      CoversDistinct(m, rules[i]);
      var combos := Covers(m, rules[i]);
      var ok, next := Cover(covered, combos, i);
      if !ok {
        ghost var c :| c in combos && c in covered;
        ClashOfCombos(m, production, rules, i, seen, covered, c);
        PrefixConsistent(m, production, rules, i + 1);
        return Refused(DuplicateAntecedent, i);
      }
      ProgressStep(m, production, rules, i, seen, covered, next);
      seen, covered := seen[rules[i].id := i], next;
    }
    assert rules[..|rules|] == rules;
    if requireComplete && |rules| != |Full(m)| {
      return Refused(WrongCount, |rules|);
    }
    v := Accepted;
  }

  lemma Start(m: Membership, production: bool)
    ensures Consistent(m, production, []) && Progress(m, [], map[], map[])
  {
  }

  lemma CheckedKeys(m: Membership, production: bool, r: Rule)
    requires Checked(m, production, r)
    ensures r.antecedent.Keys == {"T", "R", "V"}
  {
  }

  lemma Unchecked(m: Membership, production: bool, rules: seq<Rule>, i: nat)
    requires i < |rules| && !Checked(m, production, rules[i])
    ensures !Consistent(m, production, rules[..i + 1])
  {
    assert rules[..i + 1][i] == rules[i];
  }

  lemma PrefixConsistent(m: Membership, production: bool, rules: seq<Rule>, n: nat)
    requires n <= |rules|
    ensures Consistent(m, production, rules) ==> Consistent(m, production, rules[..n])
  {
    hide Covers, Checked;
    var p := rules[..n];
    assert forall i | 0 <= i < n :: p[i] == rules[i];
  }

  // ---------------------------------------------------------------- completeness by counting

  /** All combinations the rules answer for, one rule after the other. */
  function Answered(m: Membership, rules: seq<Rule>): seq<Combo>
    requires forall i | 0 <= i < |rules| :: rules[i].antecedent.Keys == {"T", "R", "V"}
  {
    if rules == [] then [] else Answered(m, rules[..|rules| - 1]) + Covers(m, rules[|rules| - 1])
  }

  lemma ConsistentRule(m: Membership, production: bool, rules: seq<Rule>, i: nat)
    requires Consistent(m, production, rules) && i < |rules|
    ensures Checked(m, production, rules[i]) && Keyed(rules)
  {
  }

  lemma ConsistentKeyed(m: Membership, production: bool, rules: seq<Rule>)
    requires Consistent(m, production, rules)
    ensures Keyed(rules)
  {
  }

  lemma {:induction false} AnsweredIs(m: Membership, rules: seq<Rule>)
    requires Keyed(rules)
    ensures forall c :: c in Answered(m, rules) <==> exists i :: 0 <= i < |rules| && c in Covers(m, rules[i])
  {
    hide Covers;
    if rules != [] {
      var n := |rules| - 1;
      AnsweredIs(m, rules[..n]);
      forall c ensures c in Answered(m, rules) <==> exists i :: 0 <= i < |rules| && c in Covers(m, rules[i]) {
        if c in Answered(m, rules[..n]) {
          var i :| 0 <= i < n && c in Covers(m, rules[..n][i]);
          assert c in Covers(m, rules[i]);
        }
        if exists i :: 0 <= i < |rules| && c in Covers(m, rules[i]) {
          var i :| 0 <= i < |rules| && c in Covers(m, rules[i]);
          assert i < n ==> rules[..n][i] == rules[i];
        }
      }
    }
  }

  lemma NotAnsweredBefore(m: Membership, production: bool, rules: seq<Rule>)
    requires rules != [] && Consistent(m, production, rules) && Keyed(rules)
    ensures var n := |rules| - 1;
            var a, c := Answered(m, rules[..n]), Covers(m, rules[n]);
            forall i, j | 0 <= i < |a| && 0 <= j < |c| :: a[i] != c[j]
  {
    hide Covers, Checked, Answered;
    var n := |rules| - 1;
    AnsweredIs(m, rules[..n]);
    var a, c := Answered(m, rules[..n]), Covers(m, rules[n]);
    forall i, j | 0 <= i < |a| && 0 <= j < |c| ensures a[i] != c[j] {
      assert a[i] in a && c[j] in c;
      var k :| 0 <= k < n && a[i] in Covers(m, rules[..n][k]);
      assert rules[..n][k] == rules[k];
    }
  }

  lemma {:induction false} AnsweredOnce(m: Membership, production: bool, rules: seq<Rule>)
    requires ValidMembership(m) && Consistent(m, production, rules)
    ensures Distinct(Answered(m, rules))
  {
    if rules != [] {
      hide Covers, Checked, Consistent, ValidMembership;
      var n := |rules| - 1;
      PrefixConsistent(m, production, rules, n);
      AnsweredOnce(m, production, rules[..n]);
      ConsistentRule(m, production, rules, n);
      CoversDistinct(m, rules[n]);
      NotAnsweredBefore(m, production, rules);
      DistinctConcat(Answered(m, rules[..n]), Covers(m, rules[n]));
    }
  }

  /** A rule answers for existing combinations, and for at least one if there are any. */
  lemma CoversWithin(m: Membership, production: bool, r: Rule)
    requires Checked(m, production, r)
    ensures forall c | c in Covers(m, r) :: c in Full(m)
    ensures Full(m) != [] ==> Covers(m, r) != []
  {
    var t, q, v := Expand(m.T, r.antecedent["T"]), Expand(m.R, r.antecedent["R"]), Expand(m.V, r.antecedent["V"]);
    CrossIs(q, v);
    CrossIs(t, Cross(q, v));
    CrossIs(m.R, m.V);
    CrossIs(m.T, Cross(m.R, m.V));
    if Full(m) != [] {
      var c := Full(m)[0];
      assert c in Full(m);
      assert c.0 in m.T && c.1.0 in m.R && c.1.1 in m.V;
      var t0, q0, v0 := t[0], q[0], v[0];
      assert (q0, v0) in Cross(q, v);
      assert (t0, (q0, v0)) in Covers(m, r);
    }
  }

  /** Every rule contributes at least one combination. */
  lemma {:induction false} AnsweredMany(m: Membership, production: bool, rules: seq<Rule>, j: nat)
    requires Consistent(m, production, rules) && Full(m) != [] && j < |rules|
    ensures |Answered(m, rules)| >= |rules| - 1 + |Covers(m, rules[j])|
  {
    hide Covers, Checked, Full;
    var n := |rules| - 1;
    PrefixConsistent(m, production, rules, n);
    ConsistentRule(m, production, rules, n);
    CoversWithin(m, production, rules[n]);
    hide Consistent;
    if j < n {
      AnsweredMany(m, production, rules[..n], j);
    } else if n > 0 {
      ConsistentRule(m, production, rules, n - 1);
      CoversWithin(m, production, rules[n - 1]);
      AnsweredMany(m, production, rules[..n], n - 1);
    }
  }

  /** As many different things out of `t` as `t` has: all of them. */
  lemma Pigeonhole<T(!new)>(s: seq<T>, t: seq<T>)
    requires Distinct(s) && Distinct(t) && (forall x | x in s :: x in t) && |s| >= |t|
    ensures |s| == |t| && forall x | x in t :: x in s
  {
    var a, b := set x | x in s, set x | x in t;
    SizeOfDistinct(s);
    SizeOfDistinct(t);
    SubsetSize(a, b);
    assert forall x | x in t :: x in b;
  }

  lemma FullDistinct(m: Membership)
    requires ValidMembership(m)
    ensures Distinct(Full(m)) && |Full(m)| == |m.T| * (|m.R| * |m.V|)
  {
    CrossDistinct(m.R, m.V);
    CrossDistinct(m.T, Cross(m.R, m.V));
    CrossLength(m.R, m.V);
    CrossLength(m.T, Cross(m.R, m.V));
  }

  /** An accepted complete base answers every combination by exactly one rule, and every rule for exactly one
      combination. */
  lemma ExactlyOneRule(m: Membership, production: bool, rules: seq<Rule>)
    requires ValidMembership(m) && Consistent(m, production, rules) && |rules| == |Full(m)|
    ensures Keyed(rules)
    ensures forall c | c in Full(m) :: exists i :: 0 <= i < |rules| && c in Covers(m, rules[i])
    ensures forall c, i, j | 0 <= i < |rules| && 0 <= j < |rules| && c in Covers(m, rules[i])
            && c in Covers(m, rules[j]) :: i == j
    ensures forall i | 0 <= i < |rules| :: |Covers(m, rules[i])| == 1
  {
    ConsistentKeyed(m, production, rules);
    var a := Answered(m, rules);
    AnsweredIs(m, rules);
    AnsweredOnce(m, production, rules);
    FullDistinct(m);
    hide Covers, Answered, Full;
    forall c | c in a ensures c in Full(m) {
      var i :| 0 <= i < |rules| && c in Covers(m, rules[i]);
      CoversWithin(m, production, rules[i]);
    }
    forall i | 0 <= i < |rules| ensures |a| >= |rules| - 1 + |Covers(m, rules[i])| && |Covers(m, rules[i])| >= 1 {
      AnsweredMany(m, production, rules, i);
      CoversWithin(m, production, rules[i]);
    }
    Pigeonhole(a, Full(m));
  }

  /** Conversely, one rule for one combination each makes the count right. */
  lemma ExactlyOneMeansCount(m: Membership, production: bool, rules: seq<Rule>)
    requires ValidMembership(m) && Consistent(m, production, rules)
    requires forall c | c in Full(m) :: exists i :: 0 <= i < |rules| && c in Covers(m, rules[i])
    requires forall i | 0 <= i < |rules| :: |Covers(m, rules[i])| == 1
    ensures |rules| == |Full(m)|
  {
    ConsistentKeyed(m, production, rules);
    hide Covers, Answered, Full, Checked;
    AnsweredIs(m, rules);
    AnsweredOnce(m, production, rules);
    AnsweredLength(m, rules);
    FullDistinct(m);
    var a := Answered(m, rules);
    forall c | c in a ensures c in Full(m) {
      var i :| 0 <= i < |rules| && c in Covers(m, rules[i]);
      CoversWithin(m, production, rules[i]);
    }
    SameLength(a, Full(m));
  }

  lemma SameLength<T(!new)>(s: seq<T>, t: seq<T>)
    requires Distinct(s) && Distinct(t) && (forall x | x in s :: x in t) && forall x | x in t :: x in s
    ensures |s| == |t|
  {
    SizeOfDistinct(s);
    SizeOfDistinct(t);
    assert (set x | x in s) == (set x | x in t);
  }

  lemma {:induction false} AnsweredLength(m: Membership, rules: seq<Rule>)
    requires Keyed(rules) && forall i | 0 <= i < |rules| :: |Covers(m, rules[i])| == 1
    ensures |Answered(m, rules)| == |rules|
  {
    hide Covers;
    if rules != [] {
      AnsweredLength(m, rules[..|rules| - 1]);
    }
  }
}
