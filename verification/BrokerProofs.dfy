/** Properties of the paper broker over every bar and every sequence of calls. */
module BrokerProofs {
  import opened Base
  import opened Broker

  // ---------------------------------------------------------------- one induction for the whole walk

  ghost predicate BarOk(bar: Bar) {
    0.0 < bar.l <= bar.o <= bar.h && bar.l <= bar.c <= bar.h
  }

  /** The reference prices at which the walk may fire a trigger: the open if the level is already behind it,
      otherwise the level itself, inside the bar. */
  ghost predicate FiresAt(tr: Trigger, p: real, bar: Bar) {
    (p == bar.o && Behind(tr, bar.o)) || (p == tr.level && bar.l <= tr.level <= bar.h)
  }

  /** `J` survives every firing the walk can perform. */
  ghost predicate KeptByFiring(J: Book -> bool, env: Env, bar: Bar) {
    forall x, tr, p | J(x) && tr in Triggers(x, bar.t) && FiresAt(tr, p, bar) :: J(Fire(x, env, tr, p, bar.t))
  }

  lemma {:induction false} FireAtOpenKeeps(J: Book -> bool, b: Book, env: Env, bar: Bar)
    requires KeptByFiring(J, env, bar) && J(b)
    ensures J(FireAtOpen(b, env, bar.t, bar.o))
    decreases Live(b)
  {
    var at := AtOpen(b, bar.t, bar.o);
    if at != [] {
      var tr := Best(ByPriority, at);
      FireShrinks(b, env, tr, bar.o, bar.t);
      FireAtOpenKeeps(J, Fire(b, env, tr, bar.o, bar.t), env, bar);
    }
  }

  lemma {:induction false} SegmentKeeps(J: Book -> bool, b: Book, env: Env, bar: Bar, cur: real, target: real)
    requires KeptByFiring(J, env, bar) && J(b) && bar.l <= cur <= bar.h && bar.l <= target <= bar.h
    ensures J(Segment(b, env, bar.t, cur, target))
    decreases Live(b)
  {
    var on := Ahead(b, bar.t, cur, target);
    if cur != target && on != [] {
      var tr := Best(if target < cur then Highest else Lowest, on);
      FireShrinks(b, env, tr, tr.level, bar.t);
      SegmentKeeps(J, Fire(b, env, tr, tr.level, bar.t), env, bar, tr.level, target);
    }
  }

  lemma WalkKeeps(J: Book -> bool, b: Book, env: Env, bar: Bar)
    requires BarOk(bar) && KeptByFiring(J, env, bar) && J(b)
    ensures J(Walk(b, env, bar))
  {
    hide KeptByFiring, Reachable;
    if Reachable(b, bar) {
      var b0 := FireAtOpen(b, env, bar.t, bar.o);
      FireAtOpenKeeps(J, b, env, bar);
      var low := LowFirst(b0.position, bar);
      var first, second := if low then bar.l else bar.h, if low then bar.h else bar.l;
      SegmentKeeps(J, b0, env, bar, bar.o, first);
      var b1 := Segment(b0, env, bar.t, bar.o, first);
      SegmentKeeps(J, b1, env, bar, first, second);
      SegmentKeeps(J, Segment(b1, env, bar.t, first, second), env, bar, second, bar.c);
    }
  }

  // ---------------------------------------------------------------- order life cycle

  /** NEW orders are exactly the members of the queues, plus the one being executed. */
  ghost predicate Queued(b: Book, ids: seq<Coid>, loose: Option<Coid>) {
    && Distinct(ids)
    && (forall c :: IsNew(b, c) <==> c in ids || loose == Some(c))
    && (loose.Some? ==> loose.value !in ids)
    && (forall c | c in b.orders && c.Synthetic? :: c.k < b.seqNo)
  }

  function Net(fills: seq<Fill>): real {
    if fills == [] then 0.0 else Net(fills[..|fills| - 1]) + Signed(fills[|fills| - 1].side, fills[|fills| - 1].qty)
  }

  ghost predicate HasFill(fills: seq<Fill>, c: Coid) {
    exists i :: 0 <= i < |fills| && fills[i].coid == c
  }

  /** One fill per FILLED order and none for any other; the position is the signed sum of the fills. */
  ghost predicate FillsOk(b: Book) {
    && (forall i, j | 0 <= i < j < |b.fills| :: b.fills[i].coid != b.fills[j].coid)
    && (forall c :: HasFill(b.fills, c) <==> c in b.orders && b.orders[c].status.Filled?)
    && (forall i | 0 <= i < |b.fills| :: b.fills[i].qty > 0.0)
    && b.position == Net(b.fills)
  }

  ghost predicate Ok(b: Book, ids: seq<Coid>, loose: Option<Coid>) {
    Queued(b, ids, loose) && FillsOk(b)
  }

  /** Requests never change, a final order never changes, fills are only added. */
  ghost predicate Grows(b: Book, e: Book) {
    && (forall c | c in b.orders :: c in e.orders && e.orders[c].req == b.orders[c].req
                                    && (!b.orders[c].status.New? ==> e.orders[c] == b.orders[c])
                                    && (b.orders[c].status.New? ==> !e.orders[c].status.Rejected?))
    && b.fills <= e.fills
  }

  lemma GrowsTwice(b: Book, e: Book, f: Book)
    requires Grows(b, e) && Grows(e, f)
    ensures Grows(b, f)
  {
  }

  lemma Apart(s: seq<Coid>, t: seq<Coid>)
    requires Distinct(s + t)
    ensures Distinct(s) && Distinct(t) && forall c | c in t :: c !in s
  {
    forall i, j | 0 <= i < |s| && 0 <= j < |t| ensures s[i] != t[j] {
      assert (s + t)[i] != (s + t)[|s| + j];
    }
    forall i, j | 0 <= i < j < |t| ensures t[i] != t[j] {
      assert (s + t)[|s| + i] != (s + t)[|s| + j];
    }
    forall i, j | 0 <= i < j < |s| ensures s[i] != s[j] {
      assert (s + t)[i] != (s + t)[j];
    }
  }

  lemma {:induction false} RemoveIs(s: seq<Coid>, c: Coid)
    requires Distinct(s)
    ensures Distinct(Remove(s, c)) && forall x :: x in Remove(s, c) <==> x in s && x != c
  {
    if s != [] {
      assert s == [s[0]] + s[1..];
      RemoveIs(s[1..], c);
      var r := Remove(s[1..], c);
      Apart([s[0]], s[1..]);
      var q := [s[0]] + r;
      forall i, j | 0 <= i < j < |q| ensures q[i] != q[j] {
        assert r[j - 1] in r;
      }
    }
  }

  lemma {:induction false} RemoveConcat(s: seq<Coid>, t: seq<Coid>, c: Coid)
    ensures c in s ==> Remove(s + t, c) == Remove(s, c) + t
    ensures c !in s ==> Remove(s + t, c) == s + Remove(t, c)
  {
    if s == [] {
      assert s + t == t;
      assert s + Remove(t, c) == Remove(t, c);
    } else {
      assert s == [s[0]] + s[1..];
      assert (s + t)[1..] == s[1..] + t;
      RemoveConcat(s[1..], t, c);
      assert c in s && s[0] != c ==> [s[0]] + (Remove(s[1..], c) + t) == Remove(s, c) + t;
      assert c !in s ==> [s[0]] + (s[1..] + Remove(t, c)) == s + Remove(t, c);
    }
  }

  lemma {:induction false} RemoveAbsent(s: seq<Coid>, c: Coid)
    requires c !in s
    ensures Remove(s, c) == s
  {
    if s != [] {
      assert s == [s[0]] + s[1..];
      RemoveAbsent(s[1..], c);
    }
  }

  /** A queued order is cancelled. */
  lemma CancelOne(b: Book, ids: seq<Coid>, loose: Option<Coid>, c: Coid, code: Option<RejectCode>)
    requires Ok(b, ids, loose) && IsNew(b, c)
    ensures var e := SetStatus(b, c, Canceled, code);
            && Grows(b, e)
            && (loose == Some(c) ==> Ok(e, ids, None))
            && (c in ids ==> Ok(e, Remove(ids, c), loose))
  {
    var e := SetStatus(b, c, Canceled, code);
    RemoveIs(ids, c);
  }

  /** Fields that the life cycle does not depend on. */
  lemma Unrelated(b: Book, e: Book, ids: seq<Coid>, loose: Option<Coid>)
    requires Ok(b, ids, loose) && e.orders == b.orders && e.fills == b.fills && e.position == b.position
             && e.seqNo == b.seqNo
    ensures Ok(e, ids, loose) && Grows(b, e)
  {
  }

  lemma {:induction false} CancelProtectingOk(b: Book, pend: seq<Coid>, todo: seq<Coid>, side: Side, keep: seq<Coid>)
    requires Ok(b, pend + (keep + todo), None)
    ensures var e := CancelProtecting(b, todo, side, keep); Ok(e, pend + e.stops, None) && Grows(b, e)
    ensures var e := CancelProtecting(b, todo, side, keep); forall c | c in e.stops :: c in keep || c in todo
    decreases |todo|
  {
    hide Ok, Grows;
    if todo == [] {
      assert keep + todo == keep;
      Unrelated(b, b.(stops := keep), pend + keep, None);
    } else {
      var c, rest := todo[0], todo[1..];
      assert todo == [c] + rest;
      HeadNew(b, pend, keep, c, rest);
      if b.orders[c].req.reduceOnly && b.orders[c].req.side == side {
        var e := SetStatus(b, c, Canceled, b.orders[c].code);
        CancelOne(b, pend + (keep + todo), None, c, b.orders[c].code);
        CancelProtectingOk(e, pend, rest, side, keep);
        GrowsTwice(b, e, CancelProtecting(e, rest, side, keep));
      } else {
        assert keep + todo == (keep + [c]) + rest;
        CancelProtectingOk(b, pend, rest, side, keep + [c]);
      }
    }
  }

  /** The head of a queue is NEW, and taking it out leaves the rest. */
  lemma HeadNew(b: Book, pend: seq<Coid>, keep: seq<Coid>, c: Coid, rest: seq<Coid>)
    requires Ok(b, pend + (keep + ([c] + rest)), None)
    ensures IsNew(b, c) && c in pend + (keep + ([c] + rest))
    ensures Remove(pend + (keep + ([c] + rest)), c) == pend + (keep + rest)
  {
    var all := pend + (keep + ([c] + rest));
    assert all[|pend| + |keep|] == c;
    Apart(pend, keep + ([c] + rest));
    Apart(keep, [c] + rest);
    assert c in [c] + rest;
    RemoveConcat(pend, keep + ([c] + rest), c);
    RemoveConcat(keep, [c] + rest, c);
    assert ([c] + rest)[1..] == rest;
  }

  /** The loose order is filled. */
  lemma FillsKeep(b: Book, env: Env, ids: seq<Coid>, c: Coid, pRef: real, ts: int, why: Option<ExitReason>, qty: real)
    requires Ok(b, ids, Some(c)) && qty > 0.0
    ensures Ok(Fills(b, env, c, pRef, ts, why, qty), ids, None) && Grows(b, Fills(b, env, c, pRef, ts, why, qty))
  {
    var e := Fills(b, env, c, pRef, ts, why, qty);
    var n := |b.fills|;
    assert IsNew(b, c) && c in b.orders;
    assert e.fills[..n] == b.fills;
    assert e.orders == b.orders[c := e.orders[c]] && e.orders[c].status.Filled? && e.orders[c].req == b.orders[c].req;
    FillOf(b.fills, e.fills, c);
    hide Fills;
    FilledAlone(b, e, ids, c);
  }

  /** One more fill is one more filled id. */
  lemma FillOf(fs: seq<Fill>, gs: seq<Fill>, c: Coid)
    requires |gs| == |fs| + 1 && gs[..|fs|] == fs && gs[|fs|].coid == c
    ensures forall x :: HasFill(gs, x) <==> HasFill(fs, x) || x == c
  {
    var n := |fs|;
    forall x ensures HasFill(gs, x) <==> HasFill(fs, x) || x == c {
      if HasFill(fs, x) { var i :| 0 <= i < n && fs[i].coid == x; assert gs[i].coid == x; }
      if x == c { assert gs[n].coid == c; }
      if HasFill(gs, x) { var i :| 0 <= i < |gs| && gs[i].coid == x; assert i < n ==> fs[i].coid == x; }
    }
  }

  /** The one order that was being executed becomes FILLED, with its fill. */
  lemma FilledAlone(b: Book, e: Book, ids: seq<Coid>, c: Coid)
    requires Ok(b, ids, Some(c)) && c in b.orders && c in e.orders && e.seqNo == b.seqNo
    requires e.orders == b.orders[c := e.orders[c]] && e.orders[c].status.Filled? && e.orders[c].req == b.orders[c].req
    requires |e.fills| == |b.fills| + 1 && e.fills[..|b.fills|] == b.fills && e.fills[|b.fills|].coid == c
             && e.fills[|b.fills|].qty > 0.0
    requires e.position == b.position + Signed(e.fills[|b.fills|].side, e.fills[|b.fills|].qty)
    requires forall x :: HasFill(e.fills, x) <==> HasFill(b.fills, x) || x == c
    ensures Ok(e, ids, None) && Grows(b, e)
  {
    assert IsNew(b, c) && !HasFill(b.fills, c);
    assert Queued(e, ids, None);
    hide Queued;
    forall i | 0 <= i < |b.fills| ensures e.fills[i].coid != c {
      assert b.fills[i].coid == e.fills[i].coid && HasFill(b.fills, b.fills[i].coid);
    }
  }

  lemma ClosedOk(b: Book, pend: seq<Coid>, was: real)
    requires Ok(b, pend + b.stops, None)
    ensures var e := OnPositionClosed(b, was);
            Ok(e, pend + e.stops, None) && Grows(b, e) && forall x | x in e.stops :: x in b.stops
  {
    hide Ok, Grows;
    assert [] + b.stops == b.stops;
    var side := if was > 0.0 then Short else Long;
    CancelProtectingOk(b, pend, b.stops, side, []);
    var b2 := CancelProtecting(b, b.stops, side, []);
    var e := OnPositionClosed(b, was);
    hide CancelProtecting;
    Unrelated(b2, e, pend + b2.stops, None);
    GrowsTwice(b, b2, e);
  }

  lemma ExecuteOk(b: Book, env: Env, pend: seq<Coid>, c: Coid, pRef: real, ts: int, why: Option<ExitReason>)
    requires Ok(b, pend + b.stops, Some(c))
    ensures var e := Execute(b, env, c, pRef, ts, why);
            Ok(e, pend + e.stops, None) && Grows(b, e) && forall x | x in e.stops :: x in b.stops
  {
    assert IsNew(b, c);
    hide Ok, Grows, OnPositionClosed;
    var qty := ExecutableQty(b.position, b.orders[c].req);
    if qty <= 0.0 {
      CancelOne(b, pend + b.stops, Some(c), c, Some(ReduceOnly));
    } else {
      FillsKeep(b, env, pend + b.stops, c, pRef, ts, why, qty);
      var b1 := Fills(b, env, c, pRef, ts, why, qty);
      ClosedOk(b1, pend, b.position);
      GrowsTwice(b, b1, OnPositionClosed(b1, b.position));
    }
  }

  lemma FireStopOk(b: Book, env: Env, pend: seq<Coid>, c: Coid, pRef: real, t: int)
    requires Ok(b, pend + b.stops, None) && c in b.stops
    ensures var e := Execute(b.(stops := Remove(b.stops, c)), env, c, pRef, t, None);
            Ok(e, pend + e.stops, None) && Grows(b, e) && forall x | x in e.stops :: x in b.stops
  {
    hide Ok, Grows, Execute;
    LooseStop(b, pend, c);
    var b1 := b.(stops := Remove(b.stops, c));
    ExecuteOk(b1, env, pend, c, pRef, t, None);
    GrowsTwice(b, b1, Execute(b1, env, c, pRef, t, None));
  }

  /** Firing a trigger executes one queued stop or one fresh synthetic order. */
  lemma FireOk(b: Book, env: Env, pend: seq<Coid>, tr: Trigger, pRef: real, t: int)
    requires Ok(b, pend + b.stops, None) && tr in Triggers(b, t)
    ensures var e := Fire(b, env, tr, pRef, t);
            Ok(e, pend + e.stops, None) && Grows(b, e) && forall x | x in e.stops :: x in b.stops
  {
    StopTriggersIn(b, b.stops, t);
    if tr.StopAt? {
      hide Ok, Grows, Execute, Remove;
      FireStopOk(b, env, pend, tr.coid, pRef, t);
    } else {
      hide Execute, Triggers, StopTriggers, Ok, Grows;
      var id := Synthetic(b.seqNo);
      var req := Request(id, env.symbol, if b.position > 0.0 then Short else Long, StopMarket, Abs(b.position),
        Some(tr.level), true, t);
      var b1 := if tr.ProfitAt? then b.(tp := None, tpSide := 0) else b.(liq := None);
      var b2 := b1.(seqNo := b.seqNo + 1, orders := b1.orders[id := Order(req, New, None, 0.0, None, None)]);
      NextNumberIsFree(b, pend + b.stops);
      FreshOrder(b, b2, pend + b.stops, req);
      ExecuteOk(b2, env, pend, id, pRef, t, Some(if tr.ProfitAt? then TakeProfit else Liquidation));
      GrowsTwice(b, b2, Fire(b, env, tr, pRef, t));
    }
  }

  lemma NextNumberIsFree(b: Book, ids: seq<Coid>)
    requires Ok(b, ids, None)
    ensures Synthetic(b.seqNo) !in b.orders
  {
  }

  lemma LooseStop(b: Book, pend: seq<Coid>, c: Coid)
    requires Ok(b, pend + b.stops, None) && c in b.stops
    ensures var b1 := b.(stops := Remove(b.stops, c));
            Ok(b1, pend + b1.stops, Some(c)) && Grows(b, b1) && forall x | x in b1.stops :: x in b.stops
  {
    var all := pend + b.stops;
    Apart(pend, b.stops);
    RemoveConcat(pend, b.stops, c);
    RemoveIs(all, c);
    RemoveIs(b.stops, c);
    Unrelated(b, b.(stops := Remove(b.stops, c)), all, None);
  }

  lemma FreshOrder(b: Book, e: Book, ids: seq<Coid>, req: Request)
    requires Ok(b, ids, None) && req.coid !in b.orders && (req.coid.Synthetic? ==> req.coid.k == b.seqNo)
    requires e.orders == b.orders[req.coid := Order(req, New, None, 0.0, None, None)]
    requires e.seqNo == b.seqNo + 1 && e.fills == b.fills && e.position == b.position
    ensures Ok(e, ids, Some(req.coid)) && Grows(b, e)
  {
  }

  lemma FireFrame(b: Book, env: Env, tr: Trigger, pRef: real, t: int)
    ensures var e := Fire(b, env, tr, pRef, t);
            e.market == b.market && e.lastOpen == b.lastOpen && e.lastClose == b.lastClose && e.rate == b.rate
              && e.charges == b.charges
  {
    match tr {
      case StopAt(c, _, _) => ExecuteShrinks(b.(stops := Remove(b.stops, c)), env, c, pRef, t, None);
      case _ =>
        var id := Synthetic(b.seqNo);
        var req := Request(id, env.symbol, if b.position > 0.0 then Short else Long, StopMarket, Abs(b.position),
          Some(tr.level), true, t);
        var b1 := if tr.ProfitAt? then b.(tp := None, tpSide := 0) else b.(liq := None);
        var b2 := b1.(seqNo := b.seqNo + 1, orders := b1.orders[id := Order(req, New, None, 0.0, None, None)]);
        ExecuteShrinks(b2, env, id, pRef, t, Some(if tr.ProfitAt? then TakeProfit else Liquidation));
    }
  }

  /** The broker between two calls. */
  ghost predicate AtRest(b: Book) {
    Ok(b, b.market + b.stops, None)
  }

  /** One later state of the same broker, in which no order was added to a queue. */
  ghost predicate Follows(b: Book, e: Book) {
    && AtRest(e) && Grows(b, e)
    && (forall c | c in e.stops :: c in b.stops) && forall c | c in e.market :: c in b.market
  }

  lemma FollowsTwice(b: Book, e: Book, f: Book)
    requires Follows(b, e) && Follows(e, f)
    ensures Follows(b, f)
  {
    hide Ok;
  }

  lemma {:induction false} FillMarketOk(b: Book, env: Env, bar: Bar, todo: seq<Coid>, keep: seq<Coid>)
    requires Ok(b, keep + todo + b.stops, None) && forall c | c in keep + todo :: c in b.market
    ensures Follows(b, FillMarket(b, env, bar, todo, keep))
    decreases |todo|
  {
    if todo == [] {
      assert keep + todo == keep;
      Unrelated(b, b.(market := keep), keep + b.stops, None);
    } else {
      hide Ok, Grows, Execute;
      var c, rest := todo[0], todo[1..];
      assert keep + todo + b.stops == [] + (keep + ([c] + (rest + b.stops)));
      HeadNew(b, [], keep, c, rest + b.stops);
      if bar.t < b.orders[c].req.tsCreated {
        assert (keep + [c]) + rest + b.stops == keep + todo + b.stops;
        FillMarketOk(b, env, bar, rest, keep + [c]);
      } else {
        TakeLoose(b, keep + todo + b.stops, c);
        assert [] + (keep + (rest + b.stops)) == keep + rest + b.stops;
        ExecuteOk(b, env, keep + rest, c, bar.o, bar.t, None);
        var e := Execute(b, env, c, bar.o, bar.t, None);
        ExecuteShrinks(b, env, c, bar.o, bar.t, None);
        FillMarketOk(e, env, bar, rest, keep);
        GrowsTwice(b, e, FillMarket(e, env, bar, rest, keep));
      }
    }
  }

  lemma TakeLoose(b: Book, ids: seq<Coid>, c: Coid)
    requires Ok(b, ids, None) && c in ids
    ensures Ok(b, Remove(ids, c), Some(c))
  {
    RemoveIs(ids, c);
  }

  lemma WalkOk(b: Book, env: Env, bar: Bar)
    requires AtRest(b) && BarOk(bar)
    ensures Follows(b, Walk(b, env, bar))
  {
    var J := (x: Book) => Follows(b, x) && x.market == b.market;
    forall x, tr, p | J(x) && tr in Triggers(x, bar.t) && FiresAt(tr, p, bar) ensures J(Fire(x, env, tr, p, bar.t)) {
      hide Ok, Grows, Fire, Triggers;
      FireOk(x, env, x.market, tr, p, bar.t);
      FireFrame(x, env, tr, p, bar.t);
      GrowsTwice(b, x, Fire(x, env, tr, p, bar.t));
    }
    assert Grows(b, b);
    WalkKeeps(J, b, env, bar);
  }

  lemma {:induction false} ExpireFromOk(b: Book, todo: seq<Coid>, longEntry: bool, shortEntry: bool, keep: seq<Coid>)
    requires Ok(b, b.market + (keep + todo), None)
    ensures var e := ExpireFrom(b, todo, longEntry, shortEntry, keep);
            && Ok(e, e.market + e.stops, None) && Grows(b, e)
            && (forall c | c in e.stops :: c in keep || c in todo)
            && e == b.(orders := e.orders, stops := e.stops)
    decreases |todo|
  {
    hide Ok, Grows;
    if todo == [] {
      assert keep + todo == keep;
      Unrelated(b, b.(stops := keep), b.market + keep, None);
    } else {
      var c, rest := todo[0], todo[1..];
      assert todo == [c] + rest;
      HeadNew(b, b.market, keep, c, rest);
      if Orphan(b, longEntry, shortEntry, c) {
        var e := SetStatus(b, c, Canceled, Some(ReduceOnly));
        CancelOne(b, b.market + (keep + todo), None, c, Some(ReduceOnly));
        ExpireFromOk(e, rest, longEntry, shortEntry, keep);
        GrowsTwice(b, e, ExpireFrom(e, rest, longEntry, shortEntry, keep));
      } else {
        assert keep + todo == (keep + [c]) + rest;
        ExpireFromOk(b, rest, longEntry, shortEntry, keep + [c]);
      }
    }
  }

  lemma ExpireOk(b: Book)
    requires AtRest(b)
    ensures Follows(b, ExpireOrphans(b)) && ExpireOrphans(b).position == b.position && ExpireOrphans(b).fills == b.fills
  {
    assert [] + b.stops == b.stops;
    ExpireFromOk(b, b.stops, HasEntry(b, Long), HasEntry(b, Short), []);
  }

  lemma {:induction false} ChargeEachFrame(b: Book, times: seq<int>, end: int, open: real)
    ensures var e := ChargeEach(b, times, end, open);
            && e == b.(charges := e.charges) && |e.charges| == |b.charges| + |times| && b.charges <= e.charges
            && forall i | 0 <= i < |times| :: e.charges[|b.charges| + i] == ChargeAt(b, times[i], end, open)
    decreases |times|
  {
    if times != [] {
      var b1 := b.(charges := b.charges + [ChargeAt(b, times[0], end, open)]);
      ChargeEachFrame(b1, times[1..], end, open);
      var e := ChargeEach(b1, times[1..], end, open);
      assert e.charges[|b.charges|] == b1.charges[|b.charges|];
      forall i | 0 <= i < |times| ensures e.charges[|b.charges| + i] == ChargeAt(b, times[i], end, open) {
        if i > 0 {
          assert times[1..][i - 1] == times[i];
          assert e.charges[|b1.charges| + (i - 1)] == ChargeAt(b1, times[1..][i - 1], end, open);
        }
      }
    }
  }

  lemma ChargeFrame(b: Book, env: Env, bar: Bar)
    requires ValidEnv(env)
    ensures ChargeFunding(b, env, bar) == b.(charges := ChargeFunding(b, env, bar).charges)
  {
    if b.lastOpen.Some? {
      ChargeEachFrame(b, Funding.FundingTimes(env.offs, b.lastOpen.value, bar.t), bar.t, bar.o);
    }
  }

  lemma MarketWalkExpire(b: Book, env: Env, bar: Bar)
    requires AtRest(b) && BarOk(bar)
    ensures Follows(b, ExpireOrphans(Walk(FillMarket(b, env, bar, b.market, []), env, bar)))
  {
    hide Ok, Grows, Walk, FillMarket, ExpireOrphans;
    assert [] + b.market == b.market;
    FillMarketOk(b, env, bar, b.market, []);
    var b2 := FillMarket(b, env, bar, b.market, []);
    WalkOk(b2, env, bar);
    var b3 := Walk(b2, env, bar);
    ExpireOk(b3);
    hide Follows;
    FollowsTwice(b, b2, b3);
    FollowsTwice(b, b3, ExpireOrphans(b3));
  }

  /** A whole bar. */
  lemma OnBarOk(b: Book, env: Env, bar: Bar)
    requires AtRest(b) && ValidEnv(env) && BarOk(bar)
    ensures OnBar(b, env, bar).Some? ==> Follows(b, OnBar(b, env, bar).value)
  {
    if OnBar(b, env, bar).Some? {
      hide Ok, Grows, Walk, FillMarket, ExpireOrphans, ChargeFunding;
      var b1 := ChargeFunding(b, env, bar);
      ChargeFrame(b, env, bar);
      Unrelated(b, b1, b.market + b.stops, None);
      MarketWalkExpire(b1, env, bar);
      var b4 := ExpireOrphans(Walk(FillMarket(b1, env, bar, b1.market, []), env, bar));
      var e := b4.(lastOpen := Some(bar.t), lastClose := Some(bar.c));
      Unrelated(b4, e, b4.market + b4.stops, None);
      GrowsTwice(b, b1, b4);
      GrowsTwice(b, b4, e);
    }
  }
}
