/** What a bar does to each kind of order: market orders execute at the open, levels that are crossed close the
    position, the adverse side comes first, and closing a position ends what protected it. */
module BarOrders {
  import opened Base
  import opened Broker
  import opened BrokerProofs
  import opened BrokerTheorems

  // ---------------------------------------------------------------- market orders

  lemma {:induction false} ProtectingOthers(b: Book, todo: seq<Coid>, side: Side, keep: seq<Coid>, d: Coid)
    requires d !in todo && d in b.orders
    ensures var e := CancelProtecting(b, todo, side, keep); d in e.orders && e.orders[d] == b.orders[d]
    decreases |todo|
  {
    if todo != [] {
      var c := todo[0];
      assert todo == [c] + todo[1..];
      if !IsNew(b, c) {
        ProtectingOthers(b, todo[1..], side, keep, d);
      } else if b.orders[c].req.reduceOnly && b.orders[c].req.side == side {
        ProtectingOthers(SetStatus(b, c, Canceled, b.orders[c].code), todo[1..], side, keep, d);
      } else {
        ProtectingOthers(b, todo[1..], side, keep + [c], d);
      }
    }
  }

  /** Executing one order touches no other one that is not a stop. */
  lemma ExecuteOthers(b: Book, env: Env, c: Coid, pRef: real, ts: int, why: Option<ExitReason>, d: Coid)
    requires d != c && d !in b.stops && d in b.orders
    ensures var e := Execute(b, env, c, pRef, ts, why); d in e.orders && e.orders[d] == b.orders[d]
  {
    if c in b.orders {
      var b1 := Fills(b, env, c, pRef, ts, why, ExecutableQty(b.position, b.orders[c].req));
      ProtectingOthers(b1, b1.stops, if b.position > 0.0 then Short else Long, [], d);
    }
  }

  /** An order that is executed is filled, or cancelled because there was nothing to reduce. */
  ghost predicate Ended(o: Order) {
    o.status.Filled? || (o.status.Canceled? && o.code == Some(ReduceOnly) && o.req.reduceOnly)
  }

  lemma ExecuteEnds(b: Book, env: Env, c: Coid, pRef: real, ts: int, why: Option<ExitReason>)
    requires c in b.orders && b.orders[c].req.qty > 0.0
    ensures var e := Execute(b, env, c, pRef, ts, why);
            c in e.orders && Ended(e.orders[c]) && e.orders[c].req == b.orders[c].req
  {
    var qty := ExecutableQty(b.position, b.orders[c].req);
    if qty > 0.0 {
      var b1 := Fills(b, env, c, pRef, ts, why, qty);
      CancelProtectingFilled(b1, b1.stops, if b.position > 0.0 then Short else Long, [], c);
    }
  }

  ghost predicate Untouched(b: Book, e: Book, c: Coid) {
    c in b.orders && c in e.orders && e.orders[c] == b.orders[c]
  }

  lemma QueueApart(b: Book, s: seq<Coid>, c: Coid)
    requires Ok(b, s + b.stops, None) && c in s
    ensures IsNew(b, c) && c !in b.stops
  {
    Apart(s, b.stops);
    assert c in s + b.stops;
  }

  /** The market queue at the open: who was there in time ends, who came later stays as he is. */
  lemma {:induction false} MarketEnds(b: Book, env: Env, bar: Bar, todo: seq<Coid>, keep: seq<Coid>, c: Coid)
    requires Ok(b, keep + todo + b.stops, None) && c in keep + todo && c in b.orders
    requires forall x | x in keep + todo :: x in b.market && x in b.orders && b.orders[x].req.qty > 0.0
    ensures var e := FillMarket(b, env, bar, todo, keep);
            && c in e.orders && e.orders[c].req == b.orders[c].req
            && (c in todo && b.orders[c].req.tsCreated <= bar.t ==> Ended(e.orders[c]))
            && (c in keep || b.orders[c].req.tsCreated > bar.t ==> Untouched(b, e, c) && c in e.market)
    decreases |todo|
  {
    QueueApart(b, keep + todo, c);
    if todo == [] {
      assert keep + todo == keep;
    } else {
      hide Ok, Grows, Execute, Ended, Remove;
      var (x, rest) := (todo[0], todo[1..]);
      assert x in todo && todo == [x] + rest;
      assert keep + todo + b.stops == [] + (keep + ([x] + (rest + b.stops)));
      HeadNew(b, [], keep, x, rest + b.stops);
      if bar.t < b.orders[x].req.tsCreated {
        assert (keep + [x]) + rest + b.stops == keep + todo + b.stops;
        MarketEnds(b, env, bar, rest, keep + [x], c);
        assert DistinctHead(keep, x, rest) by { HeadOnce(b, keep, x, rest); }
      } else {
        TakeLoose(b, keep + todo + b.stops, x);
        assert [] + (keep + (rest + b.stops)) == keep + rest + b.stops;
        ExecuteOk(b, env, keep + rest, x, bar.o, bar.t, None);
        HeadOnce(b, keep, x, rest);
        var e := Execute(b, env, x, bar.o, bar.t, None);
        GrowsOrders(b, e);
        ExecuteShrinks(b, env, x, bar.o, bar.t, None);
        ExecuteEnds(b, env, x, bar.o, bar.t, None);
        if c == x {
          EndedStays(b, e, env, bar, rest, keep, c);
        } else {
          ExecuteOthers(b, env, x, bar.o, bar.t, None, c);
          MarketEnds(e, env, bar, rest, keep, c);
        }
      }
    }
  }

  ghost predicate DistinctHead(keep: seq<Coid>, x: Coid, rest: seq<Coid>) {
    x !in keep && x !in rest
  }

  lemma HeadOnce(b: Book, keep: seq<Coid>, x: Coid, rest: seq<Coid>)
    requires Ok(b, keep + ([x] + rest) + b.stops, None)
    ensures DistinctHead(keep, x, rest)
  {
    Apart(keep + ([x] + rest), b.stops);
    Apart(keep, [x] + rest);
    Apart([x], rest);
    assert x in [x] + rest && x in [x];
  }

  lemma GrowsOrders(b: Book, e: Book)
    requires Grows(b, e)
    ensures forall c | c in b.orders :: c in e.orders && e.orders[c].req == b.orders[c].req
  {
  }

  /** An order that has ended stays so. */
  lemma EndedStays(b: Book, e: Book, env: Env, bar: Bar, rest: seq<Coid>, keep: seq<Coid>, c: Coid)
    requires Ok(e, keep + rest + e.stops, None) && c in e.orders && Ended(e.orders[c])
    requires forall x | x in keep + rest :: x in e.market
    ensures var f := FillMarket(e, env, bar, rest, keep); c in f.orders && f.orders[c] == e.orders[c]
  {
    FillMarketOk(e, env, bar, rest, keep);
  }

  /** The walk and the expiry leave the market queue alone. */
  lemma FireOthers(b: Book, env: Env, tr: Trigger, p: real, t: int, d: Coid)
    requires d !in b.stops && d in b.orders && tr in Triggers(b, t) && AtRest(b)
    ensures var e := Fire(b, env, tr, p, t); Untouched(b, e, d)
  {
    StopTriggersIn(b, b.stops, t);
    match tr {
      case StopAt(c, _, _) =>
        LooseStop(b, b.market, c);
        ExecuteOthers(b.(stops := Remove(b.stops, c)), env, c, p, t, None, d);
      case _ =>
        NextNumberIsFree(b, b.market + b.stops);
        var id := Synthetic(b.seqNo);
        var req := Request(id, env.symbol, if b.position > 0.0 then Short else Long, StopMarket, Abs(b.position),
          Some(tr.level), true, t);
        var b1 := if tr.ProfitAt? then b.(tp := None, tpSide := 0) else b.(liq := None);
        var b2 := b1.(seqNo := b.seqNo + 1, orders := b1.orders[id := Order(req, New, None, 0.0, None, None)]);
        ExecuteOthers(b2, env, id, p, t, Some(if tr.ProfitAt? then TakeProfit else Liquidation), d);
    }
  }

  lemma WalkOthers(b: Book, env: Env, bar: Bar, d: Coid)
    requires AtRest(b) && BarOk(bar) && d in b.orders && d !in b.stops
    ensures Untouched(b, Walk(b, env, bar), d) && d !in Walk(b, env, bar).stops && Walk(b, env, bar).market == b.market
  {
    var J := (x: Book) => AtRest(x) && Untouched(b, x, d) && d !in x.stops && x.market == b.market;
    forall x, tr, p | J(x) && tr in Triggers(x, bar.t) && FiresAt(tr, p, bar) ensures J(Fire(x, env, tr, p, bar.t)) {
      FireOthers(x, env, tr, p, bar.t, d);
      FireOk(x, env, x.market, tr, p, bar.t);
      FireFrame(x, env, tr, p, bar.t);
      hide Ok, Grows, Fire, Triggers;
    }
    WalkKeeps(J, b, env, bar);
  }

  lemma {:induction false} ExpireOthers(b: Book, todo: seq<Coid>, longEntry: bool, shortEntry: bool, keep: seq<Coid>,
      d: Coid)
    requires d !in todo && d in b.orders
    ensures var e := ExpireFrom(b, todo, longEntry, shortEntry, keep); Untouched(b, e, d) && e.market == b.market
    decreases |todo|
  {
    if todo != [] {
      var (c, rest) := (todo[0], todo[1..]);
      assert todo == [c] + rest;
      if !IsNew(b, c) {
        ExpireOthers(b, rest, longEntry, shortEntry, keep, d);
      } else if Orphan(b, longEntry, shortEntry, c) {
        ExpireOthers(SetStatus(b, c, Canceled, Some(ReduceOnly)), rest, longEntry, shortEntry, keep, d);
      } else {
        ExpireOthers(b, rest, longEntry, shortEntry, keep + [c], d);
      }
    }
  }

  /** Fill number `i` of `e` executed market order `c` at the open of the bar, in full. */
  ghost predicate FilledAtOpen(e: Book, i: nat, c: Coid, bar: Bar)
    requires c in e.orders && i < |e.fills|
  {
    var (f, req) := (e.fills[i], e.orders[c].req);
    f.coid == c && f.side == req.side && f.pRef == bar.o && f.ts == bar.t
    && f.qty <= req.qty && (!req.reduceOnly ==> f.qty == req.qty)
  }

  /** A market order that was there when the bar opened ends in the bar: it is filled at the open - in full, unless it
      is reduce-only - or, if reduce-only, cancelled because there was nothing to reduce. One that was created later is
      left as it is and stays queued. */
  lemma MarketOrdersAtOpen(b: Book, env: Env, bar: Bar, c: Coid)
    requires AtRest(b) && Typed(b) && ValidEnv(env) && BarOk(bar) && OnBar(b, env, bar).Some?
    requires IsNew(b, c) && b.orders[c].req.otype.Market?
    ensures var e := OnBar(b, env, bar).value;
            && c in e.orders && e.orders[c].req == b.orders[c].req
            && (b.orders[c].req.tsCreated <= bar.t ==>
                  if e.orders[c].status.Filled?
                  then exists i :: |b.fills| <= i < |e.fills| && FilledAtOpen(e, i, c, bar)
                  else && e.orders[c].status.Canceled? && e.orders[c].code == Some(ReduceOnly)
                       && e.orders[c].req.reduceOnly)
            && (b.orders[c].req.tsCreated > bar.t ==> e.orders[c] == b.orders[c] && c in e.market)
  {
    var m, w, e := Stages(b, env, bar);
    var b1 := ChargeFunding(b, env, bar);
    MarketQueue(b, b1, c);
    assert [] + b1.market == b1.market;
    MarketEnds(b1, env, bar, b1.market, [], c);
    hide OnBar, Walk, FillMarket, ChargeFunding, Ended, ExpireOrphans, Grows, Follows;
    if b.orders[c].req.tsCreated <= bar.t {
      EndStays(m, w, e, c);
      if e.orders[c].status.Filled? {
        BarFillsHonest(b, env, bar);
        FillIsNew(b, e, env, bar, c);
      }
    } else {
      LaterWaits(m, w, e, env, bar, c);
    }
  }

  /** An order that stays in the market queue is untouched by the rest of the bar. */
  lemma LaterWaits(m: Book, w: Book, e: Book, env: Env, bar: Bar, c: Coid)
    requires AtRest(m) && BarOk(bar) && w == Walk(m, env, bar) && c in m.market
    requires e == ExpireOrphans(w).(lastOpen := e.lastOpen, lastClose := e.lastClose)
    ensures Untouched(m, e, c) && c in e.market
  {
    QueueApart(m, m.market, c);
    WalkOthers(m, env, bar, c);
    hide Walk;
    ExpireOthers(w, w.stops, HasEntry(w, Long), HasEntry(w, Short), [], c);
  }

  /** The book after the market orders, after the walk, and at the end of the bar. */
  lemma Stages(b: Book, env: Env, bar: Bar) returns (m: Book, w: Book, e: Book)
    requires AtRest(b) && Typed(b) && ValidEnv(env) && BarOk(bar) && OnBar(b, env, bar).Some?
    ensures e == OnBar(b, env, bar).value && w == Walk(m, env, bar)
    ensures var b1 := ChargeFunding(b, env, bar);
            && m == FillMarket(b1, env, bar, b1.market, []) && b1 == b.(charges := b1.charges) && AtRest(b1)
    ensures e == ExpireOrphans(w).(lastOpen := Some(bar.t), lastClose := Some(bar.c))
    ensures AtRest(m) && Typed(m) && AtRest(w) && AtRest(e) && Grows(b, m) && Grows(m, w) && Grows(w, e)
            && Follows(b, m)
  {
    hide Ok, Grows, Walk, FillMarket, ExpireOrphans, ChargeFunding;
    var b1 := ChargeFunding(b, env, bar);
    ChargeFrame(b, env, bar);
    Unrelated(b, b1, b.market + b.stops, None);
    assert [] + b1.market == b1.market;
    FillMarketOk(b1, env, bar, b1.market, []);
    m := FillMarket(b1, env, bar, b1.market, []);
    GrowsTwice(b, b1, m);
    FollowsTyped(b, m);
    WalkOk(m, env, bar);
    w := Walk(m, env, bar);
    ExpireOk(w);
    var x := ExpireOrphans(w);
    e := x.(lastOpen := Some(bar.t), lastClose := Some(bar.c));
    Unrelated(x, e, x.market + x.stops, None);
    GrowsTwice(w, x, e);
  }

  lemma MarketQueue(b: Book, b1: Book, c: Coid)
    requires AtRest(b) && Typed(b) && IsNew(b, c) && b.orders[c].req.otype.Market? && b1 == b.(charges := b1.charges)
    ensures c in b1.market && forall x | x in b1.market :: x in b1.orders && b1.orders[x].req.qty > 0.0
  {
    assert c in b.market + b.stops;
  }

  lemma EndStays(m: Book, w: Book, e: Book, c: Coid)
    requires Grows(m, w) && Grows(w, e) && c in m.orders && Ended(m.orders[c])
    ensures c in e.orders && e.orders[c] == m.orders[c] && Ended(e.orders[c])
    ensures e.orders[c].status.Filled? || (e.orders[c].status.Canceled? && e.orders[c].code == Some(ReduceOnly)
                                           && e.orders[c].req.reduceOnly)
  {
  }

  lemma FillIsNew(b: Book, e: Book, env: Env, bar: Bar, c: Coid)
    requires AtRest(b) && AtRest(e) && IsNew(b, c) && b.fills <= e.fills && TrueSince(|b.fills|, e, env, bar)
    requires c in e.orders && e.orders[c].status.Filled? && e.orders[c].req.otype.Market?
    ensures exists i :: |b.fills| <= i < |e.fills| && FilledAtOpen(e, i, c, bar)
  {
    assert HasFill(e.fills, c) && !HasFill(b.fills, c);
    var i :| 0 <= i < |e.fills| && e.fills[i].coid == c;
    assert forall k | 0 <= k < |b.fills| :: e.fills[k] == b.fills[k] && b.fills[k].coid != c;
    assert TrueFill(e, env, i, bar);
    assert FilledAtOpen(e, i, c, bar);
  }

  // ---------------------------------------------------------------- while a position is held, and once it is gone

  /** Both long or both short. */
  predicate SameSide(p: real, q: real) {
    (p > 0.0 && q > 0.0) || (p < 0.0 && q < 0.0)
  }

  /** Since `b` the position was closed, possibly turned round, at some moment. */
  ghost predicate Flattened(b: Book, e: Book) {
    exists n :: |b.fills| < n <= |e.fills| && !SameSide(b.position, Net(e.fills[..n]))
  }

  /** The take-profit of `b` is meant for the position of `b`. */
  predicate OwnProfit(b: Book) {
    b.tpSide == 0 || b.tpSide == SignOf(b.position)
  }

  /** A live stop that can only reduce the position of `b`. */
  ghost predicate Protects(b: Book, c: Coid) {
    c in b.stops && IsNew(b, c) && b.orders[c].req.reduceOnly && Opposes(b.orders[c].req.side, b.position)
  }

  /** The position of `b` has been held since: its levels are in place, and its protective stop `c` is untouched or
      filled. */
  ghost predicate Held(b: Book, x: Book, c: Option<Coid>) {
    && !Flattened(b, x) && SameSide(b.position, x.position)
    && x.liq == b.liq && x.tp == b.tp && x.tpSide == b.tpSide
    && (c.Some? ==> c.value in x.orders
                    && ((Untouched(b, x, c.value) && c.value in x.stops) || x.orders[c.value].status.Filled?))
  }

  /** It was closed: its levels are gone, and so is what protected it. */
  ghost predicate Gone(b: Book, x: Book, c: Option<Coid>) {
    && Flattened(b, x) && x.liq.None? && (OwnProfit(b) ==> x.tp.None?)
    && (c.Some? ==> c.value in x.orders && !IsNew(x, c.value))
  }

  ghost predicate Either(b: Book, x: Book, c: Option<Coid>) {
    && b.fills <= x.fills && x.position == Net(x.fills) && b.position != 0.0
    && (c.Some? ==> Protects(b, c.value) && b.orders[c.value].req.qty > 0.0)
    && (Held(b, x, c) || Gone(b, x, c))
  }

  lemma StartsHeld(b: Book, c: Option<Coid>)
    requires b.position != 0.0 && b.position == Net(b.fills)
             && (c.Some? ==> Protects(b, c.value) && b.orders[c.value].req.qty > 0.0)
    ensures Either(b, b, c) && Held(b, b, c)
  {
  }

  /** One more fill. */
  lemma FlattenedStep(b: Book, x: Book, y: Book)
    requires b.fills <= x.fills && |y.fills| == |x.fills| + 1 && y.fills[..|x.fills|] == x.fills
             && y.position == Net(y.fills)
    ensures Flattened(b, y) <==> Flattened(b, x) || !SameSide(b.position, y.position)
  {
    hide SameSide, Net;
    assert y.fills[..|y.fills|] == y.fills;
    assert forall n | 0 <= n <= |x.fills| :: y.fills[..n] == x.fills[..n];
    if Flattened(b, x) {
      var n :| |b.fills| < n <= |x.fills| && !SameSide(b.position, Net(x.fills[..n]));
      assert !SameSide(b.position, Net(y.fills[..n]));
    }
    if !SameSide(b.position, y.position) {
      assert !SameSide(b.position, Net(y.fills[..|y.fills|]));
    }
  }

  lemma {:induction false} ProtectingSpares(b: Book, todo: seq<Coid>, side: Side, keep: seq<Coid>, c: Coid)
    requires c in b.orders
    ensures var e := CancelProtecting(b, todo, side, keep);
            && c in e.orders && (!IsNew(b, c) ==> e.orders[c] == b.orders[c])
            && (c in todo && b.orders[c].req.reduceOnly && b.orders[c].req.side == side ==> !IsNew(e, c))
    decreases |todo|
  {
    if todo != [] {
      var d := todo[0];
      assert todo == [d] + todo[1..];
      if !IsNew(b, d) {
        ProtectingSpares(b, todo[1..], side, keep, c);
      } else if b.orders[d].req.reduceOnly && b.orders[d].req.side == side {
        ProtectingSpares(SetStatus(b, d, Canceled, b.orders[d].code), todo[1..], side, keep, c);
      } else {
        ProtectingSpares(b, todo[1..], side, keep + [d], c);
      }
    }
  }

  /** What one execution does, as far as a held position is concerned. */
  lemma ExecuteEffect(x: Book, env: Env, d: Coid, pRef: real, ts: int, why: Option<ExitReason>)
    requires d in x.orders && x.position == Net(x.fills)
    ensures var (y, qty) := (Execute(x, env, d, pRef, ts, why), ExecutableQty(x.position, x.orders[d].req));
            if qty <= 0.0 then
              y == x.(orders := x.orders[d := y.orders[d]]) && d in y.orders && y.orders[d].status.Canceled?
            else
              && |y.fills| == |x.fills| + 1 && y.fills[..|x.fills|] == x.fills && y.position == Net(y.fills)
              && y.position == x.position + Signed(x.orders[d].req.side, qty)
              && d in y.orders && y.orders[d].status.Filled?
              && if Closes(x, y) then
                   && y.liq.None?
                   && (if OwnProfit(x) then y.tp.None? && y.tpSide == 0 else y.tp == x.tp && y.tpSide == x.tpSide)
                 else y.liq == x.liq && y.tp == x.tp && y.tpSide == x.tpSide && y.stops == x.stops
  {
    var qty := ExecutableQty(x.position, x.orders[d].req);
    if qty > 0.0 {
      var x1 := Fills(x, env, d, pRef, ts, why, qty);
      assert x1.fills[..|x.fills|] == x.fills;
      assert x1.position == Net(x1.fills);
      var side := if x.position > 0.0 then Short else Long;
      CancelProtectingShrinks(x1, x1.stops, side, []);
      CancelProtectingFilled(x1, x1.stops, side, [], d);
      hide Net;
    }
  }

  /** The position of `x` was closed or turned round. */
  predicate Closes(x: Book, y: Book) {
    x.position != 0.0 && !SameSide(x.position, y.position)
  }

  /** Stop `c` is at an end, or will be when the position of `x` is closed. */
  ghost predicate Cancelled(x: Book, c: Coid) {
    c in x.orders
    && (!IsNew(x, c) || (c in x.stops && x.orders[c].req.reduceOnly && Opposes(x.orders[c].req.side, x.position)))
  }

  /** What one execution does to another order, a stop. */
  lemma EffectOnStop(x: Book, env: Env, d: Coid, pRef: real, ts: int, why: Option<ExitReason>, c: Coid)
    requires d in x.orders && c in x.orders
    ensures var y := Execute(x, env, d, pRef, ts, why);
            && (!IsNew(x, c) ==> c in y.orders && !IsNew(y, c))
            && (Closes(x, y) && Cancelled(x, c) ==> c in y.orders && !IsNew(y, c))
            && (c != d && !Closes(x, y) ==> Untouched(x, y, c))
  {
    var qty := ExecutableQty(x.position, x.orders[d].req);
    if qty > 0.0 {
      var x1 := Fills(x, env, d, pRef, ts, why, qty);
      var side := if x.position > 0.0 then Short else Long;
      ProtectingSpares(x1, x1.stops, side, [], c);
      CancelProtectingShrinks(x1, x1.stops, side, []);
    }
  }

  /** Executing an order other than `c` keeps the alternative. */
  lemma ExecuteEither(b: Book, x: Book, env: Env, d: Coid, pRef: real, ts: int, why: Option<ExitReason>,
      c: Option<Coid>)
    requires Either(b, x, c) && d in x.orders && c != Some(d)
    ensures Either(b, Execute(x, env, d, pRef, ts, why), c)
  {
    var (y, qty) := (Execute(x, env, d, pRef, ts, why), ExecutableQty(x.position, x.orders[d].req));
    ExecuteEffect(x, env, d, pRef, ts, why);
    if c.Some? { EffectOnStop(x, env, d, pRef, ts, why, c.value); }
    hide Execute, ExecutableQty, Net, Flattened;
    if qty > 0.0 {
      FlattenedStep(b, x, y);
    } else {
      SameFlattened(b, x, y);
    }
  }

  /** The protective stop itself fires. */
  lemma OwnStopEither(b: Book, x: Book, env: Env, c: Coid, pRef: real, ts: int)
    requires Either(b, x, Some(c)) && IsNew(x, c)
    ensures Either(b, Execute(x.(stops := Remove(x.stops, c)), env, c, pRef, ts, None), Some(c))
  {
    var x1 := x.(stops := Remove(x.stops, c));
    var y := Execute(x1, env, c, pRef, ts, None);
    ExecuteEffect(x1, env, c, pRef, ts, None);
    EffectOnStop(x1, env, c, pRef, ts, None, c);
    SameFlattened(b, x, x1);
    assert ExecutableQty(x1.position, x1.orders[c].req) > 0.0;
    hide Execute, ExecutableQty, Net, Flattened, Remove;
    FlattenedStep(b, x1, y);
  }

  lemma OtherStopEither(b: Book, x: Book, d: Coid, c: Option<Coid>)
    requires Either(b, x, c) && AtRest(x) && c != Some(d)
    ensures Either(b, x.(stops := Remove(x.stops, d)), c)
  {
    Apart(x.market, x.stops);
    RemoveIs(x.stops, d);
    SameFlattened(b, x, x.(stops := Remove(x.stops, d)));
    hide Ok, Flattened, Net, Remove;
  }

  /** The book with the synthetic order of a take-profit or a liquidation. */
  function Exit(x: Book, env: Env, tr: Trigger, t: int): Book
    requires !tr.StopAt?
  {
    var id := Synthetic(x.seqNo);
    var req := Request(id, env.symbol, if x.position > 0.0 then Short else Long, StopMarket, Abs(x.position),
      Some(tr.level), true, t);
    var x1 := if tr.ProfitAt? then x.(tp := None, tpSide := 0) else x.(liq := None);
    x1.(seqNo := x.seqNo + 1, orders := x1.orders[id := Order(req, New, None, 0.0, None, None)])
  }

  function Why(tr: Trigger): ExitReason {
    if tr.ProfitAt? then TakeProfit else Liquidation
  }

  lemma FireExits(x: Book, env: Env, tr: Trigger, p: real, t: int)
    requires !tr.StopAt?
    ensures Fire(x, env, tr, p, t) == Execute(Exit(x, env, tr, t), env, Synthetic(x.seqNo), p, t, Some(Why(tr)))
  {
    hide Execute;
  }

  /** What such an order is: new, for the whole position, against it. */
  lemma ExitIs(x: Book, env: Env, tr: Trigger, t: int)
    requires AtRest(x) && !tr.StopAt? && tr in Triggers(x, t)
    ensures var (id, y) := (Synthetic(x.seqNo), Exit(x, env, tr, t));
            && id !in x.orders && IsNew(y, id) && y.orders == x.orders[id := y.orders[id]] && x.position != 0.0
            && y.orders[id].req.qty == Abs(x.position) && Opposes(y.orders[id].req.side, x.position)
            && ExecutableQty(x.position, y.orders[id].req) == Abs(x.position)
            && y.position == x.position && y.fills == x.fills && y.stops == x.stops && y.market == x.market
            && (if tr.ProfitAt? then y.tp.None? && y.liq == x.liq
                else y.tp == x.tp && y.tpSide == x.tpSide && y.liq.None?)
            && Ok(y, x.market + x.stops, Some(id)) && Grows(x, y)
  {
    NextNumberIsFree(x, x.market + x.stops);
    StopTriggersIn(x, x.stops, t);
    var y := Exit(x, env, tr, t);
    FreshOrder(x, y, x.market + x.stops, y.orders[Synthetic(x.seqNo)].req);
    hide Ok, Grows;
  }

  /** A take-profit or a liquidation closes the position. */
  lemma LevelEither(b: Book, x: Book, env: Env, tr: Trigger, p: real, t: int, c: Option<Coid>)
    requires Either(b, x, c) && AtRest(x) && tr in Triggers(x, t) && !tr.StopAt?
    ensures var y := Fire(x, env, tr, p, t); Either(b, y, c) && Gone(b, y, c)
  {
    var (id, x2) := (Synthetic(x.seqNo), Exit(x, env, tr, t));
    var y := Fire(x, env, tr, p, t);
    FireExits(x, env, tr, p, t);
    ExitIs(x, env, tr, t);
    hide Execute, Exit, Fire, Ok, Grows, Triggers, ExecutableQty, Net, Flattened;
    ExecuteEffect(x2, env, id, p, t, Some(Why(tr)));
    if c.Some? { EffectOnStop(x2, env, id, p, t, Some(Why(tr)), c.value); }
    SameFlattened(b, x, x2);
    FlattenedStep(b, x2, y);
    ExitGone(b, x, x2, y, id, c);
  }

  /** The whole position was closed by order `id`. */
  lemma ExitGone(b: Book, x: Book, x2: Book, y: Book, id: Coid, c: Option<Coid>)
    requires Either(b, x, c) && id !in x.orders && id in x2.orders && x2.orders == x.orders[id := x2.orders[id]]
    requires x2.position == x.position && x2.fills == x.fills && x2.stops == x.stops && x.position != 0.0
    requires (x2.tp.None? && x2.liq == x.liq) || (x2.tp == x.tp && x2.tpSide == x.tpSide && x2.liq.None?)
    requires y.position == 0.0 && y.position == Net(y.fills) && Flattened(b, y)
    requires |y.fills| == |x.fills| + 1 && y.fills[..|x.fills|] == x.fills && y.liq.None?
             && (y.tp == x2.tp || y.tp.None?) && (OwnProfit(x2) ==> y.tp.None?)
    requires c.Some? && Cancelled(x2, c.value) ==> c.value in y.orders && !IsNew(y, c.value)
    ensures Either(b, y, c) && Gone(b, y, c)
  {
    hide Net, Flattened;
  }

  lemma SameFlattened(b: Book, x: Book, y: Book)
    requires x.fills == y.fills
    ensures Flattened(b, x) <==> Flattened(b, y)
  {
  }

  lemma FireEither(b: Book, x: Book, env: Env, tr: Trigger, p: real, t: int, c: Option<Coid>)
    requires Either(b, x, c) && AtRest(x) && tr in Triggers(x, t)
    ensures Either(b, Fire(x, env, tr, p, t), c)
    ensures Gone(b, x, c) ==> Gone(b, Fire(x, env, tr, p, t), c)
  {
    StopTriggersIn(x, x.stops, t);
    if !tr.StopAt? {
      LevelEither(b, x, env, tr, p, t, c);
    } else if c == Some(tr.coid) {
      OwnStopEither(b, x, env, tr.coid, p, t);
    } else {
      OtherStopEither(b, x, tr.coid, c);
      ExecuteEither(b, x.(stops := Remove(x.stops, tr.coid)), env, tr.coid, p, t, None, c);
    }
    FireFollows(x, env, tr, p, t);
    hide Either, Fire, Triggers, Remove;
    GoneStays(b, x, Fire(x, env, tr, p, t), c);
  }

  lemma GoneStays(b: Book, x: Book, y: Book, c: Option<Coid>)
    requires Either(b, x, c) && Either(b, y, c) && Follows(x, y)
    ensures Gone(b, x, c) ==> Gone(b, y, c)
  {
    if Flattened(b, x) {
      var n :| |b.fills| < n <= |x.fills| && !SameSide(b.position, Net(x.fills[..n]));
      assert y.fills[..n] == x.fills[..n];
      assert Flattened(b, y);
    }
  }

  lemma {:induction false} MarketEither(b: Book, x: Book, env: Env, bar: Bar, todo: seq<Coid>, keep: seq<Coid>,
      c: Option<Coid>)
    requires Either(b, x, c) && Ok(x, keep + todo + x.stops, None)
             && (c.Some? ==> c.value in b.stops && c.value !in todo)
    ensures Either(b, FillMarket(x, env, bar, todo, keep), c)
    decreases |todo|
  {
    if todo == [] {
      SameFlattened(b, x, x.(market := keep));
    } else {
      var (d, rest) := (todo[0], todo[1..]);
      assert todo == [d] + rest && d in todo;
      assert keep + todo + x.stops == [] + (keep + ([d] + (rest + x.stops)));
      HeadNew(x, [], keep, d, rest + x.stops);
      hide Ok, Either, Execute;
      if bar.t < x.orders[d].req.tsCreated {
        assert (keep + [d]) + rest + x.stops == keep + todo + x.stops;
        MarketEither(b, x, env, bar, rest, keep + [d], c);
      } else {
        TakeLoose(x, keep + todo + x.stops, d);
        assert [] + (keep + (rest + x.stops)) == keep + rest + x.stops;
        ExecuteOk(x, env, keep + rest, d, bar.o, bar.t, None);
        ExecuteEither(b, x, env, d, bar.o, bar.t, None, c);
        MarketEither(b, Execute(x, env, d, bar.o, bar.t, None), env, bar, rest, keep, c);
      }
    }
  }

  lemma WalkEither(b: Book, x: Book, env: Env, bar: Bar, c: Option<Coid>)
    requires Either(b, x, c) && AtRest(x) && BarOk(bar)
    ensures Either(b, Walk(x, env, bar), c)
  {
    var J := (y: Book) => Either(b, y, c) && AtRest(y);
    forall y, tr, p | J(y) && tr in Triggers(y, bar.t) && FiresAt(tr, p, bar) ensures J(Fire(y, env, tr, p, bar.t)) {
      hide Either, AtRest, Fire, Triggers, Follows;
      FireEither(b, y, env, tr, p, bar.t, c);
      FireFollows(y, env, tr, p, bar.t);
      FollowsIsAtRest(y, Fire(y, env, tr, p, bar.t));
    }
    WalkKeeps(J, x, env, bar);
  }

  /** The orders that the expiry leaves are exactly those with something to protect. */
  lemma {:induction false} ExpireIs(b: Book, todo: seq<Coid>, longEntry: bool, shortEntry: bool, keep: seq<Coid>,
      c: Coid)
    requires c in b.orders && (forall i, j | 0 <= i < j < |todo| :: todo[i] != todo[j])
    requires forall d | d in todo :: IsNew(b, d)
    ensures var e := ExpireFrom(b, todo, longEntry, shortEntry, keep);
            && e == b.(orders := e.orders, stops := e.stops)
            && (c in todo && Orphan(b, longEntry, shortEntry, c) ==>
                  c in e.orders && e.orders[c] == b.orders[c].(status := Canceled, code := Some(ReduceOnly)))
            && (c !in todo || !Orphan(b, longEntry, shortEntry, c) ==> Untouched(b, e, c))
            && (c in e.stops <==> c in keep || (c in todo && !Orphan(b, longEntry, shortEntry, c)))
    decreases |todo|
  {
    if todo != [] {
      var (d, rest) := (todo[0], todo[1..]);
      assert todo == [d] + rest && d in todo;
      assert forall x | x in rest :: x in todo;
      assert d !in rest by {
        forall i | 0 <= i < |rest| ensures rest[i] != d { assert todo[i + 1] == rest[i]; }
      }
      if Orphan(b, longEntry, shortEntry, d) {
        ExpireIs(SetStatus(b, d, Canceled, Some(ReduceOnly)), rest, longEntry, shortEntry, keep, c);
      } else {
        ExpireIs(b, rest, longEntry, shortEntry, keep + [d], c);
      }
    }
  }

  lemma ExpireEither(b: Book, x: Book, e: Book, c: Option<Coid>)
    requires Either(b, x, c) && AtRest(x) && e == ExpireOrphans(x).(lastOpen := e.lastOpen, lastClose := e.lastClose)
    ensures Either(b, e, c)
  {
    Apart(x.market, x.stops);
    assert forall d | d in x.stops :: d in x.market + x.stops;
    ExpireOk(x);
    ExpireFrame(x);
    SameFlattened(b, x, e);
    if c.Some? {
      ExpireIs(x, x.stops, HasEntry(x, Long), HasEntry(x, Short), [], c.value);
    }
    hide Flattened, Net, HasEntry, ExpireFrom;
  }

  lemma ExpireFrame(x: Book)
    requires AtRest(x)
    ensures var e := ExpireOrphans(x); e == x.(orders := e.orders, stops := e.stops)
  {
    assert [] + x.stops == x.stops;
    ExpireFromOk(x, x.stops, HasEntry(x, Long), HasEntry(x, Short), []);
  }

  /** A whole bar. */
  lemma BarEither(b: Book, env: Env, bar: Bar, c: Option<Coid>)
    requires AtRest(b) && Typed(b) && ValidEnv(env) && BarOk(bar) && OnBar(b, env, bar).Some? && b.position != 0.0
    requires c.Some? ==> Protects(b, c.value)
    ensures Either(b, OnBar(b, env, bar).value, c)
  {
    var m, w, e := Stages(b, env, bar);
    var b1 := ChargeFunding(b, env, bar);
    RestNet(b);
    RestNet(b1);
    if c.Some? { Apart(b.market, b.stops); }
    StartsHeld(b, c);
    assert Either(b, b1, c) by { SameFlattened(b, b, b1); }
    assert [] + b1.market == b1.market;
    hide OnBar, Walk, FillMarket, ChargeFunding, Either, ExpireOrphans, Protects;
    MarketEither(b, b1, env, bar, b1.market, [], c);
    WalkEither(b, m, env, bar, c);
    ExpireEither(b, w, e, c);
  }

  /** A protective stop lasts exactly as long as what it protects: after a bar it is live if and only if it was not
      filled and the position was held throughout, and it is cancelled if and only if the position was closed in some
      other way. */
  lemma ProtectionLasts(b: Book, env: Env, bar: Bar, c: Coid)
    requires AtRest(b) && Typed(b) && ValidEnv(env) && BarOk(bar) && OnBar(b, env, bar).Some?
    requires b.position != 0.0 && Protects(b, c)
    ensures var e := OnBar(b, env, bar).value;
            && c in e.orders
            && (IsNew(e, c) <==> !Flattened(b, e) && !e.orders[c].status.Filled?)
            && (IsNew(e, c) ==> e.orders[c] == b.orders[c] && c in e.stops)
            && (e.orders[c].status.Canceled? <==> Flattened(b, e) && !e.orders[c].status.Filled?)
  {
    BarEither(b, env, bar, Some(c));
    OnBarOk(b, env, bar);
    hide OnBar, Flattened, Ok;
  }

  /** Take-profit and liquidation level stay exactly as long as the position is held throughout. */
  lemma LevelsLast(b: Book, env: Env, bar: Bar)
    requires AtRest(b) && Typed(b) && ValidEnv(env) && BarOk(bar) && OnBar(b, env, bar).Some? && b.position != 0.0
    ensures var e := OnBar(b, env, bar).value;
            if Flattened(b, e) then e.liq.None? && (OwnProfit(b) ==> e.tp.None?)
            else e.liq == b.liq && e.tp == b.tp && e.tpSide == b.tpSide && SameSide(b.position, e.position)
  {
    BarEither(b, env, bar, None);
    hide OnBar, Flattened;
  }

  // ---------------------------------------------------------------- levels that are crossed

  /** The bar moves strictly beyond the level in the direction that fires it. */
  predicate Crossed(tr: Trigger, bar: Bar) {
    if tr.up then tr.level < bar.h else bar.l < tr.level
  }

  predicate Passed(tr: Trigger, a: real, z: real) {
    if tr.up then a <= tr.level < z else z < tr.level <= a
  }

  /** While the position of `b` is held, trigger `t0` stands. */
  ghost predicate Stands(b: Book, t0: Trigger, t: int) {
    forall x | Held(b, x, None) :: t0 in Triggers(x, t)
  }

  ghost predicate Settled(b: Book, x: Book) {
    Either(b, x, None) && AtRest(x)
  }

  lemma FireSettled(b: Book, x: Book, env: Env, tr: Trigger, p: real, t: int)
    requires Settled(b, x) && tr in Triggers(x, t)
    ensures Settled(b, Fire(x, env, tr, p, t)) && (Gone(b, x, None) ==> Gone(b, Fire(x, env, tr, p, t), None))
  {
    FireEither(b, x, env, tr, p, t, None);
    FireFollows(x, env, tr, p, t);
    FollowsIsAtRest(x, Fire(x, env, tr, p, t));
    hide Either, AtRest, Fire, Triggers, Gone;
  }

  lemma {:induction false} SegmentFires(b: Book, x: Book, env: Env, t: int, cur: real, target: real, t0: Trigger)
    requires Settled(b, x) && Stands(b, t0, t)
    ensures var e := Segment(x, env, t, cur, target);
            && Settled(b, e) && (Gone(b, x, None) ==> Gone(b, e, None))
            && (Gone(b, e, None) || !Passed(t0, cur, target))
    decreases Live(x)
  {
    hide Settled, Stands, Gone, Fire, Triggers, Held;
    if cur != target {
      var on := Ahead(x, t, cur, target);
      HeldOrGone(b, x, t0, t);
      if on == [] {
        assert t0 in Triggers(x, t) && Passed(t0, cur, target) ==> t0 in on;
      } else {
        var tr := Best(if target < cur then Highest else Lowest, on);
        FireShrinks(x, env, tr, tr.level, t);
        FireSettled(b, x, env, tr, tr.level, t);
        SegmentFires(b, Fire(x, env, tr, tr.level, t), env, t, tr.level, target, t0);
        if t0 in Triggers(x, t) && Passed(t0, cur, target) {
          assert t0 in on && !Better(if target < cur then Highest else Lowest, t0, tr);
        }
      }
    }
  }

  lemma HeldOrGone(b: Book, x: Book, t0: Trigger, t: int)
    requires Settled(b, x) && Stands(b, t0, t)
    ensures t0 in Triggers(x, t) || Gone(b, x, None)
  {
  }

  lemma {:induction false} OpenFires(b: Book, x: Book, env: Env, t: int, o: real, t0: Trigger)
    requires Settled(b, x) && Stands(b, t0, t)
    ensures var e := FireAtOpen(x, env, t, o);
            && Settled(b, e) && (Gone(b, x, None) ==> Gone(b, e, None))
            && (Gone(b, e, None) || !Behind(t0, o))
    decreases Live(x)
  {
    hide Settled, Stands, Gone, Fire, Triggers, Held;
    var at := AtOpen(x, t, o);
    HeldOrGone(b, x, t0, t);
    if at != [] {
      var tr := Best(ByPriority, at);
      FireShrinks(x, env, tr, o, t);
      FireSettled(b, x, env, tr, o, t);
      OpenFires(b, Fire(x, env, tr, o, t), env, t, o, t0);
    }
  }

  lemma WalkFires(b: Book, x: Book, env: Env, bar: Bar, t0: Trigger)
    requires Settled(b, x) && Stands(b, t0, bar.t) && BarOk(bar)
    ensures var e := Walk(x, env, bar); Settled(b, e) && (Gone(b, e, None) || !Crossed(t0, bar))
  {
    hide Settled, Stands, Gone, Triggers, Held, FireAtOpen, Segment;
    HeldOrGone(b, x, t0, bar.t);
    if Reachable(x, bar) {
      var (t, o) := (bar.t, bar.o);
      var b0 := FireAtOpen(x, env, t, o);
      OpenFires(b, x, env, t, o, t0);
      var low := LowFirst(b0.position, bar);
      var (first, second) := (if low then bar.l else bar.h, if low then bar.h else bar.l);
      var b1 := Segment(b0, env, t, o, first);
      SegmentFires(b, b0, env, t, o, first, t0);
      var b2 := Segment(b1, env, t, first, second);
      SegmentFires(b, b1, env, t, first, second, t0);
      SegmentFires(b, b2, env, t, second, bar.c, t0);
    }
  }

  /** The bar goes beyond the liquidation level against the position, or beyond the take-profit with it. */
  predicate LevelCrossed(b: Book, bar: Bar) {
    (b.liq.Some? && Crossed(LiqAt(b.liq.value, b.position < 0.0), bar))
    || (b.tp.Some? && OwnProfit(b) && Crossed(ProfitAt(b.tp.value, b.position > 0.0), bar))
  }

  lemma LevelStands(b: Book, t: int)
    requires b.position != 0.0
    ensures b.liq.Some? ==> Stands(b, LiqAt(b.liq.value, b.position < 0.0), t)
    ensures b.tp.Some? && OwnProfit(b) ==> Stands(b, ProfitAt(b.tp.value, b.position > 0.0), t)
  {
    hide Flattened;
  }

  /** A position held into a bar that crosses its liquidation level or its take-profit is closed, or turned round, in
      it. */
  lemma CrossedLevelCloses(b: Book, env: Env, bar: Bar)
    requires AtRest(b) && Typed(b) && ValidEnv(env) && BarOk(bar) && OnBar(b, env, bar).Some? && b.position != 0.0
    ensures LevelCrossed(b, bar) ==> Flattened(b, OnBar(b, env, bar).value)
  {
    var m, w, e := Stages(b, env, bar);
    var b1 := ChargeFunding(b, env, bar);
    RestNet(b);
    StartsHeld(b, None);
    assert Either(b, b1, None) by { SameFlattened(b, b, b1); }
    assert [] + b1.market == b1.market;
    LevelStands(b, bar.t);
    hide OnBar, Walk, FillMarket, ChargeFunding, ExpireOrphans, Stands, Either, Flattened;
    MarketEither(b, b1, env, bar, b1.market, [], None);
    if b.liq.Some? {
      WalkFires(b, m, env, bar, LiqAt(b.liq.value, b.position < 0.0));
    }
    if b.tp.Some? && OwnProfit(b) {
      WalkFires(b, m, env, bar, ProfitAt(b.tp.value, b.position > 0.0));
    }
    ExpireFrame(w);
    SameFlattened(b, w, e);
  }

  // ---------------------------------------------------------------- what a bar cancels

  /** Something that the reduce-only stop `c` could reduce: the position, or one that a live entry may open. */
  ghost predicate HasPurpose(b: Book, c: Coid)
    requires c in b.orders
  {
    || Opposes(b.orders[c].req.side, b.position)
    || exists d :: IsNew(b, d) && !b.orders[d].req.reduceOnly && b.orders[d].req.side == Opposite(b.orders[c].req.side)
  }

  lemma PurposeMeans(b: Book, c: Coid)
    requires AtRest(b) && c in b.orders && b.orders[c].req.reduceOnly
    ensures Orphan(b, HasEntry(b, Long), HasEntry(b, Short), c) <==> !HasPurpose(b, c)
  {
    forall side: Side
      ensures HasEntry(b, side) <==> exists d ::
              IsNew(b, d) && !b.orders[d].req.reduceOnly && b.orders[d].req.side == side
    {
      if d :| IsNew(b, d) && !b.orders[d].req.reduceOnly && b.orders[d].req.side == side {
        assert d in b.market + b.stops;
      }
    }
    hide HasEntry;
  }

  /** After a bar every live reduce-only stop has something to reduce. */
  lemma NoOrphans(b: Book, env: Env, bar: Bar, c: Coid)
    requires AtRest(b) && Typed(b) && ValidEnv(env) && BarOk(bar) && OnBar(b, env, bar).Some?
    ensures var e := OnBar(b, env, bar).value;
            c in e.stops && IsNew(e, c) && e.orders[c].req.reduceOnly ==> HasPurpose(e, c)
  {
    var m, w, e := Stages(b, env, bar);
    hide OnBar, Walk, FillMarket, ChargeFunding, ExpireFrom, Orphan;
    RestStops(w);
    var (l, s) := (HasEntry(w, Long), HasEntry(w, Short));
    if c in e.stops && IsNew(e, c) && e.orders[c].req.reduceOnly {
      StopsOf(w, e, c);
      ExpireIs(w, w.stops, l, s, [], c);
      PurposeMeans(w, c);
      if !Opposes(w.orders[c].req.side, w.position) {
        var d :| IsNew(w, d) && !w.orders[d].req.reduceOnly && w.orders[d].req.side == Opposite(w.orders[c].req.side);
        ExpireIs(w, w.stops, l, s, [], d);
        PurposeNeeded(w, l, s, d);
        assert IsNew(e, d) && e.orders[d] == w.orders[d];
      }
    }
  }

  lemma PurposeNeeded(b: Book, l: bool, s: bool, d: Coid)
    requires d in b.orders && !b.orders[d].req.reduceOnly
    ensures !Orphan(b, l, s, d)
  {
  }

  lemma RestStops(w: Book)
    requires AtRest(w)
    ensures (forall i, j | 0 <= i < j < |w.stops| :: w.stops[i] != w.stops[j]) && forall d | d in w.stops :: IsNew(w, d)
  {
    Apart(w.market, w.stops);
    assert forall d | d in w.stops :: d in w.market + w.stops;
  }

  lemma StopsOf(w: Book, e: Book, c: Coid)
    requires AtRest(w) && e == ExpireOrphans(w).(lastOpen := e.lastOpen, lastClose := e.lastClose) && c in e.stops
    ensures c in w.stops && c in w.orders
  {
    assert [] + w.stops == w.stops;
    ExpireFromOk(w, w.stops, HasEntry(w, Long), HasEntry(w, Short), []);
    assert c in w.market + w.stops;
  }

  lemma {:induction false} ProtectingKeeps(b: Book, todo: seq<Coid>, side: Side, keep: seq<Coid>, c: Coid)
    requires IsNew(b, c) && !(b.orders[c].req.reduceOnly && b.orders[c].req.side == side)
    ensures var e := CancelProtecting(b, todo, side, keep); Untouched(b, e, c) && (c in keep + todo ==> c in e.stops)
    decreases |todo|
  {
    if todo != [] {
      var d := todo[0];
      assert todo == [d] + todo[1..];
      if !IsNew(b, d) {
        ProtectingKeeps(b, todo[1..], side, keep, c);
      } else if b.orders[d].req.reduceOnly && b.orders[d].req.side == side {
        ProtectingKeeps(SetStatus(b, d, Canceled, b.orders[d].code), todo[1..], side, keep, c);
      } else {
        ProtectingKeeps(b, todo[1..], side, keep + [d], c);
      }
    }
  }

  /** An entry stop: waiting as it was, or filled. */
  ghost predicate WaitsOrFilled(b: Book, x: Book, c: Coid) {
    c in x.orders && ((Untouched(b, x, c) && c in x.stops) || x.orders[c].status.Filled?)
  }

  ghost predicate Entry(b: Book, c: Coid) {
    c in b.stops && IsNew(b, c) && !b.orders[c].req.reduceOnly && b.orders[c].req.qty > 0.0
  }

  lemma ExecuteWaits(b: Book, x: Book, env: Env, d: Coid, pRef: real, ts: int, why: Option<ExitReason>, c: Coid)
    requires Entry(b, c) && WaitsOrFilled(b, x, c) && d in x.orders && d != c
    ensures WaitsOrFilled(b, Execute(x, env, d, pRef, ts, why), c)
  {
    var qty := ExecutableQty(x.position, x.orders[d].req);
    if qty > 0.0 {
      var x1 := Fills(x, env, d, pRef, ts, why, qty);
      var side := if x.position > 0.0 then Short else Long;
      assert [] + x1.stops == x1.stops;
      if IsNew(x1, c) {
        ProtectingKeeps(x1, x1.stops, side, [], c);
      } else {
        CancelProtectingFilled(x1, x1.stops, side, [], c);
      }
      CancelProtectingShrinks(x1, x1.stops, side, []);
    }
  }

  lemma FireWaits(b: Book, x: Book, env: Env, tr: Trigger, p: real, t: int, c: Coid)
    requires Entry(b, c) && WaitsOrFilled(b, x, c) && AtRest(x) && tr in Triggers(x, t)
    ensures WaitsOrFilled(b, Fire(x, env, tr, p, t), c)
  {
    StopTriggersIn(x, x.stops, t);
    match tr {
      case StopAt(d, _, _) =>
        Apart(x.market, x.stops);
        RemoveIs(x.stops, d);
        var x1 := x.(stops := Remove(x.stops, d));
        if d == c {
          ExecuteEnds(x1, env, c, p, t, None);
        } else {
          hide Ok, Execute, Remove;
          ExecuteWaits(b, x1, env, d, p, t, None, c);
        }
      case _ =>
        FireExits(x, env, tr, p, t);
        ExitIs(x, env, tr, t);
        hide Ok, Grows, Execute, Exit, Fire;
        ExecuteWaits(b, Exit(x, env, tr, t), env, Synthetic(x.seqNo), p, t, Some(Why(tr)), c);
    }
  }

  lemma {:induction false} MarketWaits(b: Book, x: Book, env: Env, bar: Bar, todo: seq<Coid>, keep: seq<Coid>, c: Coid)
    requires Entry(b, c) && WaitsOrFilled(b, x, c) && Ok(x, keep + todo + x.stops, None) && c !in todo
    ensures WaitsOrFilled(b, FillMarket(x, env, bar, todo, keep), c)
    decreases |todo|
  {
    if todo != [] {
      var (d, rest) := (todo[0], todo[1..]);
      assert todo == [d] + rest && d in todo;
      assert keep + todo + x.stops == [] + (keep + ([d] + (rest + x.stops)));
      HeadNew(x, [], keep, d, rest + x.stops);
      hide Ok, WaitsOrFilled, Execute, Entry;
      if bar.t < x.orders[d].req.tsCreated {
        assert (keep + [d]) + rest + x.stops == keep + todo + x.stops;
        MarketWaits(b, x, env, bar, rest, keep + [d], c);
      } else {
        TakeLoose(x, keep + todo + x.stops, d);
        assert [] + (keep + (rest + x.stops)) == keep + rest + x.stops;
        ExecuteOk(x, env, keep + rest, d, bar.o, bar.t, None);
        ExecuteWaits(b, x, env, d, bar.o, bar.t, None, c);
        MarketWaits(b, Execute(x, env, d, bar.o, bar.t, None), env, bar, rest, keep, c);
      }
    }
  }

  lemma WalkWaits(b: Book, x: Book, env: Env, bar: Bar, c: Coid)
    requires Entry(b, c) && WaitsOrFilled(b, x, c) && AtRest(x) && BarOk(bar)
    ensures WaitsOrFilled(b, Walk(x, env, bar), c)
  {
    var J := (y: Book) => WaitsOrFilled(b, y, c) && AtRest(y);
    forall y, tr, p | J(y) && tr in Triggers(y, bar.t) && FiresAt(tr, p, bar) ensures J(Fire(y, env, tr, p, bar.t)) {
      hide WaitsOrFilled, AtRest, Fire, Triggers, Follows, Entry;
      FireWaits(b, y, env, tr, p, bar.t, c);
      FireFollows(y, env, tr, p, bar.t);
      FollowsIsAtRest(y, Fire(y, env, tr, p, bar.t));
    }
    WalkKeeps(J, x, env, bar);
  }

  /** A bar never cancels an entry stop: it fills it or leaves it as it is. */
  lemma EntryStopsStay(b: Book, env: Env, bar: Bar, c: Coid)
    requires AtRest(b) && Typed(b) && ValidEnv(env) && BarOk(bar) && OnBar(b, env, bar).Some?
    requires c in b.stops && IsNew(b, c) && !b.orders[c].req.reduceOnly
    ensures var e := OnBar(b, env, bar).value;
            c in e.orders && ((e.orders[c] == b.orders[c] && c in e.stops) || e.orders[c].status.Filled?)
  {
    var m, w, e := Stages(b, env, bar);
    var b1 := ChargeFunding(b, env, bar);
    Apart(b.market, b.stops);
    assert [] + b1.market == b1.market;
    assert Entry(b, c) && WaitsOrFilled(b, b1, c);
    hide OnBar, Walk, FillMarket, ChargeFunding, ExpireFrom, Orphan;
    MarketWaits(b, b1, env, bar, b1.market, [], c);
    WalkWaits(b, m, env, bar, c);
    RestStops(w);
    ExpireIs(w, w.stops, HasEntry(w, Long), HasEntry(w, Short), [], c);
    if w.orders[c] == b.orders[c] {
      PurposeNeeded(w, HasEntry(w, Long), HasEntry(w, Short), c);
    }
  }
}
