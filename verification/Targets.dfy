/** What the orders of an approved target mean: they bring the position to the target, protect it if its side is new,
    and the next bar that reaches no level leaves it there. */
module Targets {
  import opened Base
  import opened Broker
  import opened BrokerProofs
  import opened BrokerTheorems
  import opened BrokerRuns
  import opened BarOrders
  import opened BarPaths
  import opened Engine
  import EngineProofs
  import Accounting

  // ---------------------------------------------------------------- orders

  /** The order that `e` has and `b` had not, under id `c`. */
  ghost predicate Added(b: Book, e: Book, c: Coid) {
    c.Client? && c !in b.orders && c in e.orders && e.orders == b.orders[c := e.orders[c]]
  }

  /** The market order of the target: toward it, and no further. */
  ghost predicate TowardTarget(o: Order, cur: real, approved: real, env: Env, closeNs: int) {
    && o.req.otype.Market? && o.req.instrument == env.symbol && o.req.stop.None? && o.req.tsCreated == closeNs
    && (o.req.reduceOnly <==> approved == 0.0 || (SameSide(cur, approved) && Abs(approved) < Abs(cur)))
    && FloorOf(o.req.qty, Abs(approved - cur), env.step)
    && var reached := cur + Signed(o.req.side, o.req.qty);
       && Abs(approved - reached) < env.step
       && (o.req.qty >= 0.0 && if cur <= approved then cur <= reached <= approved else approved <= reached <= cur)
  }

  /** The stop of a new position: reduce-only, against it, for all of it, at the level asked for. */
  ghost predicate ProtectsTarget(o: Order, approved: real, level: real, env: Env, closeNs: int) {
    && o.req.otype.StopMarket? && o.req.reduceOnly && Opposes(o.req.side, approved) && o.req.tsCreated == closeNs
    && o.req.instrument == env.symbol
    && (o.status.New? ==> FloorOf(o.req.qty, Abs(approved), env.step)
                          && o.req.stop.Some? && NearestTo(o.req.stop.value, level, env.tick))
  }

  lemma SendShape(e: Loop, env: Env, req: Request, decision: int, isStop: bool)
    requires ValidEnv(env) && req.coid !in e.book.orders && req.coid.Client?
    ensures var f := Send(e, env, req, decision, isStop);
            && Added(e.book, f.book, req.coid) && f.acct == e.acct
            && f.book == e.book.(orders := f.book.orders, market := f.book.market, stops := f.book.stops,
                 seqNo := f.book.seqNo)
            && var o := f.book.orders[req.coid];
               && (o.status.New? || o.status.Rejected?)
               && f.book.market == (if o.status.New? && req.otype.Market? then e.book.market + [req.coid]
                    else e.book.market)
               && f.book.stops == (if o.status.New? && !req.otype.Market? then e.book.stops + [req.coid]
                    else e.book.stops)
               && o.req == (if o.status.New? then req.(qty := o.req.qty, stop := o.req.stop) else req)
  {
    SubmitShape(e.book, env, req);
    SubmitMeans(e.book, env, req);
    hide Submit, FloorOf, NearestTo;
  }

  lemma SendQuantised(e: Loop, env: Env, req: Request, decision: int, isStop: bool)
    requires ValidEnv(env) && req.coid !in e.book.orders && req.coid.Client?
    ensures var o := Send(e, env, req, decision, isStop).book.orders[req.coid];
            o.status.New? ==>
              && FloorOf(o.req.qty, req.qty, env.step)
              && (req.otype.StopMarket? && req.stop.Some? ==>
                    o.req.stop.Some? && NearestTo(o.req.stop.value, req.stop.value, env.tick))
              && (!req.otype.StopMarket? ==> o.req.stop == req.stop)
  {
    SendShape(e, env, req, decision, isStop);
    SubmitMeans(e.book, env, req);
    hide Submit, FloorOf, NearestTo;
  }

  /** A quantity that is already on the grid stays as it is. */
  lemma FloorUnique(q: real, r: real, x: real, step: real)
    requires step > 0.0 && FloorOf(q, x, step) && FloorOf(r, q, step)
    ensures r == q
  {
    var m :| q == Units(m, step);
    var n :| r == Units(n, step);
    OnTheGrid(m, n, step);
  }

  /** Multiples of the step lie a step apart. */
  lemma OnTheGrid(m: int, n: int, step: real)
    requires step > 0.0 && Units(n, step) <= Units(m, step) < Units(n, step) + step
    ensures m == n
  {
    StepApart(m, n, step);
    StepApart(n, m, step);
  }

  lemma StepApart(m: int, n: int, step: real)
    requires step > 0.0
    ensures m < n ==> Units(m, step) + step <= Units(n, step)
  {
    if m < n {
      Monotone(0.0, (n - m - 1) as real, step);
      assert Units(n, step) == Units(m, step) + step + (n - m - 1) as real * step by {
        assert n as real == m as real + 1.0 + (n - m - 1) as real;
      }
    }
  }

  // ---------------------------------------------------------------- what a target does to the book

  lemma RoundedToward(cur: real, approved: real, side: Side, q: real, step: real)
    requires step > 0.0 && FloorOf(q, Abs(approved - cur), step) && (approved - cur > 0.0 <==> side.Long?)
             && approved != cur
    ensures var reached := cur + Signed(side, q);
            && Abs(approved - reached) < step
            && q >= 0.0 && (if cur <= approved then cur <= reached <= approved else approved <= reached <= cur)
  {
    var n :| q == Units(n, step);
    if n < 0 {
      StepApart(n, 0, step);
      assert false;
    }
    Monotone(0.0, n as real, step);
  }

  /** Everything about the order book but the orders and queues stays. */
  ghost predicate SameBut(b: Book, e: Book) {
    e == b.(orders := e.orders, market := e.market, stops := e.stops, seqNo := e.seqNo, tp := e.tp, tpSide := e.tpSide)
  }

  /** The market order of a target. */
  lemma TargetOrder(e: Loop, env: Env, target: Target) returns (c: Coid, f: Loop)
    requires ValidEnv(env) && target.approved != Accounting.PosOf(e.acct, SYM).qty
    ensures var (cur, delta) := (Accounting.PosOf(e.acct, SYM).qty,
            target.approved - Accounting.PosOf(e.acct, SYM).qty);
            c == Client(FreshId(e.book))
            && f == Send(e, env, Request(c, env.symbol, if delta > 0.0 then Long else Short, Market,
                                         FloorQty(Abs(delta), env.step), None, PureReduction(cur, target.approved),
                                         target.closeNs), target.decision, false)
    ensures Added(e.book, f.book, c) && SameBut(e.book, f.book) && f.acct == e.acct
    ensures f.book.tp == e.book.tp && f.book.tpSide == e.book.tpSide && f.book.stops == e.book.stops
    ensures var o := f.book.orders[c];
            && TowardTarget(o, Accounting.PosOf(e.acct, SYM).qty, target.approved, env, target.closeNs)
            && f.book.market == if o.status.New? then e.book.market + [c] else e.book.market
  {
    var (cur, approved) := (Accounting.PosOf(e.acct, SYM).qty, target.approved);
    var delta := approved - cur;
    c := Client(FreshId(e.book));
    var q := FloorQty(Abs(delta), env.step);
    var req := Request(c, env.symbol, if delta > 0.0 then Long else Short, Market, q, None,
      PureReduction(cur, approved),
      target.closeNs);
    f := Send(e, env, req, target.decision, false);
    SendShape(e, env, req, target.decision, false);
    SendQuantised(e, env, req, target.decision, false);
    FloorQtyIs(Abs(delta), env.step);
    var o := f.book.orders[c];
    hide Send, FloorQty, FloorOf;
    if o.status.New? {
      FloorUnique(q, o.req.qty, Abs(delta), env.step);
    }
    RoundedToward(cur, approved, req.side, q, env.step);
  }

  /** The target opens a position on another side than the current one. */
  predicate NewSide(cur: real, approved: real) {
    approved != 0.0 && !SameSide(cur, approved)
  }

  /** The market order `c` is there, alone in the queue of `b`'s successor `e` if it was accepted. */
  ghost predicate MarketPart(b: Book, e: Book, c: Coid, cur: real, env: Env, target: Target) {
    && c.Client? && c !in b.orders && c in e.orders
         && TowardTarget(e.orders[c], cur, target.approved, env, target.closeNs)
    && e.market == if e.orders[c].status.New? then b.market + [c] else b.market
  }

  /** A new position gets its stop `s`. */
  ghost predicate StopPart(b: Book, e: Book, c: Coid, s: Coid, env: Env, target: Target)
    requires target.stop.Some?
  {
    && s.Client? && s != c && s !in b.orders && s in e.orders && c in e.orders
    && ProtectsTarget(e.orders[s], target.approved, target.stop.value, env, target.closeNs)
    && e.stops == (if e.orders[s].status.New? then b.stops + [s] else b.stops)
    && e.orders == b.orders[c := e.orders[c]][s := e.orders[s]]
  }

  /** The take-profit of a new position. */
  ghost predicate ProfitPart(e: Book, env: Env, target: Target) {
    if target.tp.None? then e.tp.None? && e.tpSide == 0
    else e.tp.Some? && NearestTo(e.tp.value, target.tp.value, env.tick) && e.tpSide == SignOf(target.approved)
  }

  /** What goes with the market order `c`: for a new side its stop and take-profit, otherwise nothing. */
  ghost predicate Companions(b: Book, e: Book, c: Coid, cur: real, env: Env, target: Target)
    requires c in e.orders
  {
    if NewSide(cur, target.approved) then
      && ProfitPart(e, env, target)
      && (target.stop.None? ==> e.orders == b.orders[c := e.orders[c]] && e.stops == b.stops)
      && (target.stop.Some? ==> exists s :: StopPart(b, e, c, s, env, target))
    else e.orders == b.orders[c := e.orders[c]] && e.stops == b.stops && e.tp == b.tp && e.tpSide == b.tpSide
  }

  /** What became of the target: nothing if it is the current position; otherwise a market order toward it, and for a
      new side a protective stop and a take-profit, whatever was there before. */
  ghost predicate TargetPlaced(b: Book, e: Book, cur: real, env: Env, target: Target) {
    if target.approved == cur then e == b
    else SameBut(b, e) && exists c :: MarketPart(b, e, c, cur, env, target) && Companions(b, e, c, cur, env, target)
  }

  lemma ProfitIs(b: Book, env: Env, target: Target)
    requires ValidEnv(env) && target.approved != 0.0
    ensures var side := if target.approved > 0.0 then Long else Short;
            var e := SetTakeProfit(b, env, target.tp, if target.tp.None? then None else Some(side));
            ProfitPart(e, env, target) && e == b.(tp := e.tp, tpSide := e.tpSide)
  {
    if target.tp.Some? {
      QuantizePriceIs(target.tp.value, env.tick);
    }
    hide QuantizePrice, NearestTo;
  }

  /** The protective stop of a new side. */
  lemma TargetStop(e1: Loop, env: Env, target: Target) returns (s: Coid, e2: Loop)
    requires ValidEnv(env) && target.stop.Some? && target.approved != 0.0
    ensures var side := if target.approved > 0.0 then Long else Short;
            s == Client(FreshId(e1.book))
            && e2 == Send(e1, env, Request(s, env.symbol, Opposite(side), StopMarket, Abs(target.approved), target.stop,
                 true,
                                           target.closeNs), target.decision, true)
    ensures Added(e1.book, e2.book, s) && SameBut(e1.book, e2.book) && e2.book.market == e1.book.market
    ensures e2.book.stops == if e2.book.orders[s].status.New? then e1.book.stops + [s] else e1.book.stops
    ensures ProtectsTarget(e2.book.orders[s], target.approved, target.stop.value, env, target.closeNs)
  {
    var side := if target.approved > 0.0 then Long else Short;
    s := Client(FreshId(e1.book));
    var req := Request(s, env.symbol, Opposite(side), StopMarket, Abs(target.approved), target.stop, true,
      target.closeNs);
    e2 := Send(e1, env, req, target.decision, true);
    SendShape(e1, env, req, target.decision, true);
    SendQuantised(e1, env, req, target.decision, true);
    hide Send, FloorOf, NearestTo;
  }

  lemma SubmitTargetMeans(e: Loop, env: Env, target: Target)
    requires ValidEnv(env)
    ensures TargetPlaced(e.book, SubmitTarget(e, env, target).book, Accounting.PosOf(e.acct, SYM).qty, env, target)
  {
    var (cur, approved) := (Accounting.PosOf(e.acct, SYM).qty, target.approved);
    if approved != cur {
      var c, e1 := TargetOrder(e, env, target);
      var f := SubmitTarget(e, env, target);
      hide Send, FloorQty, FloorOf, NearestTo, ProfitPart, TowardTarget, ProtectsTarget, SetTakeProfit, FreshId;
      if NewSide(cur, approved) {
        var side := if approved > 0.0 then Long else Short;
        var e2 := e1;
        if target.stop.Some? {
          var s;
          s, e2 := TargetStop(e1, env, target);
          ProfitIs(e2.book, env, target);
          assert f.book == SetTakeProfit(e2.book, env, target.tp, if target.tp.None? then None else Some(side));
          assert StopPart(e.book, f.book, c, s, env, target);
        } else {
          ProfitIs(e2.book, env, target);
          assert f.book == SetTakeProfit(e2.book, env, target.tp, if target.tp.None? then None else Some(side));
        }
      } else {
        assert f == e1;
      }
      assert MarketPart(e.book, f.book, c, cur, env, target) && Companions(e.book, f.book, c, cur, env, target);
    }
  }

  // ---------------------------------------------------------------- the next bar

  /** The bar reaches no level of the book, if the position is to be `p`. */
  ghost predicate Quiet(b: Book, bar: Bar, p: real) {
    && (forall d | IsNew(b, d) && b.orders[d].req.otype.StopMarket? && ActiveStop(b, d, bar.t) ::
          if b.orders[d].req.side.Long? then bar.h < b.orders[d].req.stop.value else b.orders[d].req.stop.value < bar.l)
    && (b.tp.Some? ==> (p > 0.0 ==> bar.h < b.tp.value) && (p < 0.0 ==> b.tp.value < bar.l))
    && (b.liq.Some? ==> (p > 0.0 ==> b.liq.value < bar.l) && (p < 0.0 ==> bar.h < b.liq.value))
  }

  lemma QuietWalk(b: Book, m: Book, env: Env, bar: Bar)
    requires AtRest(b) && Typed(b) && Follows(b, m) && FewerLevels(b, m) && Quiet(b, bar, m.position)
    ensures Walk(m, env, bar) == m
  {
    StopTriggersIn(m, m.stops, bar.t);
    forall tr | tr in Triggers(m, bar.t) ensures !(if tr.up then tr.level <= bar.h else tr.level >= bar.l) {
      if tr.StopAt? {
        StillLive(b, m, tr.coid, bar.t);
      }
    }
  }

  /** The order executes in full: it is no reduce-only order, or the position is large enough for it. */
  ghost predicate Executable(req: Request, position: real) {
    req.qty > 0.0 && (req.reduceOnly ==> Opposes(req.side, position) && req.qty <= Abs(position))
  }

  lemma OneMarketOrder(b: Book, env: Env, bar: Bar, c: Coid)
    requires IsNew(b, c) && b.orders[c].req.tsCreated <= bar.t && Executable(b.orders[c].req, b.position)
    ensures FillMarket(b, env, bar, [c], []).position
            == b.position + Signed(b.orders[c].req.side, b.orders[c].req.qty)
  {
    var qty := ExecutableQty(b.position, b.orders[c].req);
    assert qty == b.orders[c].req.qty;
    var b1 := Fills(b, env, c, bar.o, bar.t, None, qty);
    CancelProtectingShrinks(b1, b1.stops, if b.position > 0.0 then Short else Long, []);
    var e := Execute(b, env, c, bar.o, bar.t, None);
    assert [c][1..] == [];
    assert FillMarket(b, env, bar, [c], []) == e.(market := []);
  }

  lemma QuietBar(b: Book, env: Env, bar: Bar, c: Coid)
    requires AtRest(b) && Typed(b) && ValidEnv(env) && BarOk(bar) && OnBar(b, env, bar).Some?
    requires b.market == [c] && IsNew(b, c) && b.orders[c].req.tsCreated <= bar.t
             && Executable(b.orders[c].req, b.position)
    requires Quiet(b, bar, b.position + Signed(b.orders[c].req.side, b.orders[c].req.qty))
    ensures OnBar(b, env, bar).value.position == b.position + Signed(b.orders[c].req.side, b.orders[c].req.qty)
  {
    var m, w, e := Stages(b, env, bar);
    var b1 := ChargeFunding(b, env, bar);
    OneMarketOrder(b1, env, bar, c);
    MarketLevels(b1, env, bar, b1.market, []);
    hide OnBar, Walk, FillMarket, ChargeFunding, ExpireOrphans, Quiet, Executable;
    QuietWalk(b, m, env, bar);
    ExpireFrame(w);
  }

  /** The target is reached: if nothing else was queued and the order is accepted, the next bar that reaches no level
      leaves the position within a step of the target, not beyond it, and exactly there if the way was a whole number of
      steps. */
  lemma NextBarReaches(e: Loop, env: Env, target: Target, stray: real, bar: Bar)
    requires LoopOk(e, stray) && Exact(e) && ValidEnv(env) && BarOk(bar) && target.closeNs <= bar.t
    requires e.book.market == [] && target.approved != e.book.position
    requires var b := SubmitTarget(e, env, target).book;
             && b.market != [] && OnBar(b, env, bar).Some?
             && b.market[0] in b.orders
             && Quiet(b, bar, b.position + Signed(b.orders[b.market[0]].req.side, b.orders[b.market[0]].req.qty))
    ensures var p := OnBar(SubmitTarget(e, env, target).book, env, bar).value.position;
            && Abs(target.approved - p) < env.step
            && (if e.book.position <= target.approved then e.book.position <= p <= target.approved
                else target.approved <= p <= e.book.position)
            && ((exists n :: Abs(target.approved - e.book.position) == Units(n, env.step)) ==> p == target.approved)
  {
    var (b, cur) := (SubmitTarget(e, env, target).book, e.book.position);
    SubmitTargetMeans(e, env, target);
    EngineProofs.SubmitTargetOk(e, env, target, stray);
    hide SubmitTarget, OnBar, Quiet, TowardTarget, Companions, Executable;
    var c :| MarketPart(e.book, b, c, cur, env, target);
    QueuedTyped(b, c);
    WayToTarget(b.orders[c], cur, target.approved, env, target.closeNs);
    QuietBar(b, env, bar, c);
  }

  lemma WayToTarget(o: Order, cur: real, approved: real, env: Env, closeNs: int)
    requires env.step > 0.0 && TowardTarget(o, cur, approved, env, closeNs) && approved != cur && o.req.qty > 0.0
    ensures Executable(o.req, cur) && o.req.tsCreated == closeNs
    ensures var p := cur + Signed(o.req.side, o.req.qty);
            && Abs(approved - p) < env.step && (if cur <= approved then cur <= p <= approved else approved <= p <= cur)
            && ((exists n :: Abs(approved - cur) == Units(n, env.step)) ==> p == approved)
  {
    hide FloorOf, Units;
    if n :| Abs(approved - cur) == Units(n, env.step) {
      WholeSteps(o.req.qty, Abs(approved - cur), n, env.step);
    }
  }

  lemma QueuedTyped(b: Book, c: Coid)
    requires AtRest(b) && Typed(b) && b.market == [c]
    ensures c in b.orders && b.orders[c].req.qty > 0.0
  {
    assert c in b.market;
  }

  lemma WholeSteps(q: real, x: real, n: int, step: real)
    requires step > 0.0 && FloorOf(q, x, step) && x == Units(n, step)
    ensures q == x
  {
    var m :| q == Units(m, step);
    OnTheGrid(n, m, step);
  }
}
