/** In which order a bar reaches its levels: the side adverse to the position first, liquidation before anything else at
    the open, and for a flat book the nearer extreme first. */
module BarPaths {
  import opened Base
  import opened Broker
  import opened BrokerProofs
  import opened BrokerTheorems
  import opened BarOrders

  // ---------------------------------------------------------------- the adverse side comes first

  /** No fill from number `n` on takes a profit. */
  ghost predicate NoProfit(n: nat, x: Book) {
    forall i | n <= i < |x.fills| :: x.fills[i].coid in x.orders && x.orders[x.fills[i].coid].reason != Some(TakeProfit)
  }

  lemma ExecuteReason(x: Book, env: Env, d: Coid, pRef: real, ts: int, why: Option<ExitReason>)
    requires d in x.orders && why != Some(TakeProfit)
    ensures var y := Execute(x, env, d, pRef, ts, why);
            d in y.orders && (y.orders[d].status.Filled? && x.orders[d].status.New?
              ==> y.orders[d].reason != Some(TakeProfit))
  {
    var qty := ExecutableQty(x.position, x.orders[d].req);
    if qty > 0.0 {
      var x1 := Fills(x, env, d, pRef, ts, why, qty);
      CancelProtectingFilled(x1, x1.stops, if x.position > 0.0 then Short else Long, [], d);
    }
  }

  lemma NoProfitStep(n: nat, x: Book, y: Book, d: Coid)
    requires NoProfit(n, x) && Grows(x, y) && FillsOk(x)
    requires y.fills == x.fills
             || (|y.fills| == |x.fills| + 1 && y.fills[..|x.fills|] == x.fills && y.fills[|x.fills|].coid == d
                 && d in y.orders && y.orders[d].reason != Some(TakeProfit))
    ensures NoProfit(n, y)
  {
    forall i | n <= i < |y.fills|
      ensures y.fills[i].coid in y.orders && y.orders[y.fills[i].coid].reason != Some(TakeProfit)
    {
      if i < |x.fills| {
        assert y.fills[i] == x.fills[i] && HasFill(x.fills, x.fills[i].coid);
      }
    }
  }

  /** An execution that takes no profit. */
  lemma ExecuteNoProfit(n: nat, x: Book, env: Env, pend: seq<Coid>, d: Coid, p: real, t: int, why: Option<ExitReason>)
    requires NoProfit(n, x) && Ok(x, pend + x.stops, Some(d)) && why != Some(TakeProfit)
    ensures NoProfit(n, Execute(x, env, d, p, t, why))
  {
    var y := Execute(x, env, d, p, t, why);
    ExecuteOk(x, env, pend, d, p, t, why);
    ExecuteReason(x, env, d, p, t, why);
    LooseIsNew(x, pend, d);
    ExecuteLast(x, env, d, p, t, why);
    hide Execute, Queued;
    NoProfitStep(n, x, y, d);
  }

  lemma LooseIsNew(x: Book, pend: seq<Coid>, d: Coid)
    requires Ok(x, pend + x.stops, Some(d))
    ensures IsNew(x, d) && FillsOk(x)
  {
  }

  lemma ExecuteLast(x: Book, env: Env, d: Coid, p: real, t: int, why: Option<ExitReason>)
    requires d in x.orders
    ensures var y := Execute(x, env, d, p, t, why);
            y.fills == x.fills
            || (|y.fills| == |x.fills| + 1 && y.fills[..|x.fills|] == x.fills && y.fills[|x.fills|].coid == d
                && d in y.orders && y.orders[d].status.Filled?)
  {
    var qty := ExecutableQty(x.position, x.orders[d].req);
    if qty > 0.0 {
      var x1 := Fills(x, env, d, p, t, why, qty);
      assert x1.fills[..|x.fills|] == x.fills;
      CancelProtectingShrinks(x1, x1.stops, if x.position > 0.0 then Short else Long, []);
      CancelProtectingFilled(x1, x1.stops, if x.position > 0.0 then Short else Long, [], d);
    }
  }

  /** Only a take-profit takes profit. */
  lemma FireNoProfit(n: nat, x: Book, env: Env, tr: Trigger, p: real, t: int)
    requires AtRest(x) && NoProfit(n, x) && tr in Triggers(x, t) && !tr.ProfitAt?
    ensures NoProfit(n, Fire(x, env, tr, p, t))
  {
    StopTriggersIn(x, x.stops, t);
    if tr.StopAt? {
      LooseStop(x, x.market, tr.coid);
      hide Ok, Execute, Remove;
      ExecuteNoProfit(n, x.(stops := Remove(x.stops, tr.coid)), env, x.market, tr.coid, p, t, None);
    } else {
      var x2 := Exit(x, env, tr, t);
      FireExits(x, env, tr, p, t);
      ExitIs(x, env, tr, t);
      RestFills(x);
      hide Ok, Execute, Fire, Exit, Grows, NoProfit, Triggers;
      SameNoProfit(n, x, x2);
      ExecuteNoProfit(n, x2, env, x.market, Synthetic(x.seqNo), p, t, Some(Liquidation));
    }
  }

  lemma SameNoProfit(n: nat, x: Book, y: Book)
    requires NoProfit(n, x) && Grows(x, y) && y.fills == x.fills && FillsOk(x)
    ensures NoProfit(n, y)
  {
    NoProfitStep(n, x, y, Synthetic(0));
  }

  /** A stop that, when it fires, closes the whole position of `b`. */
  ghost predicate Covers(b: Book, c: Coid) {
    c in b.stops && IsNew(b, c) && Opposes(b.orders[c].req.side, b.position) && Abs(b.position) <= b.orders[c].req.qty
  }

  /** While the take-profit stands, so does the stop, and the position has not grown. */
  ghost predicate StopStands(b: Book, x: Book, c: Coid) {
    x.tp.Some? ==>
      && SameSide(b.position, x.position) && Abs(x.position) <= Abs(b.position) && x.tpSide == b.tpSide
      && c in x.stops && Untouched(b, x, c)
  }

  ghost predicate Adverse(n: nat, b: Book, x: Book, c: Coid) {
    AtRest(x) && Typed(x) && NoProfit(n, x) && StopStands(b, x, c)
  }

  lemma StopFireStands(b: Book, x: Book, env: Env, d: Coid, p: real, t: int, c: Coid)
    requires AtRest(x) && Typed(x) && Covers(b, c) && OwnProfit(b) && StopStands(b, x, c)
    requires d in x.stops && ActiveStop(x, d, t) && (x.tp.Some? ==> Opposes(x.orders[d].req.side, b.position))
    ensures StopStands(b, Execute(x.(stops := Remove(x.stops, d)), env, d, p, t, None), c)
  {
    Apart(x.market, x.stops);
    RemoveIs(x.stops, d);
    RestNet(x);
    var x1 := x.(stops := Remove(x.stops, d));
    ExecuteLevels(x1, env, d, p, t, None);
    if x.tp.Some? {
      ExecuteEffect(x1, env, d, p, t, None);
      EffectOnStop(x1, env, d, p, t, None, c);
      assert ExecutableQty(x1.position, x1.orders[d].req) > 0.0;
      hide Execute, Ok, Remove, Net;
    }
  }

  lemma LiqFireStands(b: Book, x: Book, env: Env, level: real, up: bool, p: real, t: int, c: Coid)
    requires AtRest(x) && b.position != 0.0 && OwnProfit(b) && StopStands(b, x, c) && LiqAt(level, up) in Triggers(x, t)
    ensures Fire(x, env, LiqAt(level, up), p, t).tp.None?
  {
    var tr := LiqAt(level, up);
    FireLevels(x, env, tr, p, t);
    if x.tp.Some? {
      FireExits(x, env, tr, p, t);
      ExitIs(x, env, tr, t);
      RestNet(x);
      hide Execute, Exit, Ok, Grows, Net, ExecutableQty, Fire, Triggers;
      ExecuteEffect(Exit(x, env, tr, t), env, Synthetic(x.seqNo), p, t, Some(Liquidation));
    }
  }

  /** A level on the adverse side fires. */
  lemma FireAdverse(n: nat, b: Book, x: Book, env: Env, tr: Trigger, p: real, t: int, c: Coid)
    requires b.position != 0.0 && Covers(b, c) && OwnProfit(b) && Adverse(n, b, x, c) && tr in Triggers(x, t)
    requires x.tp.Some? ==> tr.up == (b.position < 0.0)
    ensures Adverse(n, b, Fire(x, env, tr, p, t), c)
  {
    StopTriggersIn(x, x.stops, t);
    assert !tr.ProfitAt?;
    FireFollows(x, env, tr, p, t);
    FollowsIsAtRest(x, Fire(x, env, tr, p, t));
    FollowsTyped(x, Fire(x, env, tr, p, t));
    FireNoProfit(n, x, env, tr, p, t);
    hide AtRest, Typed, NoProfit, Execute;
    match tr {
      case StopAt(d, _, _) => StopFireStands(b, x, env, d, p, t, c);
      case LiqAt(level, up) => LiqFireStands(b, x, env, level, up, p, t, c);
      case _ =>
    }
  }

  lemma {:induction false} SegmentAdverse(n: nat, b: Book, x: Book, env: Env, t: int, cur: real, target: real, c: Coid)
    requires b.position != 0.0 && Covers(b, c) && OwnProfit(b) && Adverse(n, b, x, c)
    requires if b.position > 0.0 then target <= cur else cur <= target
    ensures Adverse(n, b, Segment(x, env, t, cur, target), c)
    decreases Live(x)
  {
    hide Adverse, Covers, OwnProfit, Fire, Triggers;
    var on := Ahead(x, t, cur, target);
    if cur != target && on != [] {
      var tr := Best(if target < cur then Highest else Lowest, on);
      FireShrinks(x, env, tr, tr.level, t);
      FireAdverse(n, b, x, env, tr, tr.level, t, c);
      SegmentAdverse(n, b, Fire(x, env, tr, tr.level, t), env, t, tr.level, target, c);
    }
  }

  /** The rest of the walk, once there is no take-profit. */
  ghost predicate Plain(n: nat, x: Book) {
    AtRest(x) && NoProfit(n, x) && x.tp.None?
  }

  lemma FirePlain(n: nat, x: Book, env: Env, tr: Trigger, p: real, t: int)
    requires Plain(n, x) && tr in Triggers(x, t)
    ensures Plain(n, Fire(x, env, tr, p, t))
  {
    StopTriggersIn(x, x.stops, t);
    FireFollows(x, env, tr, p, t);
    FollowsIsAtRest(x, Fire(x, env, tr, p, t));
    FireNoProfit(n, x, env, tr, p, t);
    FireLevels(x, env, tr, p, t);
    hide AtRest, NoProfit, Fire, StopTriggers;
  }

  lemma PlainIsKept(n: nat, env: Env, bar: Bar)
    ensures KeptByFiring((x: Book) => Plain(n, x), env, bar)
  {
    var J := (x: Book) => Plain(n, x);
    hide Plain, Triggers, Fire;
    forall x, tr, p | J(x) && tr in Triggers(x, bar.t) && FiresAt(tr, p, bar) ensures J(Fire(x, env, tr, p, bar.t)) {
      FirePlain(n, x, env, tr, p, bar.t);
    }
  }

  /** No level is behind the price `o`. */
  ghost predicate NothingBehind(b: Book, t: int, o: real) {
    forall tr | tr in Triggers(b, t) :: !Behind(tr, o)
  }

  lemma NothingAtOpen(x: Book, t: int, o: real)
    requires NothingBehind(x, t, o)
    ensures AtOpen(x, t, o) == []
  {
    if AtOpen(x, t, o) != [] {
      SomeMember(AtOpen(x, t, o));
      assert false;
    }
  }

  lemma SomeMember(s: seq<Trigger>)
    requires s != []
    ensures exists x :: x in s
  {
    assert s[0] in s;
  }

  lemma WalkAdverse(x: Book, env: Env, bar: Bar, c: Coid)
    requires AtRest(x) && Typed(x) && BarOk(bar) && x.position != 0.0 && OwnProfit(x)
    requires Covers(x, c) && LiveStop(x, c, bar.t) && StrictlyCrossed(x.orders[c].req, bar)
             && NothingBehind(x, bar.t, bar.o)
    ensures NoProfit(|x.fills|, Walk(x, env, bar))
  {
    var (n, t, o) := (|x.fills|, bar.t, bar.o);
    LiveStopTriggers(x, c, t);
    assert StopAt(c, x.orders[c].req.stop.value, x.orders[c].req.side.Long?) in Triggers(x, t);
    if Reachable(x, bar) {
      NothingAtOpen(x, t, o);
      var first := if x.position > 0.0 then bar.l else bar.h;
      var second := if x.position > 0.0 then bar.h else bar.l;
      assert StopStands(x, x, c);
      assert Adverse(n, x, x, c);
      SegmentAdverse(n, x, x, env, t, o, first, c);
      SegmentClears(x, env, t, o, first, c);
      var b1 := Segment(x, env, t, o, first);
      NoLongerStands(n, x, b1, c, t, o, bar, first);
      PlainIsKept(n, env, bar);
      hide Plain, Segment, Triggers, KeptByFiring, Adverse;
      SegmentKeeps((y: Book) => Plain(n, y), b1, env, bar, first, second);
      SegmentKeeps((y: Book) => Plain(n, y), Segment(b1, env, t, first, second), env, bar, second, bar.c);
      var e := Walk(x, env, bar);
      assert Plain(n, e);
      PlainMeans(n, e);
    }
  }

  lemma PlainMeans(n: nat, x: Book)
    requires Plain(n, x)
    ensures NoProfit(n, x)
  {
  }

  lemma NoLongerStands(n: nat, x: Book, y: Book, c: Coid, t: int, o: real, bar: Bar, first: real)
    requires Adverse(n, x, y, c) && LiveStop(x, c, t) && StrictlyCrossed(x.orders[c].req, bar) && BarOk(bar)
             && o == bar.o
    requires Covers(x, c) && first == if x.position > 0.0 then bar.l else bar.h
    requires !Behind(StopAt(c, x.orders[c].req.stop.value, x.orders[c].req.side.Long?), o)
    requires LiveStop(y, c, t) ==> !PassedOver(y, c, o, first)
    ensures Plain(n, y)
  {
  }

  lemma {:induction false} NothingDue(b: Book, env: Env, bar: Bar, todo: seq<Coid>, keep: seq<Coid>)
    requires forall c | c in todo :: IsNew(b, c) && b.orders[c].req.tsCreated > bar.t
    ensures FillMarket(b, env, bar, todo, keep) == b.(market := keep + todo)
    decreases |todo|
  {
    if todo == [] {
      assert keep + todo == keep;
    } else {
      assert todo == [todo[0]] + todo[1..] && todo[0] in todo;
      assert keep + todo == keep + [todo[0]] + todo[1..];
      NothingDue(b, env, bar, todo[1..], keep + [todo[0]]);
    }
  }

  /** No market order executes in this bar. */
  ghost predicate NoneDue(b: Book, bar: Bar) {
    forall d | IsNew(b, d) && b.orders[d].req.otype.Market? :: b.orders[d].req.tsCreated > bar.t
  }

  /** If no market order is due, the walk starts from the book as it was. */
  lemma WalkFromStart(b: Book, env: Env, bar: Bar)
    requires AtRest(b) && Typed(b) && ValidEnv(env) && NoneDue(b, bar)
    ensures var b1 := ChargeFunding(b, env, bar);
            FillMarket(b1, env, bar, b1.market, []) == b1 && b1 == b.(charges := b1.charges)
  {
    var b1 := ChargeFunding(b, env, bar);
    ChargeFrame(b, env, bar);
    forall c | c in b1.market ensures IsNew(b1, c) && b1.orders[c].req.tsCreated > bar.t {
      assert c in b.market + b.stops;
    }
    NothingDue(b1, env, bar, b1.market, []);
    assert [] + b1.market == b1.market;
  }

  /** The pessimistic path: when a bar reaches both the stop that covers a position and its take-profit, and opens
      between its levels, the stop comes first: nothing is sold at the take-profit, whatever other orders there are. */
  lemma StopBeforeProfit(b: Book, env: Env, bar: Bar, c: Coid)
    requires AtRest(b) && Typed(b) && ValidEnv(env) && BarOk(bar) && OnBar(b, env, bar).Some?
    requires NoneDue(b, bar) && b.position != 0.0 && OwnProfit(b) && Covers(b, c)
    requires LiveStop(b, c, bar.t) && StrictlyCrossed(b.orders[c].req, bar) && NothingBehind(b, bar.t, bar.o)
    ensures var e := OnBar(b, env, bar).value;
            forall i | |b.fills| <= i < |e.fills| ::
              e.fills[i].coid in e.orders && e.orders[e.fills[i].coid].reason != Some(TakeProfit)
  {
    var m, w, e := Stages(b, env, bar);
    WalkFromStart(b, env, bar);
    SameTriggers(b, m, bar.t);
    hide OnBar, FillMarket, ChargeFunding, Walk, Triggers, ExpireOrphans;
    assert Covers(m, c) && LiveStop(m, c, bar.t);
    WalkAdverse(m, env, bar, c);
    ExpireOk(w);
    RestFills(w);
    SameNoProfit(|b.fills|, w, e);
  }

  lemma SameTriggers(b: Book, m: Book, t: int)
    requires m == b.(charges := m.charges)
    ensures Triggers(m, t) == Triggers(b, t)
  {
    SameStopTriggers(b, m, b.stops, t);
  }

  lemma {:induction false} SameStopTriggers(b: Book, m: Book, stops: seq<Coid>, t: int)
    requires m.orders == b.orders
    ensures StopTriggers(m, stops, t) == StopTriggers(b, stops, t)
  {
    if stops != [] {
      SameStopTriggers(b, m, stops[1..], t);
    }
  }

  // ---------------------------------------------------------------- liquidation at the open

  /** The bar opens at or beyond the liquidation level. */
  predicate OpensBeyondLiq(b: Book, bar: Bar) {
    b.liq.Some? && if b.position > 0.0 then bar.o <= b.liq.value else bar.o >= b.liq.value
  }

  /** Fill number `n` liquidates the whole position `was` at the open. */
  ghost predicate Liquidates(x: Book, n: nat, was: real, bar: Bar) {
    && n < |x.fills| && x.fills[n].pRef == bar.o && x.fills[n].qty == Abs(was) && Opposes(x.fills[n].side, was)
    && x.fills[n].coid in x.orders && x.orders[x.fills[n].coid].status.Filled?
    && x.orders[x.fills[n].coid].reason == Some(Liquidation)
  }

  lemma LiquidationFill(x: Book, env: Env, tr: Trigger, bar: Bar)
    requires AtRest(x) && tr.LiqAt? && tr in Triggers(x, bar.t)
    ensures Liquidates(Fire(x, env, tr, bar.o, bar.t), |x.fills|, x.position, bar)
  {
    var (id, x2, qty) := (Synthetic(x.seqNo), Exit(x, env, tr, bar.t), Abs(x.position));
    FireExits(x, env, tr, bar.o, bar.t);
    ExitIs(x, env, tr, bar.t);
    hide Exit, Triggers, Ok, Grows, ExecutableQty, Fire;
    var x3 := Fills(x2, env, id, bar.o, bar.t, Some(Liquidation), qty);
    CancelProtectingShrinks(x3, x3.stops, if x.position > 0.0 then Short else Long, []);
    CancelProtectingFilled(x3, x3.stops, if x.position > 0.0 then Short else Long, [], id);
  }

  lemma LiquidatesStays(x: Book, y: Book, n: nat, was: real, bar: Bar)
    requires Liquidates(x, n, was, bar) && Grows(x, y)
    ensures Liquidates(y, n, was, bar)
  {
  }

  lemma FirstAtOpen(x: Book, t: int, o: real)
    requires x.position != 0.0 && x.liq.Some? && Behind(LiqAt(x.liq.value, x.position < 0.0), o)
    ensures AtOpen(x, t, o) != [] && Best(ByPriority, AtOpen(x, t, o)).LiqAt?
  {
    var l := LiqAt(x.liq.value, x.position < 0.0);
    assert l in Triggers(x, t);
    assert l in AtOpen(x, t, o);
    assert !Better(ByPriority, l, Best(ByPriority, AtOpen(x, t, o)));
  }

  /** Liquidation has priority: if the bar opens at or beyond the liquidation level, the first fill of the bar closes
      the whole position at the open, before any stop. */
  lemma LiquidationFirst(b: Book, env: Env, bar: Bar)
    requires AtRest(b) && Typed(b) && ValidEnv(env) && BarOk(bar) && OnBar(b, env, bar).Some?
    requires NoneDue(b, bar) && b.position != 0.0 && OpensBeyondLiq(b, bar)
    ensures Liquidates(OnBar(b, env, bar).value, |b.fills|, b.position, bar)
  {
    var m, w, e := Stages(b, env, bar);
    WalkFromStart(b, env, bar);
    hide OnBar, FillMarket, ChargeFunding, ExpireOrphans;
    var (t, o) := (bar.t, bar.o);
    FirstAtOpen(m, t, o);
    var tr := Best(ByPriority, AtOpen(m, t, o));
    FireShrinks(m, env, tr, o, t);
    LiquidationFill(m, env, tr, bar);
    FireFollows(m, env, tr, o, t);
    var f := Fire(m, env, tr, o, t);
    WalkAfter(m, f, env, bar);
    hide AtRest, Typed, Liquidates, Walk, Fire, Triggers, AtOpen, Grows;
    LiquidatesStays(f, w, |b.fills|, b.position, bar);
    LiquidatesStays(w, e, |b.fills|, b.position, bar);
  }

  /** The walk goes on from the first firing at the open. */
  lemma WalkAfter(m: Book, f: Book, env: Env, bar: Bar)
    requires AtRest(f) && BarOk(bar) && AtOpen(m, bar.t, bar.o) != []
    requires f == Fire(m, env, Best(ByPriority, AtOpen(m, bar.t, bar.o)), bar.o, bar.t)
    ensures Grows(f, Walk(m, env, bar))
  {
    var J := (x: Book) => AtRest(x) && Grows(f, x);
    GrowthIsKept(f, env, bar);
    var tr := Best(ByPriority, AtOpen(m, bar.t, bar.o));
    assert tr in Triggers(m, bar.t) && Behind(tr, bar.o);
    FireShrinks(m, env, tr, bar.o, bar.t);
    assert Reachable(m, bar);
    hide Triggers, Fire, Grows, AtRest, Reachable, KeptByFiring;
    FireAtOpenKeeps(J, f, env, bar);
    var b0 := FireAtOpen(m, env, bar.t, bar.o);
    var low := LowFirst(b0.position, bar);
    var (first, second) := (if low then bar.l else bar.h, if low then bar.h else bar.l);
    SegmentKeeps(J, b0, env, bar, bar.o, first);
    var b1 := Segment(b0, env, bar.t, bar.o, first);
    SegmentKeeps(J, b1, env, bar, first, second);
    SegmentKeeps(J, Segment(b1, env, bar.t, first, second), env, bar, second, bar.c);
  }

  // ---------------------------------------------------------------- the path of a flat book

  /** Entry stop `c` waits as it was in `b`. */
  ghost predicate Waits(b: Book, x: Book, c: Coid) {
    Entry(b, c) && Untouched(b, x, c) && c in x.stops && AtRest(x)
  }

  lemma FireSpares(b: Book, x: Book, env: Env, tr: Trigger, p: real, t: int, c: Coid)
    requires Waits(b, x, c) && tr in Triggers(x, t) && !(tr.StopAt? && tr.coid == c)
    ensures Waits(b, Fire(x, env, tr, p, t), c)
  {
    FireFollows(x, env, tr, p, t);
    FollowsIsAtRest(x, Fire(x, env, tr, p, t));
    FireWaits(b, x, env, tr, p, t, c);
    FireStillNew(x, env, tr, p, t, c);
    hide AtRest, Fire, Triggers, Grows, Follows;
  }

  /** A firing fills no other stop. */
  lemma FireStillNew(x: Book, env: Env, tr: Trigger, p: real, t: int, c: Coid)
    requires AtRest(x) && tr in Triggers(x, t) && !(tr.StopAt? && tr.coid == c) && c in x.orders
             && !x.orders[c].status.Filled?
    ensures var y := Fire(x, env, tr, p, t); c in y.orders && !y.orders[c].status.Filled?
  {
    StopTriggersIn(x, x.stops, t);
    if tr.StopAt? {
      LooseStop(x, x.market, tr.coid);
      hide Ok, Execute, Remove;
      ExecuteFillsOne(x.(stops := Remove(x.stops, tr.coid)), env, tr.coid, p, t, None, c);
    } else {
      FireExits(x, env, tr, p, t);
      ExitIs(x, env, tr, t);
      hide Ok, Grows, Execute, Exit, Fire;
      ExecuteFillsOne(Exit(x, env, tr, t), env, Synthetic(x.seqNo), p, t, Some(Why(tr)), c);
    }
  }

  lemma {:induction false} ProtectingFillsNone(b: Book, todo: seq<Coid>, side: Side, keep: seq<Coid>, c: Coid)
    requires c in b.orders && !b.orders[c].status.Filled?
    ensures var e := CancelProtecting(b, todo, side, keep); c in e.orders && !e.orders[c].status.Filled?
    decreases |todo|
  {
    if todo != [] {
      var d := todo[0];
      if !IsNew(b, d) {
        ProtectingFillsNone(b, todo[1..], side, keep, c);
      } else if b.orders[d].req.reduceOnly && b.orders[d].req.side == side {
        ProtectingFillsNone(SetStatus(b, d, Canceled, b.orders[d].code), todo[1..], side, keep, c);
      } else {
        ProtectingFillsNone(b, todo[1..], side, keep + [d], c);
      }
    }
  }

  lemma ExecuteFillsOne(x: Book, env: Env, d: Coid, p: real, t: int, why: Option<ExitReason>, c: Coid)
    requires d in x.orders && c in x.orders && c != d && !x.orders[c].status.Filled?
    ensures var y := Execute(x, env, d, p, t, why); c in y.orders && !y.orders[c].status.Filled?
  {
    var qty := ExecutableQty(x.position, x.orders[d].req);
    if qty > 0.0 {
      var x1 := Fills(x, env, d, p, t, why, qty);
      ProtectingFillsNone(x1, x1.stops, if x.position > 0.0 then Short else Long, [], c);
    }
  }

  /** A move away from its level leaves an entry stop waiting. */
  lemma {:induction false} SegmentSpares(b: Book, x: Book, env: Env, t: int, cur: real, target: real, c: Coid)
    requires Waits(b, x, c) && if b.orders[c].req.side.Long? then target <= cur else cur <= target
    ensures Waits(b, Segment(x, env, t, cur, target), c)
    decreases Live(x)
  {
    var on := Ahead(x, t, cur, target);
    if cur != target && on != [] {
      var tr := Best(if target < cur then Highest else Lowest, on);
      StopTriggersIn(x, x.stops, t);
      FireShrinks(x, env, tr, tr.level, t);
      hide AtRest, Fire;
      FireSpares(b, x, env, tr, tr.level, t, c);
      SegmentSpares(b, Fire(x, env, tr, tr.level, t), env, t, tr.level, target, c);
    }
  }

  lemma {:induction false} SegmentEntry(b: Book, x: Book, env: Env, t: int, cur: real, target: real, c: Coid)
    requires Entry(b, c) && WaitsOrFilled(b, x, c) && AtRest(x)
    ensures WaitsOrFilled(b, Segment(x, env, t, cur, target), c)
    decreases Live(x)
  {
    var on := Ahead(x, t, cur, target);
    if cur != target && on != [] {
      var tr := Best(if target < cur then Highest else Lowest, on);
      FireShrinks(x, env, tr, tr.level, t);
      hide AtRest, Fire, WaitsOrFilled, Entry, Triggers;
      FireWaits(b, x, env, tr, tr.level, t, c);
      FireFollows(x, env, tr, tr.level, t);
      FollowsIsAtRest(x, Fire(x, env, tr, tr.level, t));
      SegmentEntry(b, Fire(x, env, tr, tr.level, t), env, t, tr.level, target, c);
    }
  }

  /** An active entry stop whose level the bar crosses, and does not open beyond. */
  ghost predicate EntryCrossed(b: Book, c: Coid, bar: Bar) {
    LiveStop(b, c, bar.t) && !b.orders[c].req.reduceOnly && StrictlyCrossed(b.orders[c].req, bar)
  }

  /** `near` has been filled by state `y`, and `far` has not. */
  ghost predicate NearFirst(y: Book, near: Coid, far: Coid) {
    && near in y.orders && y.orders[near].status.Filled? && far in y.orders && !y.orders[far].status.Filled?
  }

  lemma FirstLeg(x: Book, env: Env, bar: Bar, near: Coid, far: Coid, to: real)
    requires AtRest(x) && Typed(x) && BarOk(bar) && NothingBehind(x, bar.t, bar.o)
    requires EntryCrossed(x, near, bar) && EntryCrossed(x, far, bar)
    requires x.orders[near].req.side != x.orders[far].req.side
    requires to == if x.orders[near].req.side.Short? then bar.l else bar.h
    ensures var y := Segment(x, env, bar.t, bar.o, to); AtRest(y) && Grows(x, y) && NearFirst(y, near, far)
  {
    var (t, o) := (bar.t, bar.o);
    var y := Segment(x, env, t, o, to);
    LiveStopTriggers(x, near, t);
    assert Waits(x, x, far) && WaitsOrFilled(x, x, near) && Entry(x, near);
    SegmentSpares(x, x, env, t, o, to, far);
    SegmentEntry(x, x, env, t, o, to, near);
    SegmentClears(x, env, t, o, to, near);
    hide Segment, Triggers, Ok, Grows;
    assert !Behind(StopAt(near, x.orders[near].req.stop.value, x.orders[near].req.side.Long?), o);
  }

  lemma FillOrder(y: Book, e: Book, near: Coid, far: Coid)
    requires AtRest(y) && Grows(y, e) && FillsOk(e) && NearFirst(y, near, far)
    ensures exists i :: 0 <= i < |e.fills| && e.fills[i].coid == near
                        && forall j | 0 <= j < |e.fills| && e.fills[j].coid == far :: i < j
  {
    assert HasFill(y.fills, near) && !HasFill(y.fills, far);
    var i :| 0 <= i < |y.fills| && y.fills[i].coid == near;
    assert e.fills[i].coid == near;
    assert forall k | 0 <= k < |y.fills| :: e.fills[k] == y.fills[k] && y.fills[k].coid != far;
  }

  /** Every firing only adds to what happened before. */
  lemma GrowthIsKept(y: Book, env: Env, bar: Bar)
    ensures KeptByFiring((z: Book) => AtRest(z) && Grows(y, z), env, bar) && Grows(y, y)
  {
    var J := (z: Book) => AtRest(z) && Grows(y, z);
    forall z, tr, p | J(z) && tr in Triggers(z, bar.t) && FiresAt(tr, p, bar) ensures J(Fire(z, env, tr, p, bar.t)) {
      FireOk(z, env, z.market, tr, p, bar.t);
      FireFrame(z, env, tr, p, bar.t);
      GrowsTwice(y, z, Fire(z, env, tr, p, bar.t));
      hide Ok, Grows, Fire, Triggers;
    }
  }

  lemma WalkNearFirst(x: Book, env: Env, bar: Bar, near: Coid, far: Coid)
    requires AtRest(x) && Typed(x) && BarOk(bar) && x.position == 0.0 && NothingBehind(x, bar.t, bar.o)
    requires EntryCrossed(x, near, bar) && EntryCrossed(x, far, bar)
    requires x.orders[near].req.side != x.orders[far].req.side
    requires x.orders[near].req.side.Short? <==> bar.o - bar.l <= bar.h - bar.o
    ensures exists y :: AtRest(y) && Grows(x, y) && NearFirst(y, near, far) && Grows(y, Walk(x, env, bar))
  {
    var (t, o) := (bar.t, bar.o);
    LiveStopTriggers(x, near, t);
    NothingAtOpen(x, t, o);
    var first := if x.orders[near].req.side.Short? then bar.l else bar.h;
    var second := if x.orders[near].req.side.Short? then bar.h else bar.l;
    FirstLeg(x, env, bar, near, far, first);
    var y := Segment(x, env, t, o, first);
    var J := (z: Book) => AtRest(z) && Grows(y, z);
    GrowthIsKept(y, env, bar);
    assert Reachable(x, bar);
    hide Triggers, Segment, Grows, AtRest, Reachable, KeptByFiring;
    SegmentKeeps(J, y, env, bar, first, second);
    SegmentKeeps(J, Segment(y, env, t, first, second), env, bar, second, bar.c);
  }

  /** A flat book meets the nearer extreme first: of a buy stop and a sell stop that are both crossed, the one on the
      side of the nearer extreme is filled, and before the other. */
  lemma NearerExtremeFirst(b: Book, env: Env, bar: Bar, near: Coid, far: Coid)
    requires AtRest(b) && Typed(b) && ValidEnv(env) && BarOk(bar) && OnBar(b, env, bar).Some? && NoneDue(b, bar)
    requires b.position == 0.0 && NothingBehind(b, bar.t, bar.o)
    requires EntryCrossed(b, near, bar) && EntryCrossed(b, far, bar)
             && b.orders[near].req.side != b.orders[far].req.side
    requires b.orders[near].req.side.Short? <==> bar.o - bar.l <= bar.h - bar.o
    ensures var e := OnBar(b, env, bar).value;
            exists i :: 0 <= i < |e.fills| && e.fills[i].coid == near
                        && forall j | 0 <= j < |e.fills| && e.fills[j].coid == far :: i < j
  {
    var m, w, e := Stages(b, env, bar);
    WalkFromStart(b, env, bar);
    SameTriggers(b, m, bar.t);
    hide OnBar, FillMarket, ChargeFunding, Walk, Triggers, ExpireOrphans;
    assert EntryCrossed(m, near, bar) && EntryCrossed(m, far, bar);
    WalkNearFirst(m, env, bar, near, far);
    var y :| AtRest(y) && Grows(m, y) && NearFirst(y, near, far) && Grows(y, w);
    GrowsTwice(y, w, e);
    RestFills(e);
    FillOrder(y, e, near, far);
  }

  // ---------------------------------------------------------------- the way to the close

  /** A long, or a short, position. */
  predicate Has(x: Book, long: bool) {
    if long then x.position > 0.0 else x.position < 0.0
  }

  /** The liquidation trigger of such a position. */
  function LiqOf(x: Book, long: bool): Trigger
    requires x.liq.Some?
  {
    LiqAt(x.liq.value, !long)
  }

  /** A firing against a side opens no position of that side. */
  lemma FireOpensNone(x: Book, env: Env, tr: Trigger, p: real, t: int, long: bool)
    requires AtRest(x) && tr in Triggers(x, t) && (tr.StopAt? ==> tr.up != long)
    ensures Has(Fire(x, env, tr, p, t), long) ==> Has(x, long)
  {
    StopTriggersIn(x, x.stops, t);
    RestNet(x);
    if tr.StopAt? {
      var x1 := x.(stops := Remove(x.stops, tr.coid));
      ExecuteEffect(x1, env, tr.coid, p, t, None);
      hide Execute, Ok, Net, Remove;
    } else {
      FireExits(x, env, tr, p, t);
      ExitIs(x, env, tr, t);
      hide Execute, Exit, Fire, Ok, Grows, Net, ExecutableQty, Triggers;
      ExecuteEffect(Exit(x, env, tr, t), env, Synthetic(x.seqNo), p, t, Some(Why(tr)));
    }
  }

  /** A move against a side leaves no position of that side beyond its liquidation level. */
  lemma {:induction false} SegmentLiquidates(x: Book, env: Env, t: int, cur: real, target: real, long: bool)
    requires AtRest(x) && if long then target <= cur else cur <= target
    ensures var e := Segment(x, env, t, cur, target);
            && AtRest(e) && FewerLevels(x, e)
            && (Has(e, long) && e.liq.Some? ==> Has(x, long) && !Passed(LiqOf(e, long), cur, target))
    decreases Live(x)
  {
    var on := Ahead(x, t, cur, target);
    if cur != target {
      if on == [] {
        if Has(x, long) && x.liq.Some? {
          assert LiqOf(x, long) in Triggers(x, t);
          assert LiqOf(x, long) !in on;
        }
      } else {
        var tr := Best(if target < cur then Highest else Lowest, on);
        assert tr in Triggers(x, t) && tr.up != long;
        LiqWasAhead(x, t, cur, target, tr, long);
        FireShrinks(x, env, tr, tr.level, t);
        AgainstStep(x, env, tr, t, long);
        hide AtRest, Fire, Triggers, StopTriggers;
        SegmentLiquidates(Fire(x, env, tr, tr.level, t), env, t, tr.level, target, long);
      }
    }
  }

  lemma AgainstStep(x: Book, env: Env, tr: Trigger, t: int, long: bool)
    requires AtRest(x) && tr in Triggers(x, t) && tr.up != long
    ensures var f := Fire(x, env, tr, tr.level, t); AtRest(f) && FewerLevels(x, f) && (Has(f, long) ==> Has(x, long))
  {
    FireFollows(x, env, tr, tr.level, t);
    FireLevels(x, env, tr, tr.level, t);
    FireOpensNone(x, env, tr, tr.level, t, long);
    FollowsIsAtRest(x, Fire(x, env, tr, tr.level, t));
    hide AtRest, Fire, Triggers, Follows;
  }

  /** The nearest level ahead fires first, so the liquidation level does not lie before it. */
  lemma LiqWasAhead(x: Book, t: int, cur: real, target: real, tr: Trigger, long: bool)
    requires cur != target && (if long then target <= cur else cur <= target)
    requires var on := Ahead(x, t, cur, target); on != [] && tr == Best(if target < cur then Highest else Lowest, on)
    ensures Has(x, long) && x.liq.Some? && !Passed(LiqOf(x, long), tr.level, target)
            ==> !Passed(LiqOf(x, long), cur, target)
  {
    if Has(x, long) && x.liq.Some? && Passed(LiqOf(x, long), cur, target) {
      assert LiqOf(x, long) in Triggers(x, t);
      assert LiqOf(x, long) in Ahead(x, t, cur, target);
      assert !Better(if target < cur then Highest else Lowest, LiqOf(x, long), tr);
    }
  }

  /** Every live stop that would open or enlarge a position of the side lies at or beyond `edge`. */
  ghost predicate StopsBeyond(x: Book, t: int, long: bool, edge: real) {
    forall d | LiveStop(x, d, t) && x.orders[d].req.side.Long? == long ::
      if long then edge <= x.orders[d].req.stop.value else x.orders[d].req.stop.value <= edge
  }

  lemma BeyondStays(x: Book, y: Book, t: int, long: bool, edge: real)
    requires AtRest(x) && Follows(x, y) && StopsBeyond(x, t, long, edge)
    ensures StopsBeyond(y, t, long, edge)
  {
    forall d | LiveStop(y, d, t) && y.orders[d].req.side.Long? == long
      ensures if long then edge <= y.orders[d].req.stop.value else y.orders[d].req.stop.value <= edge
    {
      StillLive(x, y, d, t);
    }
  }

  /** A move with a side that stays short of all its stops opens no position of that side. */
  lemma {:induction false} SegmentOpensNone(x: Book, env: Env, t: int, cur: real, target: real, long: bool, edge: real)
    requires AtRest(x) && StopsBeyond(x, t, long, edge)
    requires if long then cur <= target < edge else edge < target <= cur
    ensures var e := Segment(x, env, t, cur, target); FewerLevels(x, e) && (Has(e, long) ==> Has(x, long))
    decreases Live(x)
  {
    var on := Ahead(x, t, cur, target);
    if cur != target && on != [] {
      var tr := Best(if target < cur then Highest else Lowest, on);
      StopTriggersIn(x, x.stops, t);
      assert tr in Triggers(x, t) && tr.up == long;
      assert !tr.StopAt? by {
        assert tr.StopAt? ==> LiveStop(x, tr.coid, t);
      }
      FireShrinks(x, env, tr, tr.level, t);
      FireFollows(x, env, tr, tr.level, t);
      FireLevels(x, env, tr, tr.level, t);
      FireOpensNone(x, env, tr, tr.level, t, long);
      var f := Fire(x, env, tr, tr.level, t);
      FollowsIsAtRest(x, f);
      BeyondStays(x, f, t, long, edge);
      hide AtRest, Follows, Fire, Triggers, StopTriggers, StopsBeyond;
      SegmentOpensNone(f, env, t, tr.level, target, long, edge);
    }
  }

  /** After the first two legs, which meet both extremes, every live stop lies at an extreme or beyond. */
  lemma TwoLegsClear(x: Book, env: Env, bar: Bar, low: bool)
    requires AtRest(x) && BarOk(bar)
    ensures var (first, second) := (if low then bar.l else bar.h, if low then bar.h else bar.l);
            var b0 := FireAtOpen(x, env, bar.t, bar.o);
            var b1 := Segment(b0, env, bar.t, bar.o, first);
            var b2 := Segment(b1, env, bar.t, first, second);
            && AtRest(b0) && AtRest(b1) && AtRest(b2)
            && StopsBeyond(b2, bar.t, true, bar.h) && StopsBeyond(b2, bar.t, false, bar.l)
  {
    var (t, o) := (bar.t, bar.o);
    var (first, second) := (if low then bar.l else bar.h, if low then bar.h else bar.l);
    var b0 := FireAtOpen(x, env, t, o);
    var b1 := Segment(b0, env, t, o, first);
    var b2 := Segment(b1, env, t, first, second);
    hide Ok, Grows, Triggers, Follows, FireAtOpen, Segment;
    OpenClears(x, env, t, o, Synthetic(0));
    FollowsIsAtRest(x, b0);
    SegmentClears(b0, env, t, o, first, Synthetic(0));
    FollowsIsAtRest(b0, b1);
    SegmentClears(b1, env, t, first, second, Synthetic(0));
    FollowsIsAtRest(b1, b2);
    forall d | LiveStop(b2, d, t)
      ensures if b2.orders[d].req.side.Long? then bar.h <= b2.orders[d].req.stop.value
              else b2.orders[d].req.stop.value <= bar.l
    {
      OpenClears(x, env, t, o, d);
      SegmentClears(b0, env, t, o, first, d);
      SegmentClears(b1, env, t, first, second, d);
      StillLive(b1, b2, d, t);
      StillLive(b0, b1, d, t);
    }
  }

  /** The liquidation level of a position of this side lies between the close and the extreme on its good side. */
  predicate LiqSkipped(x: Book, bar: Bar, long: bool) {
    Has(x, long) && x.liq.Some? && if long then bar.c < x.liq.value <= bar.h else bar.l <= x.liq.value < bar.c
  }

  lemma WalkSkipsNoLiq(x: Book, env: Env, bar: Bar, long: bool)
    requires AtRest(x) && BarOk(bar)
    ensures !LiqSkipped(Walk(x, env, bar), bar, long)
  {
    if !Reachable(x, bar) {
      if Has(x, long) && x.liq.Some? {
        assert LiqOf(x, long) in Triggers(x, bar.t);
      }
    } else {
      var (t, o) := (bar.t, bar.o);
      var b0 := FireAtOpen(x, env, t, o);
      var low := LowFirst(b0.position, bar);
      var first := if low then bar.l else bar.h;
      TwoLegsClear(x, env, bar, low);
      hide Triggers, FireAtOpen, Ok, StopsBeyond, Reachable, LiqSkipped, Segment;
      LastLeg(Segment(b0, env, t, o, first), env, bar, low, long);
    }
  }

  /** The legs between the extremes and from there to the close. */
  lemma LastLeg(b1: Book, env: Env, bar: Bar, low: bool, long: bool)
    requires AtRest(b1) && BarOk(bar)
    requires var b2 := Segment(b1, env, bar.t, if low then bar.l else bar.h, if low then bar.h else bar.l);
             AtRest(b2) && StopsBeyond(b2, bar.t, true, bar.h) && StopsBeyond(b2, bar.t, false, bar.l)
    ensures var (first, second) := (if low then bar.l else bar.h, if low then bar.h else bar.l);
            !LiqSkipped(Segment(Segment(b1, env, bar.t, first, second), env, bar.t, second, bar.c), bar, long)
  {
    var (first, second) := (if low then bar.l else bar.h, if low then bar.h else bar.l);
    var b2 := Segment(b1, env, bar.t, first, second);
    hide Segment, Ok, StopsBeyond;
    if low == long {
      SegmentLiquidates(b2, env, bar.t, second, bar.c, long);
    } else {
      SegmentLiquidates(b1, env, bar.t, first, second, long);
      if bar.l < bar.c < bar.h {
        SegmentOpensNone(b2, env, bar.t, second, bar.c, long, if long then bar.h else bar.l);
      } else {
        LastLegAtEdge(b2, env, bar, bar.t, second, long);
      }
    }
  }

  /** The close is an extreme: either nothing lies beyond it, or the last leg does not move. */
  lemma LastLegAtEdge(x: Book, env: Env, bar: Bar, t: int, second: real, long: bool)
    requires BarOk(bar) && !(bar.l < bar.c < bar.h) && second == if long then bar.l else bar.h
    requires Has(x, long) && x.liq.Some? ==> !Passed(LiqOf(x, long), if long then bar.h else bar.l, second)
    ensures !LiqSkipped(Segment(x, env, t, second, bar.c), bar, long)
  {
    hide Ahead, Fire;
  }

  /** The walk goes all the way to the close: no position is left beyond its liquidation level at the close of the bar,
      not even one that was only opened on the way. */
  lemma NoLiqSkipped(b: Book, env: Env, bar: Bar, long: bool)
    requires AtRest(b) && Typed(b) && ValidEnv(env) && BarOk(bar) && OnBar(b, env, bar).Some?
    ensures !LiqSkipped(OnBar(b, env, bar).value, bar, long)
  {
    var m, w, e := Stages(b, env, bar);
    hide OnBar, FillMarket, ChargeFunding, Walk, ExpireOrphans;
    WalkSkipsNoLiq(m, env, bar, long);
    ExpireFrame(w);
  }
}
