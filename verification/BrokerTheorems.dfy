/** What the broker guarantees of a bar: crossed stops do not survive it, reference prices are honest, and reduce-only
    orders only reduce. */
module BrokerTheorems {
  import opened Base
  import opened Broker
  import opened BrokerProofs

  // ---------------------------------------------------------------- crossed stops

  /** An active stop of this bar. */
  ghost predicate LiveStop(b: Book, c: Coid, t: int) {
    c in b.stops && ActiveStop(b, c, t)
  }

  /** Its level lies strictly inside the move from `a` to `z`, reached in the direction that fires it. */
  ghost predicate PassedOver(b: Book, c: Coid, a: real, z: real)
    requires c in b.orders && b.orders[c].req.stop.Some?
  {
    var level := b.orders[c].req.stop.value;
    if b.orders[c].req.side.Short? then z < level <= a else a <= level < z
  }

  lemma StillLive(b: Book, e: Book, c: Coid, t: int)
    requires Follows(b, e) && AtRest(b) && LiveStop(e, c, t)
    ensures LiveStop(b, c, t) && e.orders[c].req == b.orders[c].req
  {
    assert c in b.market + b.stops;
  }

  lemma FireFollows(b: Book, env: Env, tr: Trigger, p: real, t: int)
    requires AtRest(b) && tr in Triggers(b, t)
    ensures Follows(b, Fire(b, env, tr, p, t))
  {
    hide Ok, Grows, Fire, Triggers;
    FireOk(b, env, b.market, tr, p, t);
    FireFrame(b, env, tr, p, t);
  }

  lemma FollowsSelf(b: Book)
    requires AtRest(b)
    ensures Follows(b, b)
  {
    hide Ok;
  }

  lemma LiveStopTriggers(b: Book, c: Coid, t: int)
    requires LiveStop(b, c, t)
    ensures StopAt(c, b.orders[c].req.stop.value, b.orders[c].req.side.Long?) in Triggers(b, t)
  {
    StopTriggersIn(b, b.stops, t);
  }

  /** A segment of the walk leaves no live stop that it passed over. */
  lemma {:induction false} SegmentClears(b: Book, env: Env, t: int, cur: real, target: real, c: Coid)
    requires AtRest(b)
    ensures var e := Segment(b, env, t, cur, target);
            Follows(b, e) && (LiveStop(e, c, t) ==> !PassedOver(e, c, cur, target))
    decreases Live(b)
  {
    hide Ok, Grows, Fire, Triggers, Follows;
    FollowsSelf(b);
    var e := Segment(b, env, t, cur, target);
    if cur != target {
      var on := Ahead(b, t, cur, target);
      if on == [] {
        if LiveStop(b, c, t) {
          LiveStopTriggers(b, c, t);
          NotAhead(b, t, cur, target, c);
        }
      } else {
        var tr := Best(if target < cur then Highest else Lowest, on);
        FireShrinks(b, env, tr, tr.level, t);
        FireFollows(b, env, tr, tr.level, t);
        var f := Fire(b, env, tr, tr.level, t);
        FollowsIsAtRest(b, f);
        SegmentClears(f, env, t, tr.level, target, c);
        FollowsTwice(b, f, e);
        if LiveStop(e, c, t) {
          StillLive(b, e, c, t);
          LiveStopTriggers(b, c, t);
          NearestFirst(b, e, t, cur, target, c, tr);
        }
      }
    }
  }

  lemma FollowsIsAtRest(b: Book, e: Book)
    requires Follows(b, e)
    ensures AtRest(e)
  {
  }

  lemma NotAhead(b: Book, t: int, cur: real, target: real, c: Coid)
    requires LiveStop(b, c, t) && Ahead(b, t, cur, target) == [] && cur != target
    requires StopAt(c, b.orders[c].req.stop.value, b.orders[c].req.side.Long?) in Triggers(b, t)
    ensures !PassedOver(b, c, cur, target)
  {
    var tr := StopAt(c, b.orders[c].req.stop.value, b.orders[c].req.side.Long?);
    assert tr !in Ahead(b, t, cur, target);
  }

  lemma NearestFirst(b: Book, e: Book, t: int, cur: real, target: real, c: Coid, tr: Trigger)
    requires LiveStop(b, c, t) && LiveStop(e, c, t) && e.orders[c].req == b.orders[c].req && cur != target
    requires StopAt(c, b.orders[c].req.stop.value, b.orders[c].req.side.Long?) in Triggers(b, t)
    requires Ahead(b, t, cur, target) != []
             && tr == Best(if target < cur then Highest else Lowest, Ahead(b, t, cur, target))
    requires !PassedOver(e, c, tr.level, target)
    ensures !PassedOver(e, c, cur, target)
  {
    var mine := StopAt(c, b.orders[c].req.stop.value, b.orders[c].req.side.Long?);
    assert PassedOver(e, c, cur, target) ==> mine in Ahead(b, t, cur, target);
    assert mine in Ahead(b, t, cur, target) ==> !Better(if target < cur then Highest else Lowest, mine, tr);
    if PassedOver(e, c, cur, target) {
      assert false;
    }
  }

  /** After the open no live stop is behind the open price. */
  lemma {:induction false} OpenClears(b: Book, env: Env, t: int, o: real, c: Coid)
    requires AtRest(b)
    ensures var e := FireAtOpen(b, env, t, o);
            Follows(b, e) && (LiveStop(e, c, t) ==>
              !Behind(StopAt(c, e.orders[c].req.stop.value, e.orders[c].req.side.Long?), o))
    decreases Live(b)
  {
    hide Ok, Grows, Fire, Triggers, Follows;
    FollowsSelf(b);
    var at := AtOpen(b, t, o);
    if at == [] {
      if LiveStop(b, c, t) {
        LiveStopTriggers(b, c, t);
        assert StopAt(c, b.orders[c].req.stop.value, b.orders[c].req.side.Long?) !in at;
      }
    } else {
      var tr := Best(ByPriority, at);
      FireShrinks(b, env, tr, o, t);
      FireFollows(b, env, tr, o, t);
      var f := Fire(b, env, tr, o, t);
      FollowsIsAtRest(b, f);
      OpenClears(f, env, t, o, c);
      FollowsTwice(b, f, FireAtOpen(f, env, t, o));
    }
  }

  /** A sell stop above the low, or a buy stop below the high. */
  ghost predicate StrictlyCrossed(req: Request, bar: Bar) {
    req.stop.Some? && if req.side.Short? then req.stop.value > bar.l else req.stop.value < bar.h
  }

  lemma WalkClears(b: Book, env: Env, bar: Bar, c: Coid)
    requires AtRest(b) && BarOk(bar)
    ensures var e := Walk(b, env, bar);
            Follows(b, e) && (LiveStop(e, c, bar.t) ==> !StrictlyCrossed(e.orders[c].req, bar))
  {
    hide Ok, Grows, Triggers, Follows, FireAtOpen, Segment;
    FollowsSelf(b);
    var t, o := bar.t, bar.o;
    if !Reachable(b, bar) {
      if LiveStop(b, c, t) {
        LiveStopTriggers(b, c, t);
      }
    } else {
      var b0 := FireAtOpen(b, env, t, o);
      OpenClears(b, env, t, o, c);
      var low := LowFirst(b0.position, bar);
      var first, second := if low then bar.l else bar.h, if low then bar.h else bar.l;
      FollowsIsAtRest(b, b0);
      SegmentClears(b0, env, t, o, first, c);
      var b1 := Segment(b0, env, t, o, first);
      FollowsIsAtRest(b0, b1);
      SegmentClears(b1, env, t, first, second, c);
      var b2 := Segment(b1, env, t, first, second);
      FollowsIsAtRest(b1, b2);
      SegmentClears(b2, env, t, second, bar.c, c);
      var e := Segment(b2, env, t, second, bar.c);
      FollowsTwice(b, b0, b1);
      FollowsTwice(b, b1, b2);
      FollowsTwice(b, b2, e);
      if LiveStop(e, c, t) {
        StillLive(b2, e, c, t);
        StillLive(b1, b2, c, t);
        StillLive(b0, b1, c, t);
      }
    }
  }

  // ---------------------------------------------------------------- stops that are only touched

  /** The bar reaches the level, possibly just with its extreme. */
  ghost predicate Reached(req: Request, bar: Bar) {
    req.stop.Some? && if req.side.Short? then req.stop.value >= bar.l else req.stop.value <= bar.h
  }

  /** No other stop, take-profit or liquidation level sits at the level of stop `c`. */
  ghost predicate Alone(b: Book, c: Coid) {
    && c in b.orders
    && (forall d | d in b.stops && d != c && d in b.orders :: b.orders[d].req.stop != b.orders[c].req.stop)
    && (b.tp.Some? ==> b.tp != b.orders[c].req.stop) && (b.liq.Some? ==> b.liq != b.orders[c].req.stop)
  }

  /** Levels only disappear. */
  ghost predicate FewerLevels(b: Book, e: Book) {
    (e.tp == b.tp || e.tp.None?) && (e.liq == b.liq || e.liq.None?)
  }

  lemma AloneStays(b: Book, e: Book, c: Coid)
    requires AtRest(b) && Follows(b, e) && FewerLevels(b, e) && Alone(b, c)
    ensures Alone(e, c)
  {
    forall d | d in e.stops && d != c && d in e.orders ensures e.orders[d].req.stop != e.orders[c].req.stop {
      assert d in b.stops && d in b.market + b.stops;
      assert d in b.orders;
    }
  }

  lemma ExecuteLevels(b: Book, env: Env, c: Coid, pRef: real, ts: int, why: Option<ExitReason>)
    ensures FewerLevels(b, Execute(b, env, c, pRef, ts, why))
  {
    if c in b.orders {
      var b1 := Fills(b, env, c, pRef, ts, why, ExecutableQty(b.position, b.orders[c].req));
      CancelProtectingShrinks(b1, b1.stops, if b.position > 0.0 then Short else Long, []);
    }
  }

  lemma FireLevels(b: Book, env: Env, tr: Trigger, p: real, t: int)
    ensures FewerLevels(b, Fire(b, env, tr, p, t))
  {
    match tr {
      case StopAt(c, _, _) => ExecuteLevels(b.(stops := Remove(b.stops, c)), env, c, p, t, None);
      case _ =>
        var id := Synthetic(b.seqNo);
        var req := Request(id, env.symbol, if b.position > 0.0 then Short else Long, StopMarket, Abs(b.position),
          Some(tr.level), true, t);
        var b1 := if tr.ProfitAt? then b.(tp := None, tpSide := 0) else b.(liq := None);
        var b2 := b1.(seqNo := b.seqNo + 1, orders := b1.orders[id := Order(req, New, None, 0.0, None, None)]);
        ExecuteLevels(b2, env, id, p, t, Some(if tr.ProfitAt? then TakeProfit else Liquidation));
        hide Execute;
    }
  }

  /** A fired stop is gone. */
  lemma FiredIsGone(b: Book, env: Env, c: Coid, level: real, up: bool, p: real, t: int)
    requires AtRest(b) && StopAt(c, level, up) in Triggers(b, t)
    ensures c !in Fire(b, env, StopAt(c, level, up), p, t).stops
  {
    StopTriggersIn(b, b.stops, t);
    LooseStop(b, b.market, c);
    var b1 := b.(stops := Remove(b.stops, c));
    ExecuteOk(b1, env, b.market, c, p, t, None);
    Apart(b.market, b.stops);
    RemoveIs(b.stops, c);
    hide Ok, Grows, Execute;
  }

  lemma LevelDiffers(b: Book, c: Coid, tr: Trigger, t: int)
    requires Alone(b, c) && LiveStop(b, c, t) && tr in Triggers(b, t) && !(tr.StopAt? && tr.coid == c)
    ensures tr.level != b.orders[c].req.stop.value
  {
    StopTriggersIn(b, b.stops, t);
  }

  /** The move reaches the level in the direction that fires it. */
  ghost predicate Touches(b: Book, c: Coid, a: real, z: real)
    requires c in b.orders && b.orders[c].req.stop.Some?
  {
    var level := b.orders[c].req.stop.value;
    a != z && if b.orders[c].req.side.Short? then z <= level <= a else a <= level <= z
  }

  /** A segment leaves no live stop that it touched, if the stop is alone at its level. */
  lemma {:induction false} SegmentClearsAlone(b: Book, env: Env, t: int, cur: real, target: real, c: Coid)
    requires AtRest(b) && Alone(b, c)
    ensures var e := Segment(b, env, t, cur, target);
            Follows(b, e) && Alone(e, c) && (LiveStop(e, c, t) ==> !Touches(e, c, cur, target))
    decreases Live(b)
  {
    hide Ok, Grows, Fire, Triggers, Follows, Alone;
    FollowsSelf(b);
    var e := Segment(b, env, t, cur, target);
    if cur != target {
      var on := Ahead(b, t, cur, target);
      if on == [] {
        if LiveStop(b, c, t) {
          LiveStopTriggers(b, c, t);
          NotTouched(b, t, cur, target, c);
        }
      } else {
        var tr := Best(if target < cur then Highest else Lowest, on);
        FireShrinks(b, env, tr, tr.level, t);
        FireFollows(b, env, tr, tr.level, t);
        FireLevels(b, env, tr, tr.level, t);
        var f := Fire(b, env, tr, tr.level, t);
        AloneStays(b, f, c);
        FollowsIsAtRest(b, f);
        SegmentClearsAlone(f, env, t, tr.level, target, c);
        FollowsTwice(b, f, e);
        StillThere(b, env, t, cur, target, c, tr, e);
      }
    }
  }

  lemma NotTouched(b: Book, t: int, cur: real, target: real, c: Coid)
    requires LiveStop(b, c, t) && Ahead(b, t, cur, target) == [] && cur != target
    requires StopAt(c, b.orders[c].req.stop.value, b.orders[c].req.side.Long?) in Triggers(b, t)
    ensures !Touches(b, c, cur, target)
  {
    assert StopAt(c, b.orders[c].req.stop.value, b.orders[c].req.side.Long?) !in Ahead(b, t, cur, target);
  }

  lemma StillThere(b: Book, env: Env, t: int, cur: real, target: real, c: Coid, tr: Trigger, e: Book)
    requires AtRest(b) && Alone(b, c) && cur != target && Ahead(b, t, cur, target) != []
    requires tr == Best(if target < cur then Highest else Lowest, Ahead(b, t, cur, target))
    requires Follows(b, e) && Follows(Fire(b, env, tr, tr.level, t), e)
    requires LiveStop(e, c, t) ==> !Touches(e, c, tr.level, target)
    ensures LiveStop(e, c, t) ==> !Touches(e, c, cur, target)
  {
    hide Ok, Grows, Fire, Triggers, Alone;
    if LiveStop(e, c, t) {
      StillLive(b, e, c, t);
      LiveStopTriggers(b, c, t);
      var mine := StopAt(c, b.orders[c].req.stop.value, b.orders[c].req.side.Long?);
      assert tr in Triggers(b, t);
      if tr.StopAt? && tr.coid == c {
        FiredIsGone(b, env, c, tr.level, tr.up, tr.level, t);
        assert false;
      }
      LevelDiffers(b, c, tr, t);
      assert Touches(e, c, cur, target) ==> mine in Ahead(b, t, cur, target);
      assert mine in Ahead(b, t, cur, target) ==> !Better(if target < cur then Highest else Lowest, mine, tr);
    }
  }

  lemma {:induction false} OpenKeepsAlone(b: Book, env: Env, t: int, o: real, c: Coid)
    requires AtRest(b) && Alone(b, c)
    ensures var e := FireAtOpen(b, env, t, o); Follows(b, e) && Alone(e, c)
    decreases Live(b)
  {
    hide Ok, Grows, Fire, Triggers, Follows, Alone;
    FollowsSelf(b);
    var at := AtOpen(b, t, o);
    if at != [] {
      var tr := Best(ByPriority, at);
      FireShrinks(b, env, tr, o, t);
      FireFollows(b, env, tr, o, t);
      FireLevels(b, env, tr, o, t);
      var f := Fire(b, env, tr, o, t);
      AloneStays(b, f, c);
      FollowsIsAtRest(b, f);
      OpenKeepsAlone(f, env, t, o, c);
      FollowsTwice(b, f, FireAtOpen(f, env, t, o));
    }
  }

  lemma WalkClearsAlone(b: Book, env: Env, bar: Bar, c: Coid)
    requires AtRest(b) && BarOk(bar) && Alone(b, c)
    ensures LiveStop(Walk(b, env, bar), c, bar.t) ==> !Reached(Walk(b, env, bar).orders[c].req, bar)
  {
    hide Ok, Grows, Triggers, Follows, FireAtOpen, Segment, Alone;
    var t, o := bar.t, bar.o;
    if !Reachable(b, bar) {
      if LiveStop(b, c, t) {
        LiveStopTriggers(b, c, t);
      }
    } else {
      var b0 := FireAtOpen(b, env, t, o);
      OpenClears(b, env, t, o, c);
      OpenKeepsAlone(b, env, t, o, c);
      var low := LowFirst(b0.position, bar);
      var first, second := if low then bar.l else bar.h, if low then bar.h else bar.l;
      FollowsIsAtRest(b, b0);
      SegmentClearsAlone(b0, env, t, o, first, c);
      var b1 := Segment(b0, env, t, o, first);
      FollowsIsAtRest(b0, b1);
      SegmentClearsAlone(b1, env, t, first, second, c);
      var b2 := Segment(b1, env, t, first, second);
      FollowsIsAtRest(b1, b2);
      SegmentClearsAlone(b2, env, t, second, bar.c, c);
      var e := Segment(b2, env, t, second, bar.c);
      if LiveStop(e, c, t) {
        StillLive(b2, e, c, t);
        StillLive(b1, b2, c, t);
        StillLive(b0, b1, c, t);
      }
    }
  }

  /** What a caller can check before the bar: the level is strictly crossed, or it is reached and the stop is alone
      there. */
  ghost predicate SureToGo(b: Book, c: Coid, bar: Bar)
    requires c in b.orders
  {
    StrictlyCrossed(b.orders[c].req, bar) || (Reached(b.orders[c].req, bar) && Alone(b, c))
  }

  lemma {:induction false} MarketLevels(b: Book, env: Env, bar: Bar, todo: seq<Coid>, keep: seq<Coid>)
    ensures FewerLevels(b, FillMarket(b, env, bar, todo, keep))
    decreases |todo|
  {
    if todo != [] {
      var c, rest := todo[0], todo[1..];
      ExecuteLevels(b, env, c, bar.o, bar.t, None);
      hide Execute;
      if !IsNew(b, c) {
        MarketLevels(b, env, bar, rest, keep);
      } else if bar.t < b.orders[c].req.tsCreated {
        MarketLevels(b, env, bar, rest, keep + [c]);
      } else {
        MarketLevels(Execute(b, env, c, bar.o, bar.t, None), env, bar, rest, keep);
      }
    }
  }

  /** Every active stop that the bar strictly crosses, or reaches while it is alone at its level, is filled or cancelled
      by the end of the bar. */
  lemma CrossedStopsDoNotSurvive(b: Book, env: Env, bar: Bar, c: Coid)
    requires AtRest(b) && ValidEnv(env) && BarOk(bar) && OnBar(b, env, bar).Some?
    requires LiveStop(b, c, bar.t) && SureToGo(b, c, bar)
    ensures var e := OnBar(b, env, bar).value;
            c in e.orders && (e.orders[c].status.Filled? || e.orders[c].status.Canceled?)
  {
    hide Ok, Walk, FillMarket, ExpireOrphans, ChargeFunding, Alone;
    OnBarOk(b, env, bar);
    var b1 := ChargeFunding(b, env, bar);
    ChargeFrame(b, env, bar);
    Unrelated(b, b1, b.market + b.stops, None);
    assert [] + b1.market == b1.market;
    FillMarketOk(b1, env, bar, b1.market, []);
    var b2 := FillMarket(b1, env, bar, b1.market, []);
    if Alone(b, c) {
      SameAlone(b, b1, c);
      MarketLevels(b1, env, bar, b1.market, []);
      AloneStays(b1, b2, c);
      WalkClearsAlone(b2, env, bar, c);
    }
    WalkClears(b2, env, bar, c);
    var b3 := Walk(b2, env, bar);
    ExpireOk(b3);
    var e := OnBar(b, env, bar).value;
    SurvivorIsLive(b, b3, e, bar, c);
  }

  lemma SameAlone(b: Book, e: Book, c: Coid)
    requires Alone(b, c) && e.orders == b.orders && e.stops == b.stops && e.tp == b.tp && e.liq == b.liq
    ensures Alone(e, c)
  {
  }

  lemma SurvivorIsLive(b: Book, b3: Book, e: Book, bar: Bar, c: Coid)
    requires AtRest(b) && AtRest(b3) && Follows(b, e) && LiveStop(b, c, bar.t)
    requires forall x | x in e.stops :: x in b3.stops
    requires Grows(b3, e)
    ensures IsNew(e, c) ==> LiveStop(b3, c, bar.t) && b3.orders[c].req == b.orders[c].req
  {
    if IsNew(e, c) {
      Apart(b.market, b.stops);
      assert c in e.market + e.stops;
      assert c in b3.market + b3.stops;
    }
  }

  // ---------------------------------------------------------------- what a fill says

  /** An order of this side would bring the position `was` closer to zero. */
  predicate Opposes(side: Side, was: real) {
    if side.Long? then was < 0.0 else was > 0.0
  }

  /** The reference price that an order of this kind gets from the bar: the open for a market order; for a stop, a
      take-profit or a liquidation its own level inside the bar, or the open if the bar opens beyond the level. */
  ghost predicate RefOf(o: Order, p: real, bar: Bar) {
    && bar.l <= p <= bar.h
    && (o.req.otype.Market? ==> p == bar.o)
    && (o.req.otype.StopMarket? ==>
          && o.req.stop.Some?
          && (p == o.req.stop.value
              || (p == bar.o && if o.req.side.Long? != (o.reason == Some(TakeProfit)) then o.req.stop.value <= bar.o
                                else bar.o <= o.req.stop.value)))
  }

  /** The quantity executed on the position `was`: all of it, or for a reduce-only order what there is to reduce. */
  ghost predicate QtyOf(req: Request, qty: real, was: real) {
    qty > 0.0 && if req.reduceOnly then Opposes(req.side, was) && qty == Min(req.qty, Abs(was)) else qty == req.qty
  }

  /** Why a client's order closed something: only a stop has a reason, and only if it opposed the position. */
  ghost predicate ReasonOf(c: Coid, o: Order, was: real) {
    if c.Synthetic? then o.reason == Some(TakeProfit) || o.reason == Some(Liquidation)
    else o.reason == if o.req.otype.StopMarket? && Opposes(o.req.side, was) then Some(Stop) else None
  }

  /** Fill number `i` is the execution of its order in this bar, at the quoted price and with the fee on its
      notional. */
  ghost predicate TrueFill(b: Book, env: Env, i: nat, bar: Bar)
    requires i < |b.fills|
  {
    var f := b.fills[i];
    && f.coid in b.orders
    && f.ts == bar.t && f.side == b.orders[f.coid].req.side
    && QtyOf(b.orders[f.coid].req, f.qty, Net(b.fills[..i])) && RefOf(b.orders[f.coid], f.pRef, bar)
    && ReasonOf(f.coid, b.orders[f.coid], Net(b.fills[..i]))
    && f.price == env.quote(i, f.side, f.pRef, f.qty) && f.fee == Abs(f.qty * f.price) * env.feeRate
    && b.orders[f.coid].status.Filled? && b.orders[f.coid].filledQty == f.qty
         && b.orders[f.coid].avgPrice == Some(f.price)
  }

  ghost predicate TrueSince(n: nat, b: Book, env: Env, bar: Bar) {
    n <= |b.fills| && forall i | n <= i < |b.fills| :: TrueFill(b, env, i, bar)
  }

  /** Clients' market orders sit in the market queue and their stops in the other, each with a quantity. */
  ghost predicate Typed(b: Book) {
    && (forall c | c in b.market ::
          c.Client? && c in b.orders && b.orders[c].req.otype.Market? && b.orders[c].req.qty > 0.0)
    && (forall c | c in b.stops ::
          c.Client? && c in b.orders && b.orders[c].req.otype.StopMarket? && b.orders[c].req.qty > 0.0)
  }

  /** The fill of an order that executes. */
  lemma FillsTrue(b: Book, env: Env, c: Coid, pRef: real, bar: Bar, why: Option<ExitReason>, qty: real)
    requires c in b.orders && b.position == Net(b.fills) && QtyOf(b.orders[c].req, qty, b.position)
    requires RefOf(b.orders[c].(reason := if why.None? then Some(Stop) else why), pRef, bar)
    requires if c.Synthetic? then why == Some(TakeProfit) || why == Some(Liquidation) else why.None?
    ensures var e := Fills(b, env, c, pRef, bar.t, why, qty);
            |e.fills| == |b.fills| + 1 && e.fills[..|b.fills|] == b.fills && TrueFill(e, env, |b.fills|, bar)
  {
    var e := Fills(b, env, c, pRef, bar.t, why, qty);
    assert e.fills[..|b.fills|] == b.fills;
    assert e.fills[|b.fills|] == e.fills[|e.fills| - 1];
  }

  lemma SameTrue(b: Book, e: Book, env: Env, i: nat, bar: Bar)
    requires i < |b.fills| && TrueFill(b, env, i, bar) && e.fills == b.fills
    requires b.fills[i].coid in e.orders && e.orders[b.fills[i].coid] == b.orders[b.fills[i].coid]
    ensures TrueFill(e, env, i, bar)
  {
    hide QtyOf, RefOf, ReasonOf, Net;
  }

  /** Executing an order adds at most one fill, of that order, at the given reference price. */
  lemma ExecuteFill(b: Book, env: Env, c: Coid, pRef: real, bar: Bar, why: Option<ExitReason>)
    requires c in b.orders && b.position == Net(b.fills)
    requires RefOf(b.orders[c].(reason := if why.None? then Some(Stop) else why), pRef, bar)
    requires if c.Synthetic? then why == Some(TakeProfit) || why == Some(Liquidation) else why.None?
    ensures var e := Execute(b, env, c, pRef, bar.t, why);
            e.fills == b.fills || (|e.fills| == |b.fills| + 1 && e.fills[..|b.fills|] == b.fills
                                   && TrueFill(e, env, |b.fills|, bar))
  {
    var qty := ExecutableQty(b.position, b.orders[c].req);
    if qty > 0.0 {
      FillsTrue(b, env, c, pRef, bar, why, qty);
      var b1 := Fills(b, env, c, pRef, bar.t, why, qty);
      assert b1.fills[|b.fills|].coid == c && b1.orders[c].status.Filled?;
      hide Fills, TrueFill, RefOf, Net;
      var side := if b.position > 0.0 then Short else Long;
      CancelProtectingShrinks(b1, b1.stops, side, []);
      CancelProtectingFilled(b1, b1.stops, side, [], c);
      SameTrue(b1, Execute(b, env, c, pRef, bar.t, why), env, |b.fills|, bar);
    }
  }

  lemma {:induction false} CancelProtectingFilled(b: Book, todo: seq<Coid>, side: Side, keep: seq<Coid>, c: Coid)
    requires c in b.orders && !b.orders[c].status.New?
    ensures var e := CancelProtecting(b, todo, side, keep); c in e.orders && e.orders[c] == b.orders[c]
    decreases |todo|
  {
    if todo != [] {
      var d := todo[0];
      if !IsNew(b, d) {
        CancelProtectingFilled(b, todo[1..], side, keep, c);
      } else if b.orders[d].req.reduceOnly && b.orders[d].req.side == side {
        CancelProtectingFilled(SetStatus(b, d, Canceled, b.orders[d].code), todo[1..], side, keep, c);
      } else {
        CancelProtectingFilled(b, todo[1..], side, keep + [d], c);
      }
    }
  }

  lemma TrueStep(n: nat, b: Book, e: Book, env: Env, bar: Bar)
    requires TrueSince(n, b, env, bar) && Grows(b, e) && FillsOk(b)
    requires e.fills == b.fills
             || (|e.fills| == |b.fills| + 1 && e.fills[..|b.fills|] == b.fills && TrueFill(e, env, |b.fills|, bar))
    ensures TrueSince(n, e, env, bar)
  {
    hide TrueFill;
    forall i | n <= i < |e.fills| ensures TrueFill(e, env, i, bar) {
      if i < |b.fills| {
        TrueStays(b, e, env, i, bar);
      }
    }
  }

  lemma TrueStays(b: Book, e: Book, env: Env, i: nat, bar: Bar)
    requires i < |b.fills| && TrueFill(b, env, i, bar) && Grows(b, e)
    ensures TrueFill(e, env, i, bar)
  {
    assert e.fills[i] == b.fills[i] && e.fills[..i] == b.fills[..i];
    hide QtyOf, RefOf, ReasonOf, Net;
  }

  lemma FireTrue(n: nat, b: Book, env: Env, tr: Trigger, p: real, bar: Bar)
    requires AtRest(b) && Typed(b) && TrueSince(n, b, env, bar) && BarOk(bar)
    requires tr in Triggers(b, bar.t) && FiresAt(tr, p, bar)
    ensures TrueSince(n, Fire(b, env, tr, p, bar.t), env, bar)
  {
    FireOk(b, env, b.market, tr, p, bar.t);
    FireRef(b, env, tr, p, bar);
    hide Fire, Triggers, Queued, Grows, TrueFill;
    TrueStep(n, b, Fire(b, env, tr, p, bar.t), env, bar);
  }

  /** A firing adds at most one fill, as the trigger says. */
  lemma FireRef(b: Book, env: Env, tr: Trigger, p: real, bar: Bar)
    requires BarOk(bar) && Typed(b) && FillsOk(b) && tr in Triggers(b, bar.t) && FiresAt(tr, p, bar)
    ensures var e := Fire(b, env, tr, p, bar.t);
            e.fills == b.fills
            || (|e.fills| == |b.fills| + 1 && e.fills[..|b.fills|] == b.fills && TrueFill(e, env, |b.fills|, bar))
  {
    StopTriggersIn(b, b.stops, bar.t);
    hide Execute, TrueFill;
    match tr {
      case StopAt(c, _, _) =>
        ExecuteFill(b.(stops := Remove(b.stops, c)), env, c, p, bar, None);
      case _ =>
        var id := Synthetic(b.seqNo);
        var req := Request(id, env.symbol, if b.position > 0.0 then Short else Long, StopMarket, Abs(b.position),
          Some(tr.level), true, bar.t);
        var b1 := if tr.ProfitAt? then b.(tp := None, tpSide := 0) else b.(liq := None);
        var b2 := b1.(seqNo := b.seqNo + 1, orders := b1.orders[id := Order(req, New, None, 0.0, None, None)]);
        ExecuteFill(b2, env, id, p, bar, Some(if tr.ProfitAt? then TakeProfit else Liquidation));
    }
  }

  lemma FireTyped(b: Book, env: Env, tr: Trigger, p: real, t: int)
    requires AtRest(b) && Typed(b) && tr in Triggers(b, t)
    ensures Typed(Fire(b, env, tr, p, t))
  {
    FireFollows(b, env, tr, p, t);
    hide Fire, Triggers;
  }

  lemma WalkTrue(n: nat, b: Book, env: Env, bar: Bar)
    requires AtRest(b) && Typed(b) && TrueSince(n, b, env, bar) && BarOk(bar)
    ensures TrueSince(n, Walk(b, env, bar), env, bar) && Typed(Walk(b, env, bar))
  {
    var J := (x: Book) => AtRest(x) && Typed(x) && TrueSince(n, x, env, bar);
    forall x, tr, p | J(x) && tr in Triggers(x, bar.t) && FiresAt(tr, p, bar) ensures J(Fire(x, env, tr, p, bar.t)) {
      hide AtRest, TrueSince, Fire, Triggers, Follows, Typed;
      FireFollows(x, env, tr, p, bar.t);
      FollowsIsAtRest(x, Fire(x, env, tr, p, bar.t));
      FireTyped(x, env, tr, p, bar.t);
      FireTrue(n, x, env, tr, p, bar);
    }
    WalkKeeps(J, b, env, bar);
  }

  lemma {:induction false} MarketTrue(n: nat, b: Book, env: Env, bar: Bar, todo: seq<Coid>, keep: seq<Coid>)
    requires Ok(b, keep + todo + b.stops, None) && TrueSince(n, b, env, bar) && BarOk(bar)
    requires forall c | c in todo :: c in b.orders && b.orders[c].req.otype.Market? && c.Client?
    ensures TrueSince(n, FillMarket(b, env, bar, todo, keep), env, bar)
    decreases |todo|
  {
    if todo == [] {
      TrueStep(n, b, b.(market := keep), env, bar);
    } else {
      var (c, rest) := (todo[0], todo[1..]);
      assert c in todo;
      assert keep + todo + b.stops == [] + (keep + ([c] + (rest + b.stops)));
      HeadNew(b, [], keep, c, rest + b.stops);
      if bar.t < b.orders[c].req.tsCreated {
        assert (keep + [c]) + rest + b.stops == keep + todo + b.stops;
        MarketTrue(n, b, env, bar, rest, keep + [c]);
      } else {
        TakeLoose(b, keep + todo + b.stops, c);
        assert [] + (keep + (rest + b.stops)) == keep + rest + b.stops;
        ExecuteOk(b, env, keep + rest, c, bar.o, bar.t, None);
        ExecuteFill(b, env, c, bar.o, bar, None);
        var e := Execute(b, env, c, bar.o, bar.t, None);
        hide Execute, TrueFill;
        TrueStep(n, b, e, env, bar);
        MarketTrue(n, e, env, bar, rest, keep);
      }
    }
  }

  /** Every fill of a bar is true to its order, to the bar and to the cost model; in particular a market order executes
      at the open, and a stop at its level or, if the bar opens beyond it, at the open. */
  lemma BarFillsHonest(b: Book, env: Env, bar: Bar)
    requires AtRest(b) && Typed(b) && ValidEnv(env) && BarOk(bar) && OnBar(b, env, bar).Some?
    ensures TrueSince(|b.fills|, OnBar(b, env, bar).value, env, bar)
  {
    hide Ok, Walk, FillMarket, ExpireOrphans, ChargeFunding, Grows;
    var b1 := ChargeFunding(b, env, bar);
    ChargeFrame(b, env, bar);
    Unrelated(b, b1, b.market + b.stops, None);
    assert [] + b1.market == b1.market;
    MarketTrue(|b.fills|, b1, env, bar, b1.market, []);
    FillMarketOk(b1, env, bar, b1.market, []);
    var b2 := FillMarket(b1, env, bar, b1.market, []);
    FollowsTyped(b1, b2);
    WalkTrue(|b.fills|, b2, env, bar);
    WalkOk(b2, env, bar);
    var b3 := Walk(b2, env, bar);
    ExpireOk(b3);
    var b4 := ExpireOrphans(b3);
    RestFills(b3);
    TrueStep(|b.fills|, b3, b4, env, bar);
    SameSince(|b.fills|, b4, OnBar(b, env, bar).value, env, bar);
  }

  lemma SameSince(n: nat, b: Book, e: Book, env: Env, bar: Bar)
    requires TrueSince(n, b, env, bar) && e.orders == b.orders && e.fills == b.fills
    ensures TrueSince(n, e, env, bar)
  {
    forall i | n <= i < |e.fills| ensures TrueFill(e, env, i, bar) {
      assert TrueFill(b, env, i, bar);
    }
  }

  lemma FollowsTyped(b: Book, e: Book)
    requires Follows(b, e) && Typed(b)
    ensures Typed(e)
  {
  }

  lemma RestFills(b: Book)
    requires AtRest(b)
    ensures FillsOk(b)
  {
  }

  // ---------------------------------------------------------------- reduce-only

  /** Toward zero and never across it. */
  predicate Reduces(p: real, q: real) {
    Abs(q) <= Abs(p) && (q == 0.0 || SignOf(q) == SignOf(p))
  }

  ghost predicate AllReduceOnly(b: Book) {
    forall c | IsNew(b, c) :: b.orders[c].req.reduceOnly
  }

  lemma {:induction false} CancelProtectingNew(b: Book, todo: seq<Coid>, side: Side, keep: seq<Coid>)
    ensures var e := CancelProtecting(b, todo, side, keep);
            forall c | IsNew(e, c) :: IsNew(b, c) && e.orders[c] == b.orders[c]
    decreases |todo|
  {
    if todo != [] {
      var c := todo[0];
      if !IsNew(b, c) {
        CancelProtectingNew(b, todo[1..], side, keep);
      } else if b.orders[c].req.reduceOnly && b.orders[c].req.side == side {
        CancelProtectingNew(SetStatus(b, c, Canceled, b.orders[c].code), todo[1..], side, keep);
      } else {
        CancelProtectingNew(b, todo[1..], side, keep + [c]);
      }
    }
  }

  lemma ExecuteReduces(b: Book, env: Env, c: Coid, pRef: real, ts: int, why: Option<ExitReason>)
    requires AllReduceOnly(b) && IsNew(b, c)
    ensures var e := Execute(b, env, c, pRef, ts, why); AllReduceOnly(e) && Reduces(b.position, e.position)
  {
    var qty := ExecutableQty(b.position, b.orders[c].req);
    if qty > 0.0 {
      var b1 := Fills(b, env, c, pRef, ts, why, qty);
      var side := if b.position > 0.0 then Short else Long;
      CancelProtectingNew(b1, b1.stops, side, []);
      CancelProtectingShrinks(b1, b1.stops, side, []);
    }
  }

  lemma ReducesTwice(p: real, q: real, r: real)
    requires Reduces(p, q) && Reduces(q, r)
    ensures Reduces(p, r)
  {
  }

  /** From fill number `k` on, every further fill only brings the position closer to zero, never across it. */
  ghost predicate Shrinks(k: nat, x: Book) {
    && k <= |x.fills| && x.position == Net(x.fills)
    && forall n, m | k <= n <= m <= |x.fills| :: Reduces(Net(x.fills[..n]), Net(x.fills[..m]))
  }

  lemma ShrinksNow(x: Book)
    requires x.position == Net(x.fills)
    ensures Shrinks(|x.fills|, x)
  {
    assert x.fills[..|x.fills|] == x.fills;
  }

  lemma ShrinksMeans(k: nat, b: Book, e: Book)
    requires Shrinks(k, e) && k == |b.fills| && b.fills <= e.fills && b.position == Net(b.fills)
    ensures Reduces(b.position, e.position)
  {
    assert e.fills[..k] == b.fills && e.fills[..|e.fills|] == e.fills;
  }

  lemma ShrinksStep(k: nat, x: Book, y: Book)
    requires Shrinks(k, x) && y.position == Net(y.fills) && Reduces(x.position, y.position)
    requires y.fills == x.fills || (|y.fills| == |x.fills| + 1 && y.fills[..|x.fills|] == x.fills)
    ensures Shrinks(k, y)
  {
    forall n, m | k <= n <= m <= |y.fills| ensures Reduces(Net(y.fills[..n]), Net(y.fills[..m])) {
      assert x.fills[..|x.fills|] == x.fills && y.fills[..|y.fills|] == y.fills;
      if m <= |x.fills| {
        assert y.fills[..n] == x.fills[..n] && y.fills[..m] == x.fills[..m];
      } else if n <= |x.fills| {
        assert y.fills[..n] == x.fills[..n];
        ReducesTwice(Net(x.fills[..n]), x.position, y.position);
      }
    }
  }

  /** One execution adds at most one fill and moves the position by it. */
  lemma ExecuteNet(b: Book, env: Env, c: Coid, pRef: real, ts: int, why: Option<ExitReason>)
    requires b.position == Net(b.fills)
    ensures var e := Execute(b, env, c, pRef, ts, why);
            && e.position == Net(e.fills)
            && (e.fills == b.fills || (|e.fills| == |b.fills| + 1 && e.fills[..|b.fills|] == b.fills))
  {
    if c in b.orders {
      var b1 := Fills(b, env, c, pRef, ts, why, ExecutableQty(b.position, b.orders[c].req));
      CancelProtectingShrinks(b1, b1.stops, if b.position > 0.0 then Short else Long, []);
      assert b1.fills[..|b.fills|] == b.fills;
    }
  }

  lemma ExecuteOnlyShrinks(k: nat, b: Book, env: Env, c: Coid, pRef: real, ts: int, why: Option<ExitReason>)
    requires AllReduceOnly(b) && IsNew(b, c) && Shrinks(k, b)
    ensures var e := Execute(b, env, c, pRef, ts, why); AllReduceOnly(e) && Shrinks(k, e)
  {
    hide Execute, AllReduceOnly;
    ExecuteReduces(b, env, c, pRef, ts, why);
    ExecuteNet(b, env, c, pRef, ts, why);
    ShrinksStep(k, b, Execute(b, env, c, pRef, ts, why));
  }

  lemma FireOnlyShrinks(k: nat, b: Book, env: Env, tr: Trigger, p: real, t: int)
    requires AtRest(b) && AllReduceOnly(b) && Shrinks(k, b) && tr in Triggers(b, t)
    ensures AllReduceOnly(Fire(b, env, tr, p, t)) && Shrinks(k, Fire(b, env, tr, p, t))
  {
    StopTriggersIn(b, b.stops, t);
    hide Execute, Net, Reduces;
    match tr {
      case StopAt(c, _, _) =>
        ExecuteOnlyShrinks(k, b.(stops := Remove(b.stops, c)), env, c, p, t, None);
      case _ =>
        var id := Synthetic(b.seqNo);
        var req := Request(id, env.symbol, if b.position > 0.0 then Short else Long, StopMarket, Abs(b.position),
          Some(tr.level), true, t);
        var b1 := if tr.ProfitAt? then b.(tp := None, tpSide := 0) else b.(liq := None);
        var b2 := b1.(seqNo := b.seqNo + 1, orders := b1.orders[id := Order(req, New, None, 0.0, None, None)]);
        ExecuteOnlyShrinks(k, b2, env, id, p, t, Some(if tr.ProfitAt? then TakeProfit else Liquidation));
    }
  }

  lemma WalkOnlyShrinks(k: nat, b: Book, env: Env, bar: Bar)
    requires AtRest(b) && AllReduceOnly(b) && Shrinks(k, b) && BarOk(bar)
    ensures Shrinks(k, Walk(b, env, bar))
  {
    var J := (x: Book) => AtRest(x) && AllReduceOnly(x) && Shrinks(k, x);
    forall x, tr, p | J(x) && tr in Triggers(x, bar.t) && FiresAt(tr, p, bar) ensures J(Fire(x, env, tr, p, bar.t)) {
      hide AtRest, AllReduceOnly, Fire, Triggers, Follows, Shrinks;
      FireFollows(x, env, tr, p, bar.t);
      FollowsIsAtRest(x, Fire(x, env, tr, p, bar.t));
      FireOnlyShrinks(k, x, env, tr, p, bar.t);
    }
    WalkKeeps(J, b, env, bar);
  }

  lemma {:induction false} MarketOnlyShrinks(k: nat, b: Book, env: Env, bar: Bar, todo: seq<Coid>, keep: seq<Coid>)
    requires AllReduceOnly(b) && Shrinks(k, b)
    ensures var e := FillMarket(b, env, bar, todo, keep); AllReduceOnly(e) && Shrinks(k, e)
    decreases |todo|
  {
    if todo != [] {
      var c, rest := todo[0], todo[1..];
      hide Execute, Shrinks;
      if !IsNew(b, c) {
        MarketOnlyShrinks(k, b, env, bar, rest, keep);
      } else if bar.t < b.orders[c].req.tsCreated {
        MarketOnlyShrinks(k, b, env, bar, rest, keep + [c]);
      } else {
        ExecuteOnlyShrinks(k, b, env, c, bar.o, bar.t, None);
        MarketOnlyShrinks(k, Execute(b, env, c, bar.o, bar.t, None), env, bar, rest, keep);
      }
    }
  }

  lemma SameFills(k: nat, x: Book, y: Book)
    requires Shrinks(k, x) && y.fills == x.fills && y.position == x.position
    ensures Shrinks(k, y)
  {
  }

  /** If only reduce-only orders are pending, no fill of a bar enlarges the position or turns it round, whatever the
      bar, the stops, the take-profit and the liquidation level. */
  lemma BarOnlyReduces(b: Book, env: Env, bar: Bar)
    requires AtRest(b) && AllReduceOnly(b) && ValidEnv(env) && BarOk(bar) && OnBar(b, env, bar).Some?
    ensures Shrinks(|b.fills|, OnBar(b, env, bar).value) && Reduces(b.position, OnBar(b, env, bar).value.position)
  {
    var k := |b.fills|;
    RestNet(b);
    hide Ok, Walk, FillMarket, ExpireOrphans, ChargeFunding, Grows, Shrinks, Reduces, Net;
    ShrinksNow(b);
    var b1 := ChargeFunding(b, env, bar);
    ChargeFrame(b, env, bar);
    SameFills(k, b, b1);
    Unrelated(b, b1, b.market + b.stops, None);
    assert [] + b1.market == b1.market;
    FillMarketOk(b1, env, bar, b1.market, []);
    MarketOnlyShrinks(k, b1, env, bar, b1.market, []);
    var b2 := FillMarket(b1, env, bar, b1.market, []);
    WalkOnlyShrinks(k, b2, env, bar);
    WalkOk(b2, env, bar);
    ExpireOk(Walk(b2, env, bar));
    var e := OnBar(b, env, bar).value;
    SameFills(k, Walk(b2, env, bar), e);
    OnBarOk(b, env, bar);
    GrowsFills(b, e);
    ShrinksMeans(k, b, e);
  }

  lemma RestNet(b: Book)
    requires AtRest(b)
    ensures b.position == Net(b.fills)
  {
  }

  lemma GrowsFills(b: Book, e: Book)
    requires Grows(b, e)
    ensures b.fills <= e.fills
  {
  }
}
