/** The mutable paper broker for one instrument; each method is proved equal to the function on its state. */
module PaperBroker {
  import opened Base
  import opened Broker
  import Funding

  lemma StopTriggersStep(b: Book, out: seq<Trigger>, stops: seq<Coid>, i: nat, t: int)
    requires i < |stops|
    ensures out + StopTriggers(b, stops[i..], t)
         == (if ActiveStop(b, stops[i], t)
             then out + [StopAt(stops[i], b.orders[stops[i]].req.stop.value, b.orders[stops[i]].req.side.Long?)]
               else out)
            + StopTriggers(b, stops[i + 1..], t)
  {
    assert stops[i..][1..] == stops[i + 1..];
  }

  class Venue {
    const env: Env
    var orders: map<Coid, Order>
    var market: seq<Coid>
    var stops: seq<Coid>
    var position: real
    var lastOpen: Option<int>
    var lastClose: Option<real>
    var tp: Option<real>
    var tpSide: int
    var liq: Option<real>
    var seqNo: nat
    var rate: real
    var charges: seq<Charge>
    var fills: seq<Fill>

    ghost function View(): Book
      reads this
    {
      Book(orders, market, stops, position, lastOpen, lastClose, tp, tpSide, liq, seqNo, rate, charges, fills)
    }

    constructor (env: Env, rate: real)
      ensures this.env == env && View() == EmptyBook(rate)
    {
      this.env := env;
      orders, market, stops, position := map[], [], [], 0.0;
      lastOpen, lastClose, tp, tpSide, liq := None, None, None, 0, None;
      seqNo, this.rate, charges, fills := 0, rate, [], [];
    }

    // -------------------------------------------------------------- calls

    method Submit(req: Request) returns (ack: Ack)
      requires ValidEnv(env)
      modifies this
      ensures (View(), ack) == Broker.Submit(old(View()), env, req)
    {
      if req.coid in orders {
        return Ack(req.coid, Rejected, Some(DuplicateClientId));
      }
      if req.instrument != env.symbol {
        ack := RejectWith(req, VenueError);
        return;
      }
      var qty := FloorQty(req.qty, env.step);
      if qty <= 0.0 {
        ack := RejectWith(req, ZeroQty);
        return;
      }
      if !req.reduceOnly && lastClose.Some? && qty * lastClose.value < env.minNotional {
        ack := RejectWith(req, BelowMinNotional);
        return;
      }
      var stop := req.stop;
      if req.otype.StopMarket? && req.stop.Some? {
        stop := Some(QuantizePrice(req.stop.value, env.tick));
        if stop.value <= 0.0 {
          ack := RejectWith(req, VenueError);
          return;
        }
      }
      seqNo := seqNo + 1;
      orders := orders[req.coid := Order(req.(qty := qty, stop := stop), New, None, 0.0, None, None)];
      if req.otype.Market? {
        market := market + [req.coid];
      } else {
        stops := stops + [req.coid];
      }
      ack := Ack(req.coid, New, None);
    }

    method RejectWith(req: Request, code: RejectCode) returns (ack: Ack)
      modifies this
      ensures (View(), ack) == Reject(old(View()), req, code)
    {
      orders := orders[req.coid := Order(req, Rejected, Some(code), 0.0, None, None)];
      ack := Ack(req.coid, Rejected, Some(code));
    }

    method Mark(c: Coid, status: OrderStatus, code: Option<RejectCode>)
      requires c in orders
      modifies this
      ensures View() == SetStatus(old(View()), c, status, code)
    {
      orders := orders[c := orders[c].(status := status, code := code)];
    }

    method Cancel(c: Coid) returns (done: bool)
      modifies this
      ensures (View(), done) == Broker.Cancel(old(View()), c)
    {
      if c !in orders || !orders[c].status.New? {
        return false;
      }
      Mark(c, Canceled, orders[c].code);
      market := Remove(market, c);
      stops := Remove(stops, c);
      done := true;
    }

    method CancelAll()
      modifies this
      ensures View() == Broker.CancelAll(old(View()))
    {
      var ids := market + stops;
      for i := 0 to |ids|
        invariant CancelEach(View(), ids[i..]) == CancelEach(old(View()), ids)
      {
        var c := ids[i];
        assert ids[i..][0] == c && ids[i..][1..] == ids[i + 1..];
        if c in orders && orders[c].status.New? {
          Mark(c, Canceled, orders[c].code);
        }
      }
      market, stops, tp, tpSide := [], [], None, 0;
    }

    method SetTakeProfit(price: Option<real>, side: Option<Side>)
      requires ValidEnv(env)
      modifies this
      ensures View() == Broker.SetTakeProfit(old(View()), env, price, side)
    {
      tp := if price.None? then None else Some(QuantizePrice(price.value, env.tick));
      tpSide := if side.None? || price.None? then 0 else if side.value.Long? then 1 else -1;
    }

    // -------------------------------------------------------------- execution

    method OnPositionClosed(was: real)
      modifies this
      ensures View() == Broker.OnPositionClosed(old(View()), was)
    {
      var side := if was > 0.0 then Short else Long;
      var todo, keep := stops, [];
      for i := 0 to |todo|
        invariant CancelProtecting(View(), todo[i..], side, keep) == CancelProtecting(old(View()), todo, side, [])
      {
        var c := todo[i];
        assert todo[i..][0] == c && todo[i..][1..] == todo[i + 1..];
        if c in orders && orders[c].status.New? {
          if orders[c].req.reduceOnly && orders[c].req.side == side {
            Mark(c, Canceled, orders[c].code);
          } else {
            keep := keep + [c];
          }
        }
      }
      stops := keep;
      if tpSide == 0 || tpSide == SignOf(was) {
        tp, tpSide := None, 0;
      }
      liq := None;
    }

    method Execute(c: Coid, pRef: real, ts: int, why: Option<ExitReason>)
      requires c in orders
      modifies this
      ensures View() == Broker.Execute(old(View()), env, c, pRef, ts, why)
    {
      var o := orders[c];
      var qty := ExecutableQty(position, o.req);
      if qty <= 0.0 {
        Mark(c, Canceled, Some(ReduceOnly));
        return;
      }
      var was := position;
      var reason := why;
      if why.None? && o.req.otype.StopMarket? && was != 0.0 && SignOf(was) != SignOf(Sgn(o.req.side)) {
        reason := Some(Stop);
      }
      var price := env.quote(|fills|, o.req.side, pRef, qty);
      var fee := Broker.Fee(env, qty * price);
      fills := fills + [Fill(c, o.req.side, qty, pRef, price, fee, ts)];
      orders := orders[c := o.(status := Filled, filledQty := qty, avgPrice := Some(price), reason := reason)];
      position := was + Signed(o.req.side, qty);
      ghost var filled := Fills(old(View()), env, c, pRef, ts, why, qty);
      assert filled.fills[|filled.fills| - 1].fee == fee;
      assert filled.fills == fills && filled.orders == orders && filled.position == position;
      if was != 0.0 && (position == 0.0 || SignOf(position) != SignOf(was)) {
        OnPositionClosed(was);
      }
    }

    method FillMarketOrders(bar: Bar)
      modifies this
      ensures View() == FillMarket(old(View()), env, bar, old(market), [])
    {
      var todo, keep := market, [];
      for i := 0 to |todo|
        invariant FillMarket(View(), env, bar, todo[i..], keep) == FillMarket(old(View()), env, bar, todo, [])
      {
        var c := todo[i];
        assert todo[i..][0] == c && todo[i..][1..] == todo[i + 1..];
        if c in orders && orders[c].status.New? {
          if bar.t < orders[c].req.tsCreated {
            keep := keep + [c];
          } else {
            Execute(c, bar.o, bar.t, None);
          }
        }
      }
      market := keep;
    }

    // -------------------------------------------------------------- triggers

    method StopLevels(t: int) returns (out: seq<Trigger>)
      ensures out == StopTriggers(View(), stops, t)
    {
      out := [];
      for i := 0 to |stops|
        invariant out + StopTriggers(View(), stops[i..], t) == StopTriggers(View(), stops, t)
      {
        var c := stops[i];
        StopTriggersStep(View(), out, stops, i, t);
        if c in orders && orders[c].status.New? && orders[c].req.stop.Some? && orders[c].req.tsCreated <= t {
          out := out + [StopAt(c, orders[c].req.stop.value, orders[c].req.side.Long?)];
        }
      }
    }

    method Triggers(t: int) returns (out: seq<Trigger>)
      ensures out == Broker.Triggers(View(), t)
    {
      out := StopLevels(t);
      if position != 0.0 {
        if tp.Some? && (tpSide == 0 || tpSide == SignOf(position)) {
          out := out + [ProfitAt(tp.value, position > 0.0)];
        }
        if liq.Some? {
          out := out + [LiqAt(liq.value, position < 0.0)];
        }
      }
    }

    method Fire(tr: Trigger, pRef: real, t: int)
      requires tr in Broker.Triggers(View(), t)
      modifies this
      ensures View() == Broker.Fire(old(View()), env, tr, pRef, t)
    {
      if tr.StopAt? {
        StopTriggersIn(View(), stops, t);
        stops := Remove(stops, tr.coid);
        Execute(tr.coid, pRef, t, None);
      } else {
        FireLevel(tr, pRef, t);
      }
    }

    /** Take-profit or liquidation: a synthetic reduce-only order for the whole position. */
    method FireLevel(tr: Trigger, pRef: real, t: int)
      requires !tr.StopAt?
      modifies this
      ensures View() == Broker.Fire(old(View()), env, tr, pRef, t)
    {
      hide Broker.Execute;
      var pos := position;
      if tr.ProfitAt? {
        tp, tpSide := None, 0;
      } else {
        liq := None;
      }
      var id := Synthetic(seqNo);
      var req := Request(id, env.symbol, if pos > 0.0 then Short else Long, StopMarket, Abs(pos), Some(tr.level), true,
        t);
      seqNo := seqNo + 1;
      orders := orders[id := Order(req, New, None, 0.0, None, None)];
      Execute(id, pRef, t, Some(if tr.ProfitAt? then TakeProfit else Liquidation));
    }

    method FireBehindOpen(t: int, o: real)
      modifies this
      ensures View() == FireAtOpen(old(View()), env, t, o)
    {
      var trs := Triggers(t);
      var at := Where(trs, (tr: Trigger) => Behind(tr, o));
      while at != []
        invariant at == AtOpen(View(), t, o)
        invariant FireAtOpen(View(), env, t, o) == FireAtOpen(old(View()), env, t, o)
        decreases Live(View())
      {
        var tr := Best(ByPriority, at);
        FireShrinks(View(), env, tr, o, t);
        Fire(tr, o, t);
        trs := Triggers(t);
        at := Where(trs, (tr: Trigger) => Behind(tr, o));
      }
    }

    method WalkSegment(t: int, a: real, target: real)
      modifies this
      ensures View() == Segment(old(View()), env, t, a, target)
    {
      var cur := a;
      while cur != target
        invariant Segment(View(), env, t, cur, target) == Segment(old(View()), env, t, a, target)
        decreases Live(View())
      {
        var trs := Triggers(t);
        var down := target < cur;
        var on := if down then Where(trs, (tr: Trigger) => !tr.up && target <= tr.level <= cur)
                  else Where(trs, (tr: Trigger) => tr.up && cur <= tr.level <= target);
        assert on == Ahead(View(), t, cur, target);
        if on == [] {
          break;
        }
        var tr := Best(if down then Highest else Lowest, on);
        FireShrinks(View(), env, tr, tr.level, t);
        Fire(tr, tr.level, t);
        cur := tr.level;
      }
    }

    method WalkTriggers(bar: Bar)
      modifies this
      ensures View() == Walk(old(View()), env, bar)
    {
      var trs := Triggers(bar.t);
      var reachable := exists tr | tr in trs :: if tr.up then tr.level <= bar.h else tr.level >= bar.l;
      if !reachable {
        return;
      }
      FireBehindOpen(bar.t, bar.o);
      var low := LowFirst(position, bar);
      var first, second := if low then bar.l else bar.h, if low then bar.h else bar.l;
      WalkSegment(bar.t, bar.o, first);
      WalkSegment(bar.t, first, second);
      WalkSegment(bar.t, second, bar.c);
    }

    method HasEntryOn(side: Side) returns (r: bool)
      ensures r == HasEntry(View(), side)
    {
      r := exists c | c in market + stops ::
             c in orders && orders[c].status.New? && !orders[c].req.reduceOnly && orders[c].req.side == side;
    }

    method ExpireOrphans()
      modifies this
      ensures View() == Broker.ExpireOrphans(old(View()))
    {
      var longEntry := HasEntryOn(Long);
      var shortEntry := HasEntryOn(Short);
      var todo, keep := stops, [];
      for i := 0 to |todo|
        invariant ExpireFrom(View(), todo[i..], longEntry, shortEntry, keep) == Broker.ExpireOrphans(old(View()))
      {
        var c := todo[i];
        assert todo[i..][0] == c && todo[i..][1..] == todo[i + 1..];
        if c in orders && orders[c].status.New? {
          var mayProtect := Opposite(orders[c].req.side);
          if orders[c].req.reduceOnly && SignOf(position) != SignOf(Sgn(mayProtect))
             && !(if mayProtect.Long? then longEntry else shortEntry) {
            Mark(c, Canceled, Some(ReduceOnly));
          } else {
            keep := keep + [c];
          }
        }
      }
      stops := keep;
    }

    method Charge(bar: Bar)
      requires ValidEnv(env)
      modifies this
      ensures View() == ChargeFunding(old(View()), env, bar)
    {
      if position == 0.0 || lastOpen.None? || !env.chargesFunding {
        return;
      }
      var next := Funding.ComputeNextFunding(env.offs, lastOpen.value);
      if bar.t < next {
        return;
      }
      var times := Funding.ComputeFundingTimes(env.offs, lastOpen.value, bar.t);
      for i := 0 to |times|
        invariant ChargeEach(View(), times[i..], bar.t, bar.o) == ChargeEach(old(View()), times, bar.t, bar.o)
      {
        assert times[i..][0] == times[i] && times[i..][1..] == times[i + 1..];
        ghost var b := View();
        var mark := if times[i] == bar.t || lastClose.None? then bar.o else lastClose.value;
        charges := charges + [Broker.Charge.Charge(times[i], position, mark, rate,
          FundingPayment(position, mark, rate))];
        assert View() == b.(charges := b.charges + [ChargeAt(b, times[i], bar.t, bar.o)]);
      }
    }

    /** `ok` is false when the bar does not follow the previous one (the source raises). */
    method OnBar(bar: Bar) returns (ok: bool, out: seq<Fill>)
      requires ValidEnv(env)
      modifies this
      ensures ok == Broker.OnBar(old(View()), env, bar).Some?
      ensures View() == if ok then Broker.OnBar(old(View()), env, bar).value else old(View())
      ensures ok && old(fills) <= fills ==> out == fills[|old(fills)|..]
    {
      if lastOpen.Some? && bar.t <= lastOpen.value {
        return false, [];
      }
      var n := |fills|;
      Charge(bar);
      FillMarketOrders(bar);
      WalkTriggers(bar);
      ExpireOrphans();
      lastClose := Some(bar.c);
      lastOpen := Some(bar.t);
      ok := true;
      out := if n <= |fills| then fills[n..] else [];
    }
  }
}
