/** The broker over any sequence of calls: each order is executed at most once, and what is final stays final. */
module BrokerRuns {
  import opened Base
  import opened Broker
  import opened BrokerProofs
  import opened BrokerTheorems

  // ---------------------------------------------------------------- calls

  lemma {:induction false} CancelEachOk(b: Book, ids: seq<Coid>)
    requires Ok(b, ids, None)
    ensures var e := CancelEach(b, ids);
            Ok(e, [], None) && Grows(b, e) && e == b.(orders := e.orders)
    decreases |ids|
  {
    if ids != [] {
      hide Ok, Grows;
      var c, rest := ids[0], ids[1..];
      assert ids == [] + ([] + ([c] + rest));
      HeadNew(b, [], [], c, rest);
      assert [] + ([] + rest) == rest;
      CancelOne(b, ids, None, c, b.orders[c].code);
      var e := SetStatus(b, c, Canceled, b.orders[c].code);
      CancelEachOk(e, rest);
      GrowsTwice(b, e, CancelEach(e, rest));
    }
  }

  lemma AppendId(b: Book, e: Book, s: seq<Coid>, t: seq<Coid>, c: Coid)
    requires Ok(b, s + t, Some(c)) && e.orders == b.orders && e.fills == b.fills && e.position == b.position
             && e.seqNo == b.seqNo
    ensures Ok(e, (s + [c]) + t, None) && Ok(e, s + (t + [c]), None)
  {
    Unrelated(b, e, s + t, Some(c));
    var ids, a, z := s + t, (s + [c]) + t, s + (t + [c]);
    forall i, j | 0 <= i < j < |a| ensures a[i] != a[j] {
      assert a[i] == if i < |s| then ids[i] else if i == |s| then c else ids[i - 1];
      assert a[j] == if j < |s| then ids[j] else if j == |s| then c else ids[j - 1];
    }
    forall i, j | 0 <= i < j < |z| ensures z[i] != z[j] {
      assert z[i] == ids[i];
      assert j < |ids| ==> z[j] == ids[j];
    }
    assert forall x :: x in a <==> x in ids || x == c;
    assert forall x :: x in z <==> x in ids || x == c;
  }

  /** The three outcomes of a submission: a known id, a rejection on record, one queued NEW order. */
  lemma SubmitShape(b: Book, env: Env, req: Request)
    requires ValidEnv(env)
    ensures var (e, ack) := Submit(b, env, req);
            if req.coid in b.orders then e == b && ack == Ack(req.coid, Rejected, Some(DuplicateClientId))
            else
              && req.coid in e.orders && ack.status == e.orders[req.coid].status
              && if ack.status.New? then
                   var r := e.orders[req.coid].req;
                   && r == req.(qty := r.qty, stop := r.stop) && r.qty > 0.0
                   && e == b.(seqNo := b.seqNo + 1, orders :=
                        b.orders[req.coid := Order(r, New, None, 0.0, None, None)],
                              market := if req.otype.Market? then b.market + [req.coid] else b.market,
                              stops := if req.otype.Market? then b.stops else b.stops + [req.coid])
                 else ack.status.Rejected? && e == b.(orders := b.orders[req.coid := e.orders[req.coid]])
  {
    hide FloorQty, QuantizePrice;
  }

  lemma RejectedOk(b: Book, e: Book, c: Coid)
    requires AtRest(b) && Typed(b) && c !in b.orders && c.Client?
    requires c in e.orders && e.orders[c].status.Rejected? && e == b.(orders := b.orders[c := e.orders[c]])
    ensures AtRest(e) && Typed(e) && Grows(b, e)
  {
    assert forall x | x in b.market + b.stops :: IsNew(b, x);
    assert forall x | x in b.market || x in b.stops :: x in b.market + b.stops;
  }

  lemma AcceptedOk(b: Book, e: Book, r: Request)
    requires AtRest(b) && Typed(b) && r.coid !in b.orders && r.coid.Client? && r.qty > 0.0
    requires e == b.(seqNo := b.seqNo + 1, orders := b.orders[r.coid := Order(r, New, None, 0.0, None, None)],
                     market := if r.otype.Market? then b.market + [r.coid] else b.market,
                     stops := if r.otype.Market? then b.stops else b.stops + [r.coid])
    ensures AtRest(e) && Typed(e) && Grows(b, e)
  {
    var b1 := b.(orders := e.orders, seqNo := e.seqNo);
    FreshOrder(b, b1, b.market + b.stops, r);
    hide Ok, Grows;
    AppendId(b1, e, b.market, b.stops, r.coid);
    SameOrders(b, b1, e);
  }

  lemma SameOrders(b: Book, b1: Book, e: Book)
    requires Grows(b, b1) && e.orders == b1.orders && e.fills == b1.fills
    ensures Grows(b, e)
  {
  }

  /** A submission creates at most one order; a known id changes nothing; nothing executes. */
  lemma SubmitOk(b: Book, env: Env, req: Request)
    requires AtRest(b) && Typed(b) && ValidEnv(env) && req.coid.Client?
    ensures var (e, ack) := Submit(b, env, req);
            && AtRest(e) && Typed(e) && Grows(b, e) && e.position == b.position && e.fills == b.fills
            && (req.coid in b.orders ==> e == b && ack == Ack(req.coid, Rejected, Some(DuplicateClientId)))
            && (ack.status.New? <==> req.coid !in b.orders && IsNew(e, req.coid))
            && (forall c | c in e.orders :: c in b.orders || c == req.coid)
            && (ack.status.New? ==>
                  e.orders[req.coid].req.reduceOnly == req.reduceOnly && e.orders[req.coid].req.otype == req.otype)
  {
    var (e, ack) := Submit(b, env, req);
    SubmitShape(b, env, req);
    hide Submit, AtRest, Grows, Typed;
    if req.coid in b.orders {
      SelfGrows(b);
    } else if ack.status.New? {
      AcceptedOk(b, e, e.orders[req.coid].req);
    } else {
      RejectedOk(b, e, req.coid);
    }
  }

  // ---------------------------------------------------------------- quantisation and rejections

  function Units(n: int, unit: real): real {
    n as real * unit
  }

  /** `q` is the greatest multiple of the step that is at most `x`. */
  ghost predicate FloorOf(q: real, x: real, step: real) {
    q <= x < q + step && exists n :: q == Units(n, step)
  }

  /** `s` is the multiple of the tick nearest to `x`, the even one of two. */
  ghost predicate NearestTo(s: real, x: real, tick: real) {
    exists n :: s == Units(n, tick) && 2.0 * Abs(x - s) <= tick && (2.0 * Abs(x - s) == tick ==> n % 2 == 0)
  }

  lemma Monotone(a: real, b: real, k: real)
    requires k > 0.0
    ensures a <= b ==> a * k <= b * k
    ensures a < b ==> a * k < b * k
  {
    if a <= b { assert (b - a) * k >= 0.0; }
    if a < b { assert (b - a) * k > 0.0; }
  }

  lemma FloorQtyIs(x: real, step: real)
    requires step > 0.0
    ensures FloorOf(FloorQty(x, step), x, step)
  {
    var (y, n) := (x / step, (x / step).Floor);
    Divided(x, step);
    FloorBetween(y, n, step);
    assert FloorQty(x, step) == Units(n, step);
  }

  lemma FloorBetween(y: real, n: int, step: real)
    requires step > 0.0 && n as real <= y < n as real + 1.0
    ensures Units(n, step) <= y * step < Units(n, step) + step
  {
    var rest := y - n as real;
    assert y * step == Units(n, step) + rest * step;
    Monotone(0.0, rest, step);
    Monotone(rest, 1.0, step);
  }

  lemma Divided(x: real, unit: real)
    requires unit > 0.0
    ensures x / unit * unit == x
  {
  }

  lemma HalfEvenIs(y: real)
    ensures var n := HalfEven(y); 2.0 * Abs(y - n as real) <= 1.0 && (2.0 * Abs(y - n as real) == 1.0 ==> n % 2 == 0)
  {
  }

  lemma ScaledGap(y: real, n: int, tick: real)
    requires tick > 0.0
    ensures Abs(y * tick - Units(n, tick)) == Abs(y - n as real) * tick
  {
    Monotone(n as real, y, tick);
    Monotone(y, n as real, tick);
  }

  lemma QuantizePriceIs(x: real, tick: real)
    requires tick > 0.0
    ensures NearestTo(QuantizePrice(x, tick), x, tick)
  {
    var (y, n) := (x / tick, HalfEven(x / tick));
    Divided(x, tick);
    HalfEvenIs(y);
    ScaledGap(y, n, tick);
    HalfTick(Abs(y - n as real), Abs(y * tick - Units(n, tick)), tick);
    assert QuantizePrice(x, tick) == Units(n, tick);
    hide HalfEven, QuantizePrice, Units;
  }

  lemma HalfTick(d: real, gap: real, tick: real)
    requires tick > 0.0 && gap == d * tick && 2.0 * d <= 1.0
    ensures 2.0 * gap <= tick && (2.0 * gap == tick ==> 2.0 * d == 1.0)
  {
    assert tick - 2.0 * gap == (1.0 - 2.0 * d) * tick;
    Monotone(0.0, 1.0 - 2.0 * d, tick);
  }

  /** The quantity is too small for the smallest order; reduce-only orders are exempt, and so is everything before the
      first bar. */
  predicate TooSmall(b: Book, env: Env, req: Request, qty: real) {
    !req.reduceOnly && b.lastClose.Some? && qty * b.lastClose.value < env.minNotional
  }

  /** Why a fresh order is refused, if it is: `q` is its quantity and `s` its stop level, quantised. */
  function Refusal(b: Book, env: Env, req: Request, q: real, s: Option<real>): Option<RejectCode> {
    if req.instrument != env.symbol then Some(VenueError)
    else if q <= 0.0 then Some(ZeroQty)
    else if TooSmall(b, env, req, q) then Some(BelowMinNotional)
    else if s.Some? && s.value <= 0.0 then Some(VenueError)
    else None
  }

  /** A fresh order is accepted with its quantity rounded down to the step and its stop to the nearest tick, or refused
      for the first of the reasons that applies; a refused order is kept as it was asked for. */
  lemma SubmitMeans(b: Book, env: Env, req: Request)
    requires ValidEnv(env) && req.coid !in b.orders
    ensures var (e, ack) := Submit(b, env, req);
            && req.coid in e.orders && ack == Ack(req.coid, e.orders[req.coid].status, e.orders[req.coid].code)
            && exists q: real, s: Option<real> ::
                 && FloorOf(q, req.qty, env.step)
                 && (if req.otype.StopMarket? && req.stop.Some? then s.Some?
                      && NearestTo(s.value, req.stop.value, env.tick)
                     else s.None?)
                 && ack.code == Refusal(b, env, req, q, s)
                 && (ack.code.None? <==> ack.status.New?) && (ack.code.Some? <==> ack.status.Rejected?)
                 && e.orders[req.coid].req
                    == if ack.status.New? then req.(qty := q, stop := if s.Some? then s else req.stop) else req
  {
    var q := FloorQty(req.qty, env.step);
    var s: Option<real> :=
      if req.otype.StopMarket? && req.stop.Some? then Some(QuantizePrice(req.stop.value, env.tick)) else None;
    FloorQtyIs(req.qty, env.step);
    if s.Some? { QuantizePriceIs(req.stop.value, env.tick); }
    hide FloorOf, NearestTo, FloorQty, QuantizePrice;
    var (e, ack) := Submit(b, env, req);
    assert ack.code == Refusal(b, env, req, q, s);
  }

  lemma CancelOk(b: Book, c: Coid)
    requires AtRest(b) && Typed(b)
    ensures var (e, done) := Cancel(b, c);
            && AtRest(e) && Typed(e) && Grows(b, e) && e.position == b.position
            && (done <==> IsNew(b, c)) && !IsNew(e, c) && forall x | x != c :: IsNew(e, x) <==> IsNew(b, x)
  {
    if IsNew(b, c) {
      var ids := b.market + b.stops;
      CancelOne(b, ids, None, c, b.orders[c].code);
      RemoveConcat(b.market, b.stops, c);
      Apart(b.market, b.stops);
      RemoveIs(b.market, c);
      RemoveIs(b.stops, c);
      if c in b.market {
        RemoveAbsent(b.stops, c);
      } else {
        RemoveAbsent(b.market, c);
      }
      var e := Cancel(b, c).0;
      Unrelated(SetStatus(b, c, Canceled, b.orders[c].code), e, Remove(ids, c), None);
    }
  }

  /** Cancelling everything leaves no live order and no take-profit, ends nothing that was final, and executes
      nothing. */
  lemma CancelAllMeans(b: Book)
    requires AtRest(b)
    ensures var e := CancelAll(b);
            && (forall c | c in b.orders :: c in e.orders
                  && e.orders[c] == if IsNew(b, c) then b.orders[c].(status := Canceled) else b.orders[c])
            && (forall c | c in e.orders :: c in b.orders)
            && e.market == [] && e.stops == [] && e.tp.None? && e.tpSide == 0
            && e.liq == b.liq && e.position == b.position && e.fills == b.fills
  {
    CancelEachMeans(b, b.market + b.stops);
    assert forall c :: IsNew(b, c) <==> c in b.market + b.stops;
  }

  lemma {:induction false} CancelEachMeans(b: Book, ids: seq<Coid>)
    ensures var e := CancelEach(b, ids);
            && e == b.(orders := e.orders) && e.orders.Keys == b.orders.Keys
            && forall c | c in b.orders ::
                 e.orders[c] == if IsNew(b, c) && c in ids then b.orders[c].(status := Canceled) else b.orders[c]
    decreases |ids|
  {
    if ids != [] {
      var b1 := if IsNew(b, ids[0]) then SetStatus(b, ids[0], Canceled, b.orders[ids[0]].code) else b;
      assert ids == [ids[0]] + ids[1..];
      CancelEachMeans(b1, ids[1..]);
    }
  }

  datatype Call =
    | SubmitCall(req: Request)
    | BarCall(bar: Bar)
    | CancelCall(c: Coid)
    | CancelAllCall
    | ProfitCall(price: Option<real>, side: Option<Side>)
    | LiqCall(level: Option<real>)
    | RateCall(rate: real)

  /** Callers use client ids, and bars are candles. */
  ghost predicate Legal(call: Call) {
    (call.SubmitCall? ==> call.req.coid.Client?) && (call.BarCall? ==> BarOk(call.bar))
  }

  function Apply(b: Book, env: Env, call: Call): Book
    requires ValidEnv(env)
  {
    match call
    case SubmitCall(req) => Submit(b, env, req).0
    case BarCall(bar) => var r := OnBar(b, env, bar); if r.Some? then r.value else b
    case CancelCall(c) => Cancel(b, c).0
    case CancelAllCall => CancelAll(b)
    case ProfitCall(p, s) => SetTakeProfit(b, env, p, s)
    case LiqCall(p) => b.(liq := p)
    case RateCall(r) => b.(rate := r)
  }

  function ApplyAll(b: Book, env: Env, calls: seq<Call>): Book
    requires ValidEnv(env)
  {
    if calls == [] then b else Apply(ApplyAll(b, env, calls[..|calls| - 1]), env, calls[|calls| - 1])
  }

  lemma ApplyOk(b: Book, env: Env, call: Call)
    requires AtRest(b) && Typed(b) && ValidEnv(env) && Legal(call)
    ensures AtRest(Apply(b, env, call)) && Typed(Apply(b, env, call)) && Grows(b, Apply(b, env, call))
  {
    hide Ok, Grows, OnBar, Submit, Cancel, Follows;
    SelfGrows(b);
    match call {
      case SubmitCall(req) => SubmitOk(b, env, req);
      case BarCall(bar) =>
        OnBarOk(b, env, bar);
        if OnBar(b, env, bar).Some? { BarTyped(b, OnBar(b, env, bar).value); }
      case CancelCall(c) => CancelOk(b, c);
      case CancelAllCall =>
        CancelEachOk(b, b.market + b.stops);
        assert CancelAll(b).market + CancelAll(b).stops == [];
        Unrelated(CancelEach(b, b.market + b.stops), CancelAll(b), [], None);
        GrowsTwice(b, CancelEach(b, b.market + b.stops), CancelAll(b));
      case _ => Unrelated(b, Apply(b, env, call), b.market + b.stops, None);
    }
  }

  lemma SelfGrows(b: Book)
    ensures Grows(b, b)
  {
  }

  lemma BarTyped(b: Book, e: Book)
    requires Follows(b, e) && Typed(b)
    ensures Typed(e) && AtRest(e) && Grows(b, e)
  {
  }

  lemma EmptyOk(rate: real)
    ensures AtRest(EmptyBook(rate)) && Typed(EmptyBook(rate))
  {
    assert EmptyBook(rate).market + EmptyBook(rate).stops == [];
  }

  lemma {:induction false} AnyCallsOk(env: Env, rate: real, calls: seq<Call>)
    requires ValidEnv(env) && forall c | c in calls :: Legal(c)
    ensures var b := ApplyAll(EmptyBook(rate), env, calls); AtRest(b) && Typed(b)
  {
    if calls == [] {
      EmptyOk(rate);
    } else {
      var n := |calls| - 1;
      var last := calls[n];
      assert last in calls;
      assert forall c | c in calls[..n] :: c in calls;
      AnyCallsOk(env, rate, calls[..n]);
      ApplyOk(ApplyAll(EmptyBook(rate), env, calls[..n]), env, last);
    }
  }

  /** Over any calls: one fill at most per order id, a fill exactly for each FILLED order, each NEW order in exactly one
      queue, and the position is the signed sum of the fills. */
  lemma EachOrderAtMostOnce(env: Env, rate: real, calls: seq<Call>)
    requires ValidEnv(env) && forall c | c in calls :: Legal(c)
    ensures var b := ApplyAll(EmptyBook(rate), env, calls);
            && (forall i, j | 0 <= i < j < |b.fills| :: b.fills[i].coid != b.fills[j].coid)
            && (forall c :: HasFill(b.fills, c) <==> c in b.orders && b.orders[c].status.Filled?)
            && (forall c :: IsNew(b, c) <==> c in b.market || c in b.stops)
            && (forall c | c in b.market :: c !in b.stops)
            && b.position == Net(b.fills)
  {
    AnyCallsOk(env, rate, calls);
    var b := ApplyAll(EmptyBook(rate), env, calls);
    hide ApplyAll;
    Apart(b.market, b.stops);
    forall c ensures IsNew(b, c) <==> c in b.market || c in b.stops {
      assert IsNew(b, c) <==> c in b.market + b.stops;
    }
  }

  /** A final order never changes again, however the run goes on. */
  lemma {:induction false} FinalForever(env: Env, rate: real, calls: seq<Call>, n: nat)
    requires ValidEnv(env) && (forall c | c in calls :: Legal(c)) && n <= |calls|
    ensures Grows(ApplyAll(EmptyBook(rate), env, calls[..n]), ApplyAll(EmptyBook(rate), env, calls))
    decreases |calls|
  {
    hide Grows, AtRest, Typed, Apply;
    if n == |calls| {
      assert calls[..n] == calls;
      SelfGrows(ApplyAll(EmptyBook(rate), env, calls));
    } else {
      var m := |calls| - 1;
      var last, b0 := calls[m], EmptyBook(rate);
      assert last in calls;
      assert forall c | c in calls[..m] :: c in calls;
      FinalForever(env, rate, calls[..m], n);
      assert calls[..m][..n] == calls[..n];
      AnyCallsOk(env, rate, calls[..m]);
      ApplyOk(ApplyAll(b0, env, calls[..m]), env, last);
      GrowsTwice(ApplyAll(b0, env, calls[..n]), ApplyAll(b0, env, calls[..m]), ApplyAll(b0, env, calls));
    }
  }
}
