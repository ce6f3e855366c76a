/** The paper broker for one instrument as a value: queues, reduce-only clipping, OCO cancellation, orphan expiry and
    the intrabar trigger walk. `PaperBroker.dfy` holds the mutable broker that is proved against these functions. */
module Broker {
  import opened Base
  import Funding

  // ---------------------------------------------------------------- data

  datatype Side = Long | Short

  function Sgn(s: Side): real {
    if s.Long? then 1.0 else -1.0
  }

  /** side * qty */
  function Signed(s: Side, qty: real): real {
    if s.Long? then qty else -qty
  }

  function SignOf(x: real): int {
    if x > 0.0 then 1 else if x < 0.0 then -1 else 0
  }

  function Abs(x: real): real {
    if x < 0.0 then -x else x
  }

  /** Identifiers never collide: clients draw theirs from one generator, the broker numbers its own. */
  datatype Coid = Client(n: int) | Synthetic(k: nat)

  datatype OrderType = Market | StopMarket
  datatype OrderStatus = New | Filled | Rejected | Canceled
  datatype RejectCode = DuplicateClientId | VenueError | ZeroQty | BelowMinNotional | ReduceOnly
  datatype ExitReason = Stop | TakeProfit | Liquidation

  datatype Request = Request(coid: Coid, instrument: string, side: Side, otype: OrderType, qty: real,
                             stop: Option<real>, reduceOnly: bool, tsCreated: int)
  datatype Order = Order(req: Request, status: OrderStatus, code: Option<RejectCode>, filledQty: real,
                         avgPrice: Option<real>, reason: Option<ExitReason>)
  datatype Ack = Ack(coid: Coid, status: OrderStatus, code: Option<RejectCode>)

  /** `pRef` is the reference price handed to the cost model. */
  datatype Fill = Fill(coid: Coid, side: Side, qty: real, pRef: real, price: real, fee: real, ts: int)
  datatype Charge = Charge(ts: int, qty: real, mark: real, rate: real, amount: real)
  datatype Bar = Bar(t: int, o: real, h: real, l: real, c: real)

  /** Instrument and cost model; `quote` is the price of the n-th execution. */
  datatype Env = Env(symbol: string, tick: real, step: real, minNotional: real,
                     quote: (nat, Side, real, real) -> real, feeRate: real, offs: seq<int>, chargesFunding: bool)

  ghost predicate ValidEnv(env: Env) {
    env.tick > 0.0 && env.step > 0.0 && env.offs != []
  }

  /** `fills` is everything the broker has ever executed, in order. */
  datatype Book = Book(orders: map<Coid, Order>, market: seq<Coid>, stops: seq<Coid>, position: real,
                       lastOpen: Option<int>, lastClose: Option<real>, tp: Option<real>, tpSide: int, liq: Option<real>,
                       seqNo: nat, rate: real, charges: seq<Charge>, fills: seq<Fill>)

  function EmptyBook(rate: real): Book {
    Book(map[], [], [], 0.0, None, None, None, 0, None, 0, rate, [], [])
  }

  function Fee(env: Env, notional: real): real {
    Abs(notional) * env.feeRate
  }

  /** What the account pays: a long pays a positive rate. */
  function FundingPayment(qty: real, mark: real, rate: real): real {
    qty * mark * rate
  }

  // ---------------------------------------------------------------- quantisation

  function FloorQty(x: real, step: real): real
    requires step > 0.0
  {
    (x / step).Floor as real * step
  }

  function HalfEven(x: real): int {
    var n := x.Floor;
    var d := x - n as real;
    if d < 0.5 then n else if d > 0.5 then n + 1 else if n % 2 == 0 then n else n + 1
  }

  function QuantizePrice(x: real, tick: real): real
    requires tick > 0.0
  {
    HalfEven(x / tick) as real * tick
  }

  // ---------------------------------------------------------------- orders

  predicate IsNew(b: Book, coid: Coid) {
    coid in b.orders && b.orders[coid].status.New?
  }

  function Reject(b: Book, req: Request, code: RejectCode): (Book, Ack) {
    (b.(orders := b.orders[req.coid := Order(req, Rejected, Some(code), 0.0, None, None)]),
      Ack(req.coid, Rejected, Some(code)))
  }

  function Submit(b: Book, env: Env, req: Request): (Book, Ack)
    requires ValidEnv(env)
  {
    if req.coid in b.orders then (b, Ack(req.coid, Rejected, Some(DuplicateClientId)))
    else if req.instrument != env.symbol then Reject(b, req, VenueError)
    else
      var qty := FloorQty(req.qty, env.step);
      if qty <= 0.0 then Reject(b, req, ZeroQty)
      else if !req.reduceOnly && b.lastClose.Some?
        && qty * b.lastClose.value < env.minNotional then Reject(b, req, BelowMinNotional)
      else
        var stop := if req.otype.StopMarket? && req.stop.Some? then Some(QuantizePrice(req.stop.value, env.tick))
          else req.stop;
        if req.otype.StopMarket? && stop.Some? && stop.value <= 0.0 then Reject(b, req, VenueError)
        else
          var o := Order(req.(qty := qty, stop := stop), New, None, 0.0, None, None);
          var b1 := b.(seqNo := b.seqNo + 1, orders := b.orders[req.coid := o]);
          (if req.otype.Market? then b1.(market := b.market + [req.coid]) else b1.(stops := b.stops + [req.coid]),
           Ack(req.coid, New, None))
  }

  function Remove(s: seq<Coid>, c: Coid): seq<Coid> {
    if s == [] then [] else if s[0] == c then s[1..] else [s[0]] + Remove(s[1..], c)
  }

  function SetStatus(b: Book, coid: Coid, status: OrderStatus, code: Option<RejectCode>): Book
    requires coid in b.orders
  {
    b.(orders := b.orders[coid := b.orders[coid].(status := status, code := code)])
  }

  function Cancel(b: Book, coid: Coid): (Book, bool) {
    if !IsNew(b, coid) then (b, false)
    else (SetStatus(b, coid, Canceled, b.orders[coid].code).(market := Remove(b.market, coid),
      stops := Remove(b.stops, coid)), true)
  }

  function CancelEach(b: Book, ids: seq<Coid>): Book
    decreases |ids|
  {
    if ids == [] then b
    else CancelEach(if IsNew(b, ids[0]) then SetStatus(b, ids[0], Canceled, b.orders[ids[0]].code) else b, ids[1..])
  }

  function CancelAll(b: Book): Book {
    CancelEach(b, b.market + b.stops).(market := [], stops := [], tp := None, tpSide := 0)
  }

  function SetTakeProfit(b: Book, env: Env, price: Option<real>, side: Option<Side>): Book
    requires ValidEnv(env)
  {
    b.(tp := if price.None? then None else Some(QuantizePrice(price.value, env.tick)),
       tpSide := if side.None? || price.None? then 0 else if side.value.Long? then 1 else -1)
  }

  // ---------------------------------------------------------------- execution

  function ExecutableQty(position: real, req: Request): real {
    if !req.reduceOnly then req.qty
    else if position == 0.0 || SignOf(position) == SignOf(Sgn(req.side)) then 0.0
    else Min(req.qty, Abs(position))
  }

  /** The stops that protected the closed position are cancelled; the others stay. */
  function CancelProtecting(b: Book, todo: seq<Coid>, side: Side, keep: seq<Coid>): Book
    decreases |todo|
  {
    if todo == [] then b.(stops := keep)
    else
      var c := todo[0];
      if !IsNew(b, c) then CancelProtecting(b, todo[1..], side, keep)
      else if b.orders[c].req.reduceOnly && b.orders[c].req.side == side then
        CancelProtecting(SetStatus(b, c, Canceled, b.orders[c].code), todo[1..], side, keep)
      else CancelProtecting(b, todo[1..], side, keep + [c])
  }

  function OnPositionClosed(b: Book, was: real): Book {
    var b1 := CancelProtecting(b, b.stops, if was > 0.0 then Short else Long, []);
    var b2 := if b1.tpSide == 0 || b1.tpSide == SignOf(was) then b1.(tp := None, tpSide := 0) else b1;
    b2.(liq := None)
  }

  /** The book right after the fill, before the consequences of a closed position. */
  function Fills(b: Book, env: Env, coid: Coid, pRef: real, ts: int, why: Option<ExitReason>, qty: real): Book
    requires coid in b.orders
  {
    var o := b.orders[coid];
    var reason := if why.None? && o.req.otype.StopMarket? && b.position != 0.0
      && SignOf(b.position) != SignOf(Sgn(o.req.side))
                  then Some(Stop) else why;
    var price := env.quote(|b.fills|, o.req.side, pRef, qty);
    b.(orders := b.orders[coid := o.(status := Filled, filledQty := qty, avgPrice := Some(price), reason := reason)],
       fills := b.fills + [Fill(coid, o.req.side, qty, pRef, price, Fee(env, qty * price), ts)],
       position := b.position + Signed(o.req.side, qty))
  }

  function Execute(b: Book, env: Env, coid: Coid, pRef: real, ts: int, why: Option<ExitReason>): Book {
    if coid !in b.orders then b
    else
      var qty := ExecutableQty(b.position, b.orders[coid].req);
      if qty <= 0.0 then SetStatus(b, coid, Canceled, Some(ReduceOnly))
      else
        var b1 := Fills(b, env, coid, pRef, ts, why, qty);
        if b.position != 0.0 && (b1.position == 0.0 || SignOf(b1.position) != SignOf(b.position))
        then OnPositionClosed(b1, b.position) else b1
  }

  /** Market orders created by the bar's open execute at the open; the others wait. */
  function FillMarket(b: Book, env: Env, bar: Bar, todo: seq<Coid>, keep: seq<Coid>): Book
    decreases |todo|
  {
    if todo == [] then b.(market := keep)
    else
      var c := todo[0];
      if !IsNew(b, c) then FillMarket(b, env, bar, todo[1..], keep)
      else if bar.t < b.orders[c].req.tsCreated then FillMarket(b, env, bar, todo[1..], keep + [c])
      else FillMarket(Execute(b, env, c, bar.o, bar.t, None), env, bar, todo[1..], keep)
  }

  // ---------------------------------------------------------------- triggers

  datatype Trigger =
    | StopAt(coid: Coid, level: real, up: bool)
    | ProfitAt(level: real, up: bool)
    | LiqAt(level: real, up: bool)

  function Priority(t: Trigger): int {
    if t.LiqAt? then 0 else if t.StopAt? then 1 else 2
  }

  predicate ActiveStop(b: Book, coid: Coid, t: int) {
    IsNew(b, coid) && b.orders[coid].req.stop.Some? && b.orders[coid].req.tsCreated <= t
  }

  function StopTriggers(b: Book, stops: seq<Coid>, t: int): seq<Trigger> {
    if stops == [] then []
    else
      (if ActiveStop(b, stops[0], t)
       then [StopAt(stops[0], b.orders[stops[0]].req.stop.value, b.orders[stops[0]].req.side.Long?)] else [])
      + StopTriggers(b, stops[1..], t)
  }

  function Triggers(b: Book, t: int): seq<Trigger> {
    StopTriggers(b, b.stops, t)
    + (if b.position != 0.0 && b.tp.Some? && (b.tpSide == 0 || b.tpSide == SignOf(b.position))
       then [ProfitAt(b.tp.value, b.position > 0.0)] else [])
    + (if b.position != 0.0 && b.liq.Some? then [LiqAt(b.liq.value, b.position < 0.0)] else [])
  }

  /** Levels are ranked downwards, upwards, or (at the open) not at all; ties go to the lower priority number. */
  datatype Rank = ByPriority | Highest | Lowest

  predicate Better(r: Rank, x: Trigger, y: Trigger) {
    match r
    case ByPriority => Priority(x) < Priority(y)
    case Highest => x.level > y.level || (x.level == y.level && Priority(x) < Priority(y))
    case Lowest => x.level < y.level || (x.level == y.level && Priority(x) < Priority(y))
  }

  function Best(r: Rank, s: seq<Trigger>): (x: Trigger)
    requires s != []
    ensures x in s && forall y | y in s :: !Better(r, y, x)
  {
    if |s| == 1 then s[0]
    else
      var x := Best(r, s[1..]);
      assert s == [s[0]] + s[1..];
      if Better(r, x, s[0]) then x else s[0]
  }

  predicate Behind(tr: Trigger, o: real) {
    if tr.up then o >= tr.level else o <= tr.level
  }

  function Where(s: seq<Trigger>, p: Trigger -> bool): (r: seq<Trigger>)
    ensures forall x :: x in r <==> x in s && p(x)
  {
    if s == [] then [] else (if p(s[0]) then [s[0]] else []) + Where(s[1..], p)
  }

  /** What bounds the number of firings: live stops, take-profit level, liquidation level. */
  function Live(b: Book): nat {
    |b.stops| + (if b.tp.Some? then 1 else 0) + (if b.liq.Some? then 1 else 0)
  }

  function Fire(b: Book, env: Env, tr: Trigger, pRef: real, t: int): Book {
    match tr
    case StopAt(c, _, _) => Execute(b.(stops := Remove(b.stops, c)), env, c, pRef, t, None)
    case _ =>
      var id := Synthetic(b.seqNo);
      var req := Request(id, env.symbol, if b.position > 0.0 then Short else Long, StopMarket, Abs(b.position),
        Some(tr.level), true, t);
      var b1 := if tr.ProfitAt? then b.(tp := None, tpSide := 0) else b.(liq := None);
      var b2 := b1.(seqNo := b.seqNo + 1, orders := b1.orders[id := Order(req, New, None, 0.0, None, None)]);
      Execute(b2, env, id, pRef, t, Some(if tr.ProfitAt? then TakeProfit else Liquidation))
  }

  lemma {:induction false} CancelProtectingShrinks(b: Book, todo: seq<Coid>, side: Side, keep: seq<Coid>)
    ensures var r := CancelProtecting(b, todo, side, keep);
            |r.stops| <= |keep| + |todo| && r == b.(orders := r.orders, stops := r.stops)
    decreases |todo|
  {
    if todo != [] {
      var c := todo[0];
      if !IsNew(b, c) {
        CancelProtectingShrinks(b, todo[1..], side, keep);
      } else if b.orders[c].req.reduceOnly && b.orders[c].req.side == side {
        CancelProtectingShrinks(SetStatus(b, c, Canceled, b.orders[c].code), todo[1..], side, keep);
      } else {
        CancelProtectingShrinks(b, todo[1..], side, keep + [c]);
      }
    }
  }

  lemma ExecuteShrinks(b: Book, env: Env, coid: Coid, pRef: real, ts: int, why: Option<ExitReason>)
    ensures Live(Execute(b, env, coid, pRef, ts, why)) <= Live(b)
    ensures var r := Execute(b, env, coid, pRef, ts, why);
            r == b.(orders := r.orders, stops := r.stops, position := r.position, tp := r.tp, tpSide := r.tpSide,
              liq := r.liq, fills := r.fills)
  {
    if coid in b.orders {
      var qty := ExecutableQty(b.position, b.orders[coid].req);
      var b1 := Fills(b, env, coid, pRef, ts, why, qty);
      CancelProtectingShrinks(b1, b1.stops, if b.position > 0.0 then Short else Long, []);
    }
  }

  lemma {:induction false} RemoveShrinks(s: seq<Coid>, c: Coid)
    requires c in s
    ensures |Remove(s, c)| == |s| - 1
  {
    if s[0] != c {
      RemoveShrinks(s[1..], c);
    }
  }

  lemma {:induction false} StopTriggersIn(b: Book, stops: seq<Coid>, t: int)
    ensures forall tr :: tr in StopTriggers(b, stops, t) <==>
              tr.StopAt? && tr.coid in stops && ActiveStop(b, tr.coid, t)
              && tr == StopAt(tr.coid, b.orders[tr.coid].req.stop.value, b.orders[tr.coid].req.side.Long?)
  {
    if stops != [] {
      StopTriggersIn(b, stops[1..], t);
      assert stops == [stops[0]] + stops[1..];
    }
  }

  /** Every firing uses up a stop or a level, so the walk terminates. */
  lemma FireShrinks(b: Book, env: Env, tr: Trigger, pRef: real, t: int)
    requires tr in Triggers(b, t)
    ensures Live(Fire(b, env, tr, pRef, t)) < Live(b)
  {
    StopTriggersIn(b, b.stops, t);
    match tr {
      case StopAt(c, _, _) =>
        RemoveShrinks(b.stops, c);
        ExecuteShrinks(b.(stops := Remove(b.stops, c)), env, c, pRef, t, None);
      case _ =>
        var id := Synthetic(b.seqNo);
        var req := Request(id, env.symbol, if b.position > 0.0 then Short else Long, StopMarket, Abs(b.position),
          Some(tr.level), true, t);
        var b1 := if tr.ProfitAt? then b.(tp := None, tpSide := 0) else b.(liq := None);
        var b2 := b1.(seqNo := b.seqNo + 1, orders := b1.orders[id := Order(req, New, None, 0.0, None, None)]);
        ExecuteShrinks(b2, env, id, pRef, t, Some(if tr.ProfitAt? then TakeProfit else Liquidation));
    }
  }

  // ---------------------------------------------------------------- the walk

  function AtOpen(b: Book, t: int, o: real): seq<Trigger> {
    Where(Triggers(b, t), (tr: Trigger) => Behind(tr, o))
  }

  /** Gap-through: every level already behind the open fires at the open. */
  function FireAtOpen(b: Book, env: Env, t: int, o: real): Book
    decreases Live(b)
  {
    var at := AtOpen(b, t, o);
    if at == [] then b
    else
      var tr := Best(ByPriority, at);
      FireShrinks(b, env, tr, o, t);
      FireAtOpen(Fire(b, env, tr, o, t), env, t, o)
  }

  function Ahead(b: Book, t: int, cur: real, target: real): seq<Trigger> {
    if target < cur then Where(Triggers(b, t), (tr: Trigger) => !tr.up && target <= tr.level <= cur)
    else Where(Triggers(b, t), (tr: Trigger) => tr.up && cur <= tr.level <= target)
  }

  /** The price moves from `cur` to `target`; levels on the way fire at their level, nearest first. */
  function Segment(b: Book, env: Env, t: int, cur: real, target: real): Book
    decreases Live(b)
  {
    if cur == target then b
    else
      var on := Ahead(b, t, cur, target);
      if on == [] then b
      else
        var tr := Best(if target < cur then Highest else Lowest, on);
        FireShrinks(b, env, tr, tr.level, t);
        Segment(Fire(b, env, tr, tr.level, t), env, t, tr.level, target)
  }

  predicate Reachable(b: Book, bar: Bar) {
    exists tr | tr in Triggers(b, bar.t) :: if tr.up then tr.level <= bar.h else tr.level >= bar.l
  }

  /** The pessimistic path: against the position first; flat, the nearer extreme first. */
  predicate LowFirst(position: real, bar: Bar) {
    position > 0.0 || (position == 0.0 && bar.o - bar.l <= bar.h - bar.o)
  }

  function Walk(b: Book, env: Env, bar: Bar): Book {
    if !Reachable(b, bar) then b
    else
      var b0 := FireAtOpen(b, env, bar.t, bar.o);
      var first, second := if LowFirst(b0.position, bar) then bar.l else bar.h,
        if LowFirst(b0.position, bar) then bar.h else bar.l;
      var b1 := Segment(b0, env, bar.t, bar.o, first);
      var b2 := Segment(b1, env, bar.t, first, second);
      Segment(b2, env, bar.t, second, bar.c)
  }

  // ---------------------------------------------------------------- bar

  predicate HasEntry(b: Book, side: Side) {
    exists c | c in b.market + b.stops :: IsNew(b, c) && !b.orders[c].req.reduceOnly && b.orders[c].req.side == side
  }

  function Opposite(s: Side): Side {
    if s.Long? then Short else Long
  }

  /** A reduce-only stop that can reduce neither the position nor one that a queued entry may open. */
  predicate Orphan(b: Book, longEntry: bool, shortEntry: bool, c: Coid)
    requires c in b.orders
  {
    var protectedSide := Opposite(b.orders[c].req.side);
    && b.orders[c].req.reduceOnly
    && SignOf(b.position) != SignOf(Sgn(protectedSide))
    && !(if protectedSide.Long? then longEntry else shortEntry)
  }

  function ExpireFrom(b: Book, todo: seq<Coid>, longEntry: bool, shortEntry: bool, keep: seq<Coid>): Book
    decreases |todo|
  {
    if todo == [] then b.(stops := keep)
    else
      var c := todo[0];
      if !IsNew(b, c) then ExpireFrom(b, todo[1..], longEntry, shortEntry, keep)
      else if Orphan(b, longEntry, shortEntry, c) then
        ExpireFrom(SetStatus(b, c, Canceled, Some(ReduceOnly)), todo[1..], longEntry, shortEntry, keep)
      else ExpireFrom(b, todo[1..], longEntry, shortEntry, keep + [c])
  }

  function ExpireOrphans(b: Book): Book {
    ExpireFrom(b, b.stops, HasEntry(b, Long), HasEntry(b, Short), [])
  }

  /** The mark is the open of the bar that starts at the moment itself, otherwise the last close. */
  function ChargeAt(b: Book, ts: int, end: int, open: real): Charge {
    var mark := if ts == end || b.lastClose.None? then open else b.lastClose.value;
    Charge(ts, b.position, mark, b.rate, FundingPayment(b.position, mark, b.rate))
  }

  function ChargeEach(b: Book, times: seq<int>, end: int, open: real): Book
    decreases |times|
  {
    if times == [] then b
    else ChargeEach(b.(charges := b.charges + [ChargeAt(b, times[0], end, open)]), times[1..], end, open)
  }

  function ChargeFunding(b: Book, env: Env, bar: Bar): Book
    requires ValidEnv(env)
  {
    if b.position != 0.0 && b.lastOpen.Some? && env.chargesFunding
      && bar.t >= Funding.NextFunding(env.offs, b.lastOpen.value)
    then ChargeEach(b, Funding.FundingTimes(env.offs, b.lastOpen.value, bar.t), bar.t, bar.o)
    else b
  }

  /** None: the bar does not follow the previous one. */
  function OnBar(b: Book, env: Env, bar: Bar): Option<Book>
    requires ValidEnv(env)
  {
    if b.lastOpen.Some? && bar.t <= b.lastOpen.value then None
    else
      var b1 := ChargeFunding(b, env, bar);
      var b2 := FillMarket(b1, env, bar, b1.market, []);
      var b3 := Walk(b2, env, bar);
      var b4 := ExpireOrphans(b3);
      Some(b4.(lastOpen := Some(bar.t), lastClose := Some(bar.c)))
  }
}
