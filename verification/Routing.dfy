/** The order router over a venue whose answers may be lost: idempotent by client order id. */
module Routing {
  import opened Base
  import opened Broker
  import opened BrokerProofs
  import opened BrokerTheorems
  import BrokerRuns

  /** What the router remembers. */
  datatype Router = Router(requests: map<Coid, Request>, acks: map<Coid, Ack>, calls: nat)

  const EMPTY := Router(map[], map[], 0)

  /** The transport: the answer arrives, the request is lost, or the answer is lost after the venue acted. After a
      loss the venue may be asked; `found` is whatever it answers (None also if it cannot be asked). */
  datatype Link = Delivered | RequestLost(found: Option<Ack>) | AnswerLost(found: Option<Ack>)

  function Route(r: Router, b: Book, env: Env, req: Request, link: Link): (Router, Book, Ack)
    requires ValidEnv(env)
  {
    if req.coid in r.requests then
      (r, b, if r.requests[req.coid] == req && req.coid in r.acks then r.acks[req.coid]
             else Ack(req.coid, Rejected, Some(DuplicateClientId)))
    else
      var (sent, ack) := Submit(b, env, req);
      var b1 := if link.RequestLost? then b else sent;
      var got := if link.Delivered? then Some(ack) else link.found;
      var r1 := r.(calls := r.calls + 1);
      if got.None? then (r1, b1, Ack(req.coid, Rejected, Some(VenueError)))
      else (Router(r.requests[req.coid := req], r.acks[req.coid := got.value], r.calls + 1), b1, got.value)
  }

  ghost predicate Remembers(r: Router) {
    r.requests.Keys == r.acks.Keys && forall c | c in r.requests :: r.requests[c].coid == c
  }

  /** Whatever is lost, a submission adds at most the one order of its id, never touches an existing one and executes
      nothing. */
  lemma RouteSafe(r: Router, b: Book, env: Env, req: Request, link: Link)
    requires AtRest(b) && Typed(b) && ValidEnv(env) && req.coid.Client? && Remembers(r)
    ensures var (r', e, _) := Route(r, b, env, req, link);
            && Remembers(r') && AtRest(e) && Typed(e) && Grows(b, e) && e.fills == b.fills && e.position == b.position
            && (req.coid in b.orders ==> e == b) && forall c | c in e.orders :: c in b.orders || c == req.coid
  {
    BrokerRuns.SubmitOk(b, env, req);
    BrokerRuns.SelfGrows(b);
  }

  // ---------------------------------------------------------------- rejected and yet live

  /** The checks of the broker, as a caller can make them before submitting. */
  predicate Acceptable(b: Book, env: Env, req: Request)
    requires ValidEnv(env)
  {
    var qty := FloorQty(req.qty, env.step);
    && req.coid !in b.orders && req.instrument == env.symbol && qty > 0.0
    && (req.reduceOnly || b.lastClose.None? || qty * b.lastClose.value >= env.minNotional)
    && (req.otype.StopMarket? && req.stop.Some? ==> QuantizePrice(req.stop.value, env.tick) > 0.0)
  }

  lemma AcceptedMeans(b: Book, env: Env, req: Request)
    requires ValidEnv(env)
    ensures Submit(b, env, req).1.status.New? <==> Acceptable(b, env, req)
    ensures IsNew(Submit(b, env, req).0, req.coid) <==> IsNew(b, req.coid) || Acceptable(b, env, req)
  {
    hide FloorQty, QuantizePrice;
  }

  /** Nothing was found at the venue, or a rejection. */
  predicate NoGoodNews(found: Option<Ack>) {
    found.None? || found.value.status.Rejected?
  }

  /** When the answer to a submission is REJECTED although an order is live under its id: for a remembered id, when it
      is live and the request differs or was answered so before; otherwise, when it is live already or becomes so by
      this very call, and the answer that says so is lost and not found. */
  predicate RejectedThough(r: Router, b: Book, env: Env, req: Request, link: Link)
    requires ValidEnv(env)
  {
    if req.coid in r.requests then
      IsNew(b, req.coid) && (r.requests[req.coid] != req || req.coid !in r.acks || r.acks[req.coid].status.Rejected?)
    else match link
      case Delivered => IsNew(b, req.coid)
      case RequestLost(found) => IsNew(b, req.coid) && NoGoodNews(found)
      case AnswerLost(found) => (IsNew(b, req.coid) || Acceptable(b, env, req)) && NoGoodNews(found)
  }

  /** Exactly then, for every transport outcome and every state. */
  lemma RejectedYetLive(r: Router, b: Book, env: Env, req: Request, link: Link)
    requires ValidEnv(env)
    ensures var (_, e, ack) := Route(r, b, env, req, link);
            (ack.status.Rejected? && IsNew(e, req.coid)) <==> RejectedThough(r, b, env, req, link)
  {
    AcceptedMeans(b, env, req);
    BrokerRuns.SubmitShape(b, env, req);
    hide Submit, Acceptable;
  }

  /** The case exists: the first answer is lost and not recovered, the retry is refused, and the order is live. */
  lemma LostAnswerThenRefused(b: Book, env: Env, req: Request)
    requires AtRest(b) && Typed(b) && ValidEnv(env) && req.coid.Client? && Acceptable(b, env, req)
    ensures var (r1, b1, a1) := Route(EMPTY, b, env, req, AnswerLost(None));
            var (r2, b2, a2) := Route(r1, b1, env, req, Delivered);
            && a1 == Ack(req.coid, Rejected, Some(VenueError)) && IsNew(b1, req.coid)
            && a2 == Ack(req.coid, Rejected, Some(DuplicateClientId)) && b2 == b1
  {
    AcceptedMeans(b, env, req);
    BrokerRuns.SubmitShape(b, env, req);
    hide Acceptable;
  }

  // ---------------------------------------------------------------- any interleaving

  datatype Act = Sent(req: Request, link: Link) | Venue(call: BrokerRuns.Call)

  ghost predicate Legal(a: Act) {
    match a
    case Sent(req, _) => req.coid.Client?
    case Venue(call) => BrokerRuns.Legal(call) && !call.SubmitCall?
  }

  function Play(env: Env, rate: real, acts: seq<Act>): (Router, Book)
    requires ValidEnv(env)
  {
    if acts == [] then (EMPTY, EmptyBook(rate))
    else
      var (r, b) := Play(env, rate, acts[..|acts| - 1]);
      match acts[|acts| - 1]
      case Sent(req, link) => var (r', e, _) := Route(r, b, env, req, link); (r', e)
      case Venue(call) => (r, BrokerRuns.Apply(b, env, call))
  }

  /** Under any interleaving of submissions, retries, losses, reconciliation answers, cancels and bars at most one fill
      is emitted per order id and the position is the signed sum of the fills. */
  lemma {:induction false} NoDoubleExecution(env: Env, rate: real, acts: seq<Act>)
    requires ValidEnv(env) && forall a | a in acts :: Legal(a)
    ensures var (r, b) := Play(env, rate, acts);
            && Remembers(r) && AtRest(b) && Typed(b)
            && (forall i, j | 0 <= i < j < |b.fills| :: b.fills[i].coid != b.fills[j].coid)
            && b.position == Net(b.fills)
  {
    if acts == [] {
      BrokerRuns.AnyCallsOk(env, rate, []);
    } else {
      var n := |acts| - 1;
      var last := acts[n];
      assert last in acts && forall a | a in acts[..n] :: a in acts;
      NoDoubleExecution(env, rate, acts[..n]);
      var (r, b) := Play(env, rate, acts[..n]);
      match last {
        case Sent(req, link) => RouteSafe(r, b, env, req, link);
        case Venue(call) => BrokerRuns.ApplyOk(b, env, call);
      }
      RestFills(Play(env, rate, acts).1);
    }
  }

  // ---------------------------------------------------------------- what is remembered stays

  /** The second router remembers what the first did. */
  ghost predicate Recalls(r: Router, later: Router) {
    forall c | c in r.requests && c in r.acks ::
      c in later.requests && c in later.acks && later.requests[c] == r.requests[c] && later.acks[c] == r.acks[c]
  }

  lemma StepOf(env: Env, rate: real, acts: seq<Act>)
    requires ValidEnv(env) && acts != []
    ensures var (r, b) := Play(env, rate, acts[..|acts| - 1]);
            var a := acts[|acts| - 1];
            Play(env, rate, acts) == if a.Sent? then (Route(r, b, env, a.req, a.link).0,
              Route(r, b, env, a.req, a.link).1)
                                     else (r, BrokerRuns.Apply(b, env, a.call))
  {
  }

  /** Along any run remembered answers never change, and final orders stay final. */
  lemma {:induction false} AnswersAreKept(env: Env, rate: real, acts: seq<Act>, n: nat)
    requires ValidEnv(env) && (forall a | a in acts :: Legal(a)) && n <= |acts|
    ensures var (r, b) := Play(env, rate, acts[..n]);
            var (r', e) := Play(env, rate, acts);
            Recalls(r, r') && Grows(b, e)
    decreases |acts|
  {
    hide Play, AtRest, Typed, Grows;
    if n == |acts| {
      assert acts[..n] == acts;
      BrokerRuns.SelfGrows(Play(env, rate, acts).1);
    } else {
      var l := |acts| - 1;
      var last := acts[l];
      assert last in acts && forall a | a in acts[..l] :: a in acts;
      assert acts[..l][..n] == acts[..n];
      AnswersAreKept(env, rate, acts[..l], n);
      NoDoubleExecution(env, rate, acts[..l]);
      StepOf(env, rate, acts);
      var (r, b) := Play(env, rate, acts[..l]);
      match last {
        case Sent(req, link) => RouteSafe(r, b, env, req, link);
        case Venue(call) => BrokerRuns.ApplyOk(b, env, call);
      }
      GrowsTwice(Play(env, rate, acts[..n]).1, b, Play(env, rate, acts).1);
    }
  }

  /** A retry at any later point of any run returns the answer remembered at first, reaches nothing and changes nothing;
      the same id with other contents is refused. */
  lemma RetryIsIdempotent(env: Env, rate: real, acts: seq<Act>, n: nat, again: Request, link: Link)
    requires ValidEnv(env) && (forall a | a in acts :: Legal(a)) && n <= |acts|
    requires again.coid in Play(env, rate, acts[..n]).0.requests
    ensures var r0 := Play(env, rate, acts[..n]).0;
            var (r, b) := Play(env, rate, acts);
            var (r', b', ack) := Route(r, b, env, again, link);
            && again.coid in r0.acks && r' == r && b' == b
            && ack == if again == r0.requests[again.coid] then r0.acks[again.coid]
                 else Ack(again.coid, Rejected, Some(DuplicateClientId))
  {
    hide Play, Submit, AtRest, Typed;
    assert forall a | a in acts[..n] :: a in acts;
    NoDoubleExecution(env, rate, acts[..n]);
    AnswersAreKept(env, rate, acts, n);
  }

  // ---------------------------------------------------------------- what the caller's history tells

  /** A submission of `c` that the router got an answer to, or would have: delivered, or found at the venue. */
  predicate Answering(a: Act, c: Coid) {
    a.Sent? && a.req.coid == c && (a.link.Delivered? || a.link.found.Some?)
  }

  /** A submission of `c` that reached the venue and whose answer was lost for good. */
  predicate Losing(a: Act, c: Coid) {
    a.Sent? && a.req.coid == c && a.link == AnswerLost(None)
  }

  ghost predicate Ever(acts: seq<Act>, c: Coid, p: (Act, Coid) -> bool) {
    exists i :: 0 <= i < |acts| && p(acts[i], c)
  }

  lemma EverStep(acts: seq<Act>, c: Coid, p: (Act, Coid) -> bool)
    requires acts != []
    ensures Ever(acts, c, p) <==> Ever(acts[..|acts| - 1], c, p) || p(acts[|acts| - 1], c)
  {
    var n := |acts| - 1;
    if Ever(acts[..n], c, p) {
      var i :| 0 <= i < n && p(acts[..n][i], c);
      assert p(acts[i], c);
    }
    if i :| 0 <= i < |acts| && p(acts[i], c) {
      assert i < n ==> p(acts[..n][i], c);
    }
  }

  /** No client order came into being. */
  ghost predicate NoNewClient(b: Book, e: Book) {
    forall c | c in e.orders && c.Client? :: c in b.orders
  }

  lemma {:induction false} CancelProtectingKeys(b: Book, todo: seq<Coid>, side: Side, keep: seq<Coid>)
    ensures CancelProtecting(b, todo, side, keep).orders.Keys == b.orders.Keys
    decreases |todo|
  {
    if todo != [] {
      var c, rest := todo[0], todo[1..];
      if !IsNew(b, c) {
        CancelProtectingKeys(b, rest, side, keep);
      } else if b.orders[c].req.reduceOnly && b.orders[c].req.side == side {
        CancelProtectingKeys(SetStatus(b, c, Canceled, b.orders[c].code), rest, side, keep);
      } else {
        CancelProtectingKeys(b, rest, side, keep + [c]);
      }
    }
  }

  lemma ExecuteKeys(b: Book, env: Env, c: Coid, pRef: real, ts: int, why: Option<ExitReason>)
    ensures Execute(b, env, c, pRef, ts, why).orders.Keys == b.orders.Keys
  {
    if c in b.orders {
      var b1 := Fills(b, env, c, pRef, ts, why, ExecutableQty(b.position, b.orders[c].req));
      CancelProtectingKeys(b1, b1.stops, if b.position > 0.0 then Short else Long, []);
    }
  }

  lemma FireKeys(b: Book, env: Env, tr: Trigger, p: real, t: int)
    ensures NoNewClient(b, Fire(b, env, tr, p, t))
  {
    match tr {
      case StopAt(c, _, _) => ExecuteKeys(b.(stops := Remove(b.stops, c)), env, c, p, t, None);
      case _ =>
        var id := Synthetic(b.seqNo);
        var req := Request(id, env.symbol, if b.position > 0.0 then Short else Long, StopMarket, Abs(b.position),
          Some(tr.level), true, t);
        var b1 := if tr.ProfitAt? then b.(tp := None, tpSide := 0) else b.(liq := None);
        var b2 := b1.(seqNo := b.seqNo + 1, orders := b1.orders[id := Order(req, New, None, 0.0, None, None)]);
        ExecuteKeys(b2, env, id, p, t, Some(if tr.ProfitAt? then TakeProfit else Liquidation));
        hide Execute;
    }
  }

  lemma {:induction false} MarketKeys(b: Book, env: Env, bar: Bar, todo: seq<Coid>, keep: seq<Coid>)
    ensures FillMarket(b, env, bar, todo, keep).orders.Keys == b.orders.Keys
    decreases |todo|
  {
    if todo != [] {
      var c, rest := todo[0], todo[1..];
      ExecuteKeys(b, env, c, bar.o, bar.t, None);
      hide Execute;
      if !IsNew(b, c) {
        MarketKeys(b, env, bar, rest, keep);
      } else if bar.t < b.orders[c].req.tsCreated {
        MarketKeys(b, env, bar, rest, keep + [c]);
      } else {
        MarketKeys(Execute(b, env, c, bar.o, bar.t, None), env, bar, rest, keep);
      }
    }
  }

  lemma WalkKeys(b: Book, env: Env, bar: Bar)
    requires BarOk(bar)
    ensures NoNewClient(b, Walk(b, env, bar))
  {
    var J := (x: Book) => NoNewClient(b, x);
    forall x, tr, p | J(x) && tr in Triggers(x, bar.t) && FiresAt(tr, p, bar) ensures J(Fire(x, env, tr, p, bar.t)) {
      FireKeys(x, env, tr, p, bar.t);
      hide Fire, Triggers;
    }
    WalkKeeps(J, b, env, bar);
  }

  lemma {:induction false} ExpireKeys(b: Book, todo: seq<Coid>, longEntry: bool, shortEntry: bool, keep: seq<Coid>)
    ensures ExpireFrom(b, todo, longEntry, shortEntry, keep).orders.Keys == b.orders.Keys
    decreases |todo|
  {
    if todo != [] {
      var c, rest := todo[0], todo[1..];
      if !IsNew(b, c) {
        ExpireKeys(b, rest, longEntry, shortEntry, keep);
      } else if Orphan(b, longEntry, shortEntry, c) {
        ExpireKeys(SetStatus(b, c, Canceled, Some(ReduceOnly)), rest, longEntry, shortEntry, keep);
      } else {
        ExpireKeys(b, rest, longEntry, shortEntry, keep + [c]);
      }
    }
  }

  lemma {:induction false} CancelEachKeys(b: Book, ids: seq<Coid>)
    ensures CancelEach(b, ids).orders.Keys == b.orders.Keys
    decreases |ids|
  {
    if ids != [] {
      CancelEachKeys(if IsNew(b, ids[0]) then SetStatus(b, ids[0], Canceled, b.orders[ids[0]].code) else b, ids[1..]);
    }
  }

  /** Only a submission creates a client order. */
  lemma VenueAddsNoClient(b: Book, env: Env, call: BrokerRuns.Call)
    requires ValidEnv(env) && BrokerRuns.Legal(call) && !call.SubmitCall?
    ensures NoNewClient(b, BrokerRuns.Apply(b, env, call))
  {
    match call {
      case BarCall(bar) =>
        var b1 := ChargeFunding(b, env, bar);
        ChargeFrame(b, env, bar);
        hide Walk, FillMarket, ExpireFrom, ChargeFunding;
        MarketKeys(b1, env, bar, b1.market, []);
        var b2 := FillMarket(b1, env, bar, b1.market, []);
        WalkKeys(b2, env, bar);
        var b3 := Walk(b2, env, bar);
        ExpireKeys(b3, b3.stops, HasEntry(b3, Long), HasEntry(b3, Short), []);
      case CancelAllCall => CancelEachKeys(b, b.market + b.stops);
      case _ =>
    }
  }

  /** What the history of submissions says about one id. */
  ghost predicate HistorySays(r: Router, b: Book, c: Coid, answered: bool, lost: bool) {
    && (c in r.requests <==> answered)
    && (c in b.orders && c !in r.requests <==> lost && !answered)
  }

  lemma HistoryStep(r: Router, b: Book, env: Env, a: Act, c: Coid, answered: bool, lost: bool)
    requires ValidEnv(env) && Legal(a) && c.Client? && HistorySays(r, b, c, answered, lost) && Remembers(r)
    requires AtRest(b) && Typed(b)
    ensures var (r', e) := if a.Sent? then (Route(r, b, env, a.req, a.link).0, Route(r, b, env, a.req, a.link).1)
                           else (r, BrokerRuns.Apply(b, env, a.call));
            HistorySays(r', e, c, answered || Answering(a, c), lost || Losing(a, c))
  {
    match a {
      case Sent(req, link) =>
        BrokerRuns.SubmitShape(b, env, req);
        hide Submit, AtRest, Typed;
      case Venue(call) =>
        VenueAddsNoClient(b, env, call);
        BrokerRuns.ApplyOk(b, env, call);
        hide BrokerRuns.Apply, AtRest, Typed;
    }
  }

  /** From its own history a caller can tell: the router has an answer for `c` if and only if some submission of `c` was
      delivered or found; and the venue has an order that the router does not know of if and only if some answer for `c`
      was lost for good and none ever came. */
  lemma {:induction false} HistoryTells(env: Env, rate: real, acts: seq<Act>, c: Coid)
    requires ValidEnv(env) && (forall a | a in acts :: Legal(a)) && c.Client?
    ensures var (r, b) := Play(env, rate, acts);
            && (c in r.requests <==> Ever(acts, c, Answering))
            && (c in b.orders && c !in r.requests <==> Ever(acts, c, Losing) && !Ever(acts, c, Answering))
  {
    if acts != [] {
      hide Play, AtRest, Typed, Answering, Losing, Ever;
      var n := |acts| - 1;
      var last := acts[n];
      assert last in acts && forall a | a in acts[..n] :: a in acts;
      HistoryTells(env, rate, acts[..n], c);
      NoDoubleExecution(env, rate, acts[..n]);
      var (r, b) := Play(env, rate, acts[..n]);
      StepOf(env, rate, acts);
      EverStep(acts, c, Answering);
      EverStep(acts, c, Losing);
      HistoryStep(r, b, env, last, c, Ever(acts[..n], c, Answering), Ever(acts[..n], c, Losing));
    }
  }

  /** The first answer for an id, if it was delivered, says "duplicate" if and only if an answer was lost for good
      before: exactly then the order on the venue's books is one the router keeps reporting as REJECTED. */
  lemma DuplicateMeansLost(env: Env, rate: real, acts: seq<Act>, k: nat, c: Coid)
    requires ValidEnv(env) && (forall a | a in acts :: Legal(a)) && c.Client?
    requires k < |acts| && acts[k].Sent? && acts[k].req.coid == c && acts[k].link.Delivered?
             && !Ever(acts[..k], c, Answering)
    ensures var (r, b) := Play(env, rate, acts);
            && c in r.acks && c in b.orders
            && (r.acks[c] == Ack(c, Rejected, Some(DuplicateClientId)) <==> Ever(acts[..k], c, Losing))
  {
    assert forall a | a in acts[..k] :: a in acts;
    assert forall a | a in acts[..k + 1] :: a in acts;
    assert acts[..k + 1][..k] == acts[..k] && acts[..k + 1][k] == acts[k];
    HistoryTells(env, rate, acts[..k], c);
    NoDoubleExecution(env, rate, acts[..k]);
    StepOf(env, rate, acts[..k + 1]);
    AnswersAreKept(env, rate, acts, k + 1);
    var (r, b) := Play(env, rate, acts[..k]);
    BrokerRuns.SubmitShape(b, env, acts[k].req);
    NoDuplicateCode(b, env, acts[k].req);
    hide Play, Submit, AtRest, Typed, Ever;
  }

  lemma NoDuplicateCode(b: Book, env: Env, req: Request)
    requires ValidEnv(env)
    ensures Submit(b, env, req).1 == Ack(req.coid, Rejected, Some(DuplicateClientId)) <==> req.coid in b.orders
  {
    hide FloorQty, QuantizePrice;
  }
}
