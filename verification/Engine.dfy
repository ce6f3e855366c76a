/** The order-tracking slice of the trading loop as a value, and the halt latch.
    `TradingLoop.dfy` holds the mutable loop that is proved against these functions. */
module Engine {
  import opened Base
  import opened Broker
  import opened BrokerProofs
  import opened BrokerTheorems
  import Accounting
  import AccountingProofs

  /** PARTIAL exists only in the loop's own records. */
  datatype RecStatus = Known(s: OrderStatus) | Partial

  datatype Rec = Rec(req: Request, decision: int, isStop: bool, status: RecStatus, filled: real)

  /** `recs` are all order records, `open` the ids under watch, in order of submission. */
  datatype Loop = Loop(book: Book, acct: Accounting.Account, recs: map<Coid, Rec>, open: seq<Coid>)

  /** What the risk chain lets through at the close: a signed target, and the levels of a new position. */
  datatype Target = Target(approved: real, stop: Option<real>, tp: Option<real>, decision: int, closeNs: int)

  /** One bar as the loop meets it; funding rate, liquidation level and target are whatever the rest computes. */
  datatype Tick = Tick(bar: Bar, latched: bool, rate: Option<real>, liq: Option<real>, target: Option<Target>)

  const SYM: Accounting.Symbol := 0

  function Begin(deposit: real, rate: real): Loop {
    Loop(EmptyBook(rate), Accounting.Open(deposit), map[], [])
  }

  predicate IsFinal(s: RecStatus) {
    s.Known? && !s.s.New?
  }

  // ---------------------------------------------------------------- the latch

  predicate IsEntry(e: Loop, c: Coid) {
    c in e.recs && e.recs[c].req.otype.Market? && !e.recs[c].req.reduceOnly
  }

  /** Cancel the watched entries; `done` collects the decisions they belonged to. */
  function CancelEntries(e: Loop, todo: seq<Coid>, done: set<int>): (Loop, set<int>)
    decreases |todo|
  {
    if todo == [] then (e, done)
    else
      var c := todo[0];
      if IsEntry(e, c) && Broker.Cancel(e.book, c).1
      then CancelEntries(e.(book := Broker.Cancel(e.book, c).0), todo[1..], done + {e.recs[c].decision})
      else CancelEntries(e, todo[1..], done)
  }

  function CancelStopsOf(e: Loop, todo: seq<Coid>, done: set<int>): Loop
    decreases |todo|
  {
    if todo == [] then e
    else
      var c := todo[0];
      CancelStopsOf(if c in e.recs && e.recs[c].isStop && e.recs[c].decision in done
                    then e.(book := Broker.Cancel(e.book, c).0) else e, todo[1..], done)
  }

  function CancelPendingIncreases(e: Loop, env: Env): Loop
    requires ValidEnv(env)
  {
    var (e1, done) := CancelEntries(e, e.open, {});
    if done == {} then e1
    else
      var e2 := CancelStopsOf(e1, e1.open, done);
      e2.(book := SetTakeProfit(e2.book, env, None, None))
  }

  // ---------------------------------------------------------------- fills, funding, watch list

  function RecFor(e: Loop, f: Fill): Rec {
    if f.coid in e.recs then e.recs[f.coid]
    else Rec(if f.coid in e.book.orders then e.book.orders[f.coid].req
             else Request(f.coid, "", f.side, Market, f.qty, None, false, f.ts), 0, false, Known(New), 0.0)
  }

  function ApplyFill(e: Loop, f: Fill): Loop
    requires f.qty > 0.0
  {
    var rec := RecFor(e, f);
    var filled := rec.filled + f.qty;
    e.(recs := e.recs[f.coid := rec.(filled := filled,
      status := if filled >= rec.req.qty then Known(Filled) else Partial)],
       acct := Accounting.ApplyFill(e.acct, Accounting.Execution(SYM, f.side, f.qty, f.price, f.fee, f.ts)))
  }

  function ApplyFills(e: Loop, fs: seq<Fill>): Loop
    requires forall f | f in fs :: f.qty > 0.0
  {
    if fs == [] then e
    else
      assert fs[|fs| - 1] in fs && forall f | f in fs[..|fs| - 1] :: f in fs;
      ApplyFill(ApplyFills(e, fs[..|fs| - 1]), fs[|fs| - 1])
  }

  function ApplyCharges(a: Accounting.Account, cs: seq<Charge>): Accounting.Account {
    if cs == [] then a
    else Accounting.ApplyFunding(ApplyCharges(a, cs[..|cs| - 1]), SYM, cs[|cs| - 1].amount)
  }

  function Synced(e: Loop, c: Coid): Rec
    requires c in e.recs
  {
    var rec := e.recs[c];
    if !IsFinal(rec.status) && c in e.book.orders && rec.status != Known(e.book.orders[c].status)
    then rec.(status := Known(e.book.orders[c].status)) else rec
  }

  /** Ask the broker about the watched orders; final ones leave the watch list. */
  function SyncFrom(e: Loop, todo: seq<Coid>, keep: seq<Coid>): Loop
    decreases |todo|
  {
    if todo == [] then e.(open := keep)
    else
      var c := todo[0];
      if c !in e.recs then SyncFrom(e, todo[1..], keep)
      else
        var rec := Synced(e, c);
        SyncFrom(e.(recs := e.recs[c := rec]), todo[1..], if IsFinal(rec.status) then keep else keep + [c])
  }

  // ---------------------------------------------------------------- one bar

  /** Holds of every bar the broker executes: it only adds charges and fills, and fills have a quantity. */
  predicate Continues(b: Book, after: Book) {
    b.fills <= after.fills && b.charges <= after.charges && forall f | f in after.fills :: f.qty > 0.0
  }

  function Prepared(e: Loop, env: Env, tick: Tick): Loop
    requires ValidEnv(env)
  {
    var e0 := if tick.rate.Some? then e.(book := e.book.(rate := tick.rate.value)) else e;
    if tick.latched && e0.open != [] then CancelPendingIncreases(e0, env) else e0
  }

  /** Book the charges and fills of the bar, update the watch list, set the liquidation level, mark to the close. */
  function Settled(e: Loop, after: Book, liq: Option<real>, close: real): Loop
    requires Continues(e.book, after)
  {
    var charges, fills := after.charges[|e.book.charges|..], after.fills[|e.book.fills|..];
    var charged := e.(book := after, acct := ApplyCharges(e.acct, charges));
    var filled := ApplyFills(charged, fills);
    var synced := if filled.open == [] then filled else SyncFrom(filled, filled.open, []);
    var held := (fills != [] || charges != []) && Accounting.PosOf(synced.acct, SYM).qty != 0.0;
    synced.(book := if held then synced.book.(liq := liq) else synced.book,
            acct := Accounting.MarkOne(synced.acct, SYM, close))
  }

  /** None: the bar does not follow the previous one. */
  function Step(e: Loop, env: Env, tick: Tick): Option<Loop>
    requires ValidEnv(env)
  {
    var e0 := Prepared(e, env, tick);
    var r := OnBar(e0.book, env, tick.bar);
    if r.None? || !Continues(e0.book, r.value) then None
    else
      var settled := Settled(e0, r.value, tick.liq, tick.bar.c);
      Some(if tick.target.None? then settled else SubmitTarget(settled, env, tick.target.value))
  }

  // ---------------------------------------------------------------- decisions

  /** The id generator never repeats an id. */
  function FreshId(b: Book): (n: int)
    ensures Client(n) !in b.orders
  {
    var used := set c | c in b.orders.Keys && c.Client? :: c.n;
    var n := if used == {} then 0 else MaxOf(used) + 1;
    assert forall c | c in b.orders.Keys && c.Client? :: c.n in used;
    assert n !in used;
    n
  }

  function Send(e: Loop, env: Env, req: Request, decision: int, isStop: bool): Loop
    requires ValidEnv(env)
  {
    var (book, ack) := Submit(e.book, env, req);
    e.(book := book, recs := e.recs[req.coid := Rec(req, decision, isStop, Known(ack.status), 0.0)],
       open := if ack.status.New? then e.open + [req.coid] else e.open)
  }

  predicate PureReduction(cur: real, approved: real) {
    SignOf(approved) == 0 || (SignOf(approved) == SignOf(cur) && Abs(approved) < Abs(cur))
  }

  /** Turn an approved target into orders: a market order, and for a new side its reduce-only stop and take-profit. */
  function SubmitTarget(e: Loop, env: Env, target: Target): Loop
    requires ValidEnv(env)
  {
    var Target(approved, stop, tp, decision, closeNs) := target;
    var cur := Accounting.PosOf(e.acct, SYM).qty;
    var delta := approved - cur;
    if delta == 0.0 then e
    else
      var req := Request(Client(FreshId(e.book)), env.symbol, if delta > 0.0 then Long else Short, Market,
                         FloorQty(Abs(delta), env.step), None, PureReduction(cur, approved), closeNs);
      var e1 := Send(e, env, req, decision, false);
      if SignOf(approved) == 0 || SignOf(approved) == SignOf(cur) then e1
      else
        var side := if approved > 0.0 then Long else Short;
        var e2 := if stop.None? then e1
                  else Send(e1, env, Request(Client(FreshId(e1.book)), env.symbol, Opposite(side), StopMarket,
                    Abs(approved), stop, true, closeNs),
                            decision, true);
        e2.(book := SetTakeProfit(e2.book, env, tp, if tp.None? then None else Some(side)))
  }

  // ---------------------------------------------------------------- invariant

  /** A live order that the loop watches, as the latch will see it. */
  ghost predicate Watched(e: Loop, c: Coid) {
    && c in e.open && c in e.recs && c in e.book.orders
    && e.recs[c].req.otype == e.book.orders[c].req.otype && e.recs[c].req.reduceOnly == e.book.orders[c].req.reduceOnly
    && (e.book.orders[c].req.otype.StopMarket? ==> e.book.orders[c].req.reduceOnly)
  }

  /** Every NEW broker order is watched; the books agree on the position; the accounting identity can be applied. */
  ghost predicate LoopOk(e: Loop, stray: real) {
    && AtRest(e.book) && Typed(e.book) && Tracks(e)
    && Accounting.PosOf(e.acct, SYM).qty == e.book.position
    && AccountingProofs.AccountOk(e.acct, stray)
  }

  ghost predicate Tracks(e: Loop) {
    && (forall c | IsNew(e.book, c) :: Watched(e, c) && e.recs[c].status == Known(New))
    && (forall c | c in e.recs :: c in e.book.orders)
    && (forall c | c in e.open :: c in e.recs)
  }

  /** The watch list is the list of live orders. */
  ghost predicate Exact(e: Loop) {
    forall c :: c in e.open <==> IsNew(e.book, c)
  }
}
