/** The mutable order-tracking slice of the trading loop, driving the mutable broker and the mutable account. */
module TradingLoop {
  import opened Base
  import opened Broker
  import opened Engine
  import BrokerProofs
  import EngineProofs
  import PaperBroker
  import Portfolio
  import Accounting

  lemma FillsStep(e: Loop, fs: seq<Fill>, i: nat)
    requires i < |fs| && forall f | f in fs :: f.qty > 0.0
    ensures (forall f | f in fs[..i] :: f.qty > 0.0) && (forall f | f in fs[..i + 1] :: f.qty > 0.0) && fs[i].qty > 0.0
    ensures ApplyFills(e, fs[..i + 1]) == ApplyFill(ApplyFills(e, fs[..i]), fs[i])
  {
    assert fs[..i + 1][..i] == fs[..i];
    assert forall f | f in fs[..i + 1] :: f in fs;
  }

  class Trader {
    const env: Env
    const broker: PaperBroker.Venue
    const pf: Portfolio.Book
    var recs: map<Coid, Rec>
    var open: seq<Coid>

    ghost function View(): Loop
      reads this, broker, pf
    {
      Loop(broker.View(), pf.View(), recs, open)
    }

    ghost predicate Valid()
      reads this
    {
      ValidEnv(env) && broker.env == env
    }

    constructor (env: Env, deposit: real, rate: real)
      requires ValidEnv(env)
      ensures Valid() && fresh(broker) && fresh(pf) && this.env == env && View() == Begin(deposit, rate)
    {
      this.env := env;
      broker := new PaperBroker.Venue(env, rate);
      pf := new Portfolio.Book(deposit);
      recs, open := map[], [];
    }

    // -------------------------------------------------------------- the latch

    method CancelEntries() returns (done: set<int>)
      requires Valid()
      modifies broker
      ensures (View(), done) == Engine.CancelEntries(old(View()), open, {})
    {
      hide Broker.Cancel;
      done := {};
      for i := 0 to |open|
        invariant Engine.CancelEntries(View(), open[i..], done) == Engine.CancelEntries(old(View()), open, {})
      {
        var c := open[i];
        assert open[i..][0] == c && open[i..][1..] == open[i + 1..];
        ghost var v := View();
        if c in recs && recs[c].req.otype.Market? && !recs[c].req.reduceOnly {
          var cancelled := broker.Cancel(c);
          if cancelled {
            done := done + {recs[c].decision};
          } else {
            assert View() == v by { CancelRefused(v.book, c); }
          }
        }
      }
    }

    method CancelStopsOf(done: set<int>)
      requires Valid()
      modifies broker
      ensures View() == Engine.CancelStopsOf(old(View()), open, done)
    {
      hide Broker.Cancel;
      for i := 0 to |open|
        invariant Engine.CancelStopsOf(View(), open[i..], done) == Engine.CancelStopsOf(old(View()), open, done)
      {
        var c := open[i];
        assert open[i..][0] == c && open[i..][1..] == open[i + 1..];
        if c in recs && recs[c].isStop && recs[c].decision in done {
          var _ := broker.Cancel(c);
        }
      }
    }

    method CancelPendingIncreases()
      requires Valid()
      modifies broker
      ensures View() == Engine.CancelPendingIncreases(old(View()), env)
    {
      hide Engine.CancelEntries, Engine.CancelStopsOf, SetTakeProfit;
      var done := CancelEntries();
      if done == {} {
        return;
      }
      CancelStopsOf(done);
      broker.SetTakeProfit(None, None);
    }

    // -------------------------------------------------------------- fills and watch list

    method ApplyFill(f: Fill)
      requires f.qty > 0.0
      modifies this, pf
      ensures View() == Engine.ApplyFill(old(View()), f)
    {
      hide Accounting.ApplyFill;
      var rec := if f.coid in recs then recs[f.coid]
                 else Rec(if f.coid in broker.orders then broker.orders[f.coid].req
                          else Request(f.coid, "", f.side, Market, f.qty, None, false, f.ts),
                          0, false, Known(New), 0.0);
      rec := rec.(filled := rec.filled + f.qty);
      rec := rec.(status := if rec.filled >= rec.req.qty then Known(Filled) else Partial);
      recs := recs[f.coid := rec];
      var _ := pf.ApplyFill(Accounting.Execution(SYM, f.side, f.qty, f.price, f.fee, f.ts));
    }

    method ApplyFills(fs: seq<Fill>)
      requires forall f | f in fs :: f.qty > 0.0
      modifies this, pf
      ensures View() == Engine.ApplyFills(old(View()), fs)
    {
      for i := 0 to |fs|
        invariant (forall f | f in fs[..i] :: f.qty > 0.0) && View() == Engine.ApplyFills(old(View()), fs[..i])
      {
        FillsStep(old(View()), fs, i);
        ApplyFill(fs[i]);
      }
      assert fs[..|fs|] == fs;
    }

    method ApplyCharges(cs: seq<Charge>)
      modifies pf
      ensures pf.View() == Engine.ApplyCharges(old(pf.View()), cs)
    {
      for i := 0 to |cs|
        invariant pf.View() == Engine.ApplyCharges(old(pf.View()), cs[..i])
      {
        assert cs[..i + 1][..i] == cs[..i];
        pf.ApplyFunding(SYM, cs[i].amount);
      }
      assert cs[..|cs|] == cs;
    }

    method SyncOpenOrders()
      modifies this
      ensures View() == SyncFrom(old(View()), old(open), [])
    {
      var todo, keep := open, [];
      for i := 0 to |todo|
        invariant SyncFrom(View(), todo[i..], keep) == SyncFrom(old(View()), todo, [])
      {
        var c := todo[i];
        assert todo[i..][0] == c && todo[i..][1..] == todo[i + 1..];
        if c in recs {
          var rec := recs[c];
          if !IsFinal(rec.status) && c in broker.orders && rec.status != Known(broker.orders[c].status) {
            rec := rec.(status := Known(broker.orders[c].status));
          }
          recs := recs[c := rec];
          if !IsFinal(rec.status) {
            keep := keep + [c];
          }
        }
      }
      open := keep;
    }

    // -------------------------------------------------------------- one bar

    /** Everything between the execution of the bar and the decision. */
    method Settle(ghost before: Loop, nFills: nat, nCharges: nat, liq: Option<real>, close: real)
      requires Valid() && Continues(before.book, broker.View()) && View() == before.(book := broker.View())
      requires nFills == |before.book.fills| && nCharges == |before.book.charges|
      modifies this, broker, pf
      ensures Valid() && View() == Settled(before, old(broker.View()), liq, close)
    {
      hide Engine.ApplyFills, Engine.ApplyCharges, SyncFrom, Accounting.MarkOne;
      var fills, charges := broker.fills[nFills..], broker.charges[nCharges..];
      ApplyCharges(charges);
      assert forall f | f in fills :: f in broker.fills;
      ApplyFills(fills);
      if open != [] {
        SyncOpenOrders();
      }
      var qty := if SYM in pf.positions then pf.positions[SYM].qty else 0.0;
      if (fills != [] || charges != []) && qty != 0.0 {
        broker.liq := liq;
      }
      pf.Mark(SYM, close);
    }

    /** The funding rate of the bar, and the latch. */
    method Prepare(tick: Tick)
      requires Valid()
      modifies broker
      ensures View() == Prepared(old(View()), env, tick)
    {
      hide Engine.CancelPendingIncreases;
      if tick.rate.Some? {
        broker.rate := tick.rate.value;
      }
      if tick.latched && open != [] {
        CancelPendingIncreases();
      }
    }

    /** `ok` is false when the bar does not follow the previous one; only the preparations have then happened. */
    method Step(tick: Tick, ghost stray: real) returns (ok: bool)
      requires Valid() && LoopOk(View(), stray) && BrokerProofs.BarOk(tick.bar)
      modifies this, broker, pf
      ensures Valid() && ok == Engine.Step(old(View()), env, tick).Some?
      ensures View() == if ok then Engine.Step(old(View()), env, tick).value else Prepared(old(View()), env, tick)
    {
      EngineProofs.PrepareOk(View(), env, tick, stray);
      hide LoopOk, OnBar, Settled, Engine.SubmitTarget, Prepared, BrokerProofs.BarOk;
      Prepare(tick);
      ghost var e0 := View();
      var nFills, nCharges := |broker.fills|, |broker.charges|;
      var out;
      ok, out := broker.OnBar(tick.bar);
      if !ok {
        return;
      }
      RestContinues(e0, env, tick.bar, stray);
      Settle(e0, nFills, nCharges, tick.liq, tick.bar.c);
      if tick.target.Some? {
        SubmitTarget(tick.target.value);
      }
    }

    // -------------------------------------------------------------- orders

    method Send(req: Request, decision: int, isStop: bool)
      requires Valid()
      modifies this, broker
      ensures Valid() && View() == Engine.Send(old(View()), env, req, decision, isStop)
    {
      hide Broker.Submit;
      var ack := broker.Submit(req);
      recs := recs[req.coid := Rec(req, decision, isStop, Known(ack.status), 0.0)];
      if ack.status.New? {
        open := open + [req.coid];
      }
    }

    method SubmitTarget(target: Target)
      requires Valid()
      modifies this, broker
      ensures Valid() && View() == Engine.SubmitTarget(old(View()), env, target)
    {
      hide Engine.Send, FloorQty, SetTakeProfit;
      var Target(approved, stop, tp, decision, closeNs) := target;
      var cur := if SYM in pf.positions then pf.positions[SYM].qty else 0.0;
      var delta := approved - cur;
      if delta == 0.0 {
        return;
      }
      var id := NextId();
      Send(Request(id, env.symbol, if delta > 0.0 then Long else Short, Market, FloorQty(Abs(delta), env.step), None,
                   PureReduction(cur, approved), closeNs), decision, false);
      if SignOf(approved) == 0 || SignOf(approved) == SignOf(cur) {
        return;
      }
      var side := if approved > 0.0 then Long else Short;
      if stop.Some? {
        id := NextId();
        Send(Request(id, env.symbol, Opposite(side), StopMarket, Abs(approved), stop, true, closeNs), decision, true);
      }
      broker.SetTakeProfit(tp, if tp.None? then None else Some(side));
    }

    method NextId() returns (id: Coid)
      ensures id == Client(FreshId(broker.View()))
    {
      id := Client(FreshId(Book(
        broker.orders, broker.market, broker.stops, broker.position, broker.lastOpen, broker.lastClose,
        broker.tp, broker.tpSide, broker.liq, broker.seqNo, broker.rate, broker.charges, broker.fills)));
    }
  }

  lemma CancelRefused(b: Book, c: Coid)
    requires !Broker.Cancel(b, c).1
    ensures Broker.Cancel(b, c).0 == b
  {
  }

  lemma RestContinues(e: Loop, env: Env, bar: Bar, stray: real)
    requires LoopOk(e, stray) && ValidEnv(env) && BrokerProofs.BarOk(bar) && OnBar(e.book, env, bar).Some?
    ensures Continues(e.book, OnBar(e.book, env, bar).value)
  {
    EngineProofs.BarContinues(e.book, env, bar);
  }
}
