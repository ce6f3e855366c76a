/** The account of a run is made of the broker's fills and funding charges and of nothing else. */
module EngineMoney {
  import opened Base
  import opened Broker
  import opened BrokerProofs
  import opened BrokerTheorems
  import opened Engine
  import opened EngineProofs
  import Targets
  import Accounting
  import AccountingProofs

  function Cost(f: Fill): real {
    Signed(f.side, f.qty * f.price)
  }

  function Value(f: Fill): real {
    f.qty * f.price
  }

  /** What the fills cost, net of what they brought in; their fees; their turnover. */
  function Spent(fs: seq<Fill>): real {
    if fs == [] then 0.0 else Spent(fs[..|fs| - 1]) + Cost(fs[|fs| - 1])
  }

  function Fees(fs: seq<Fill>): real {
    if fs == [] then 0.0 else Fees(fs[..|fs| - 1]) + fs[|fs| - 1].fee
  }

  function Turnover(fs: seq<Fill>): real {
    if fs == [] then 0.0 else Turnover(fs[..|fs| - 1]) + Value(fs[|fs| - 1])
  }

  function Charged(cs: seq<Charge>): real {
    if cs == [] then 0.0 else Charged(cs[..|cs| - 1]) + cs[|cs| - 1].amount
  }

  lemma {:induction false} FillSums(a: seq<Fill>, b: seq<Fill>)
    ensures Spent(a + b) == Spent(a) + Spent(b) && Fees(a + b) == Fees(a) + Fees(b)
            && Turnover(a + b) == Turnover(a) + Turnover(b)
    decreases |b|
  {
    if b == [] {
      assert a + b == a;
    } else {
      assert (a + b)[..|a + b| - 1] == a + b[..|b| - 1];
      FillSums(a, b[..|b| - 1]);
    }
  }

  lemma {:induction false} ChargeSums(a: seq<Charge>, b: seq<Charge>)
    ensures Charged(a + b) == Charged(a) + Charged(b)
    decreases |b|
  {
    if b == [] {
      assert a + b == a;
    } else {
      assert (a + b)[..|a + b| - 1] == a + b[..|b| - 1];
      ChargeSums(a, b[..|b| - 1]);
    }
  }

  /** The account holds the deposit less what the fills and charges took, and has counted fees, funding and turnover. */
  ghost predicate MoneyIs(a: Accounting.Account, deposit: real, fs: seq<Fill>, cs: seq<Charge>) {
    && a.initial == deposit && a.cash == deposit - Spent(fs) - Charged(cs)
    && a.fees == Fees(fs) && a.funding == Charged(cs) && a.traded == Turnover(fs) && a.nFills == |fs|
  }

  lemma {:induction false} ChargesMoney(a: Accounting.Account, deposit: real, fs: seq<Fill>, cs: seq<Charge>,
      more: seq<Charge>)
    requires MoneyIs(a, deposit, fs, cs)
    ensures MoneyIs(ApplyCharges(a, more), deposit, fs, cs + more)
    decreases |more|
  {
    if more == [] {
      assert cs + more == cs;
    } else {
      var n := |more| - 1;
      ChargesMoney(a, deposit, fs, cs, more[..n]);
      assert (cs + more)[..|cs + more| - 1] == cs + more[..n];
      hide Spent, Fees, Turnover;
    }
  }

  lemma {:induction false} FillsMoney(e: Loop, deposit: real, fs: seq<Fill>, cs: seq<Charge>, more: seq<Fill>)
    requires MoneyIs(e.acct, deposit, fs, cs) && forall f | f in more :: f.qty > 0.0
    ensures MoneyIs(ApplyFills(e, more).acct, deposit, fs + more, cs)
    decreases |more|
  {
    if more == [] {
      assert fs + more == fs;
    } else {
      var n := |more| - 1;
      assert more[n] in more && forall f | f in more[..n] :: f in more;
      FillsMoney(e, deposit, fs, cs, more[..n]);
      assert (fs + more)[..|fs + more| - 1] == fs + more[..n];
      FillMoney(ApplyFills(e, more[..n]), deposit, fs + more[..n], cs, more[n]);
      assert fs + more == fs + more[..n] + [more[n]];
    }
  }

  lemma SumsLast(fs: seq<Fill>, f: Fill)
    ensures Spent(fs + [f]) == Spent(fs) + Cost(f) && Fees(fs + [f]) == Fees(fs) + f.fee
    ensures Turnover(fs + [f]) == Turnover(fs) + Value(f)
  {
    assert (fs + [f])[..|fs|] == fs;
  }

  lemma BookedMoney(a: Accounting.Account, f: Fill)
    requires f.qty > 0.0
    ensures var e := Accounting.ApplyFill(a, Accounting.Execution(SYM, f.side, f.qty, f.price, f.fee, f.ts));
            && e.cash == a.cash - Cost(f) && e.fees == a.fees + f.fee && e.traded == a.traded + Value(f)
            && e.nFills == a.nFills + 1 && e.initial == a.initial && e.funding == a.funding
  {
    hide Accounting.Fill1;
  }

  lemma FillMoney(e: Loop, deposit: real, fs: seq<Fill>, cs: seq<Charge>, f: Fill)
    requires MoneyIs(e.acct, deposit, fs, cs) && f.qty > 0.0
    ensures MoneyIs(ApplyFill(e, f).acct, deposit, fs + [f], cs)
  {
    SumsLast(fs, f);
    BookedMoney(e.acct, f);
    hide Accounting.ApplyFill, Spent, Fees, Turnover, Charged, Cost, Value, RecFor;
  }

  /** The account of the loop agrees with the broker's records. */
  ghost predicate MoneyOk(e: Loop, deposit: real) {
    MoneyIs(e.acct, deposit, e.book.fills, e.book.charges)
  }

  lemma MarkMoney(a: Accounting.Account, deposit: real, fs: seq<Fill>, cs: seq<Charge>, close: real)
    requires MoneyIs(a, deposit, fs, cs)
    ensures MoneyIs(Accounting.MarkOne(a, SYM, close), deposit, fs, cs)
    ensures close > 0.0 ==> Accounting.MarkOf(Accounting.MarkOne(a, SYM, close), SYM) == close
  {
    hide Spent, Fees, Turnover, Charged;
  }

  lemma {:induction false} SyncMoney(e: Loop, todo: seq<Coid>, keep: seq<Coid>)
    ensures var f := SyncFrom(e, todo, keep); f.acct == e.acct && f.book == e.book
    decreases |todo|
  {
    if todo != [] {
      var c := todo[0];
      if c !in e.recs {
        SyncMoney(e, todo[1..], keep);
      } else {
        var rec := Synced(e, c);
        SyncMoney(e.(recs := e.recs[c := rec]), todo[1..], if IsFinal(rec.status) then keep else keep + [c]);
      }
    }
  }

  lemma SettledMoney(e: Loop, after: Book, liq: Option<real>, close: real, deposit: real)
    requires MoneyOk(e, deposit) && Continues(e.book, after)
    ensures var f := Settled(e, after, liq, close);
            MoneyOk(f, deposit) && (close > 0.0 ==> Accounting.MarkOf(f.acct, SYM) == close)
  {
    var (charges, fills) := (after.charges[|e.book.charges|..], after.fills[|e.book.fills|..]);
    assert after.charges == e.book.charges + charges && after.fills == e.book.fills + fills;
    assert forall f | f in fills :: f in after.fills;
    var charged := e.(book := after, acct := ApplyCharges(e.acct, charges));
    ChargesMoney(e.acct, deposit, e.book.fills, e.book.charges, charges);
    FillsMoney(charged, deposit, e.book.fills, after.charges, fills);
    var filled := ApplyFills(charged, fills);
    FilledBook(charged, fills);
    SyncMoney(filled, filled.open, []);
    MarkMoney(filled.acct, deposit, after.fills, after.charges, close);
    hide ApplyFills, ApplyCharges, SyncFrom, MoneyIs, Accounting.MarkOne;
  }

  lemma {:induction false} FilledBook(e: Loop, fs: seq<Fill>)
    requires forall f | f in fs :: f.qty > 0.0
    ensures ApplyFills(e, fs).book == e.book
  {
    if fs != [] {
      assert forall f | f in fs[..|fs| - 1] :: f in fs;
      FilledBook(e, fs[..|fs| - 1]);
    }
  }

  lemma PreparedMoney(e: Loop, env: Env, tick: Tick, stray: real)
    requires LoopOk(e, stray) && ValidEnv(env)
    ensures var f := Prepared(e, env, tick);
            f.acct == e.acct && f.book.fills == e.book.fills && f.book.charges == e.book.charges
  {
    var e0 := if tick.rate.Some? then e.(book := e.book.(rate := tick.rate.value)) else e;
    Unrelated(e.book, e0.book, e.book.market + e.book.stops, None);
    assert LoopOk(e0, stray) by {
      hide Ok, AccountingProofs.AccountOk;
      assert forall c | IsNew(e0.book, c) :: Watched(e, c);
    }
    if tick.latched && e0.open != [] {
      LatchClears(e0, env, stray);
    }
    hide CancelPendingIncreases, LoopOk;
  }

  lemma StepMoney(e: Loop, env: Env, tick: Tick, stray: real, deposit: real)
    requires LoopOk(e, stray) && ValidEnv(env) && BarOk(tick.bar) && MoneyOk(e, deposit) && Step(e, env, tick).Some?
    ensures var f := Step(e, env, tick).value; MoneyOk(f, deposit) && Accounting.MarkOf(f.acct, SYM) == tick.bar.c
  {
    PreparedMoney(e, env, tick, stray);
    var e0 := Prepared(e, env, tick);
    var after := OnBar(e0.book, env, tick.bar).value;
    SettledMoney(e0, after, tick.liq, tick.bar.c, deposit);
    var settled := Settled(e0, after, tick.liq, tick.bar.c);
    hide OnBar, Prepared, Settled, LoopOk, MoneyIs, Continues;
    if tick.target.Some? {
      TargetMoney(settled, env, tick.target.value);
    }
  }

  lemma TargetMoney(e: Loop, env: Env, target: Target)
    requires ValidEnv(env)
    ensures var f := SubmitTarget(e, env, target);
            f.acct == e.acct && f.book.fills == e.book.fills && f.book.charges == e.book.charges
  {
    Targets.SubmitTargetMeans(e, env, target);
    SendAcct(e, env, target);
    hide SubmitTarget;
  }

  lemma SendAcct(e: Loop, env: Env, target: Target)
    requires ValidEnv(env)
    ensures SubmitTarget(e, env, target).acct == e.acct
  {
    hide Submit, FloorQty, SetTakeProfit, FreshId;
  }

  /** Not a cent comes or goes but through the broker: in any run cash is the deposit less the cost of all fills and
      less all funding, fees and turnover are those of the fills, and equity is what the position is worth at the last
      close on top of that. */
  lemma {:induction false} MoneyMatchesBroker(deposit: real, rate: real, env: Env, ticks: seq<Tick>)
    requires ValidEnv(env) && InOrder(ticks)
    ensures var r := Run(deposit, rate, env, ticks);
            && r.Some? && MoneyIs(r.value.acct, deposit, r.value.book.fills, r.value.book.charges)
            && (ticks != [] ==> Accounting.MarkOf(r.value.acct, SYM) == ticks[|ticks| - 1].bar.c)
  {
    hide LoopOk, Exact, Step, MoneyIs;
    RunOk(deposit, rate, env, ticks);
    if ticks == [] {
      BeginMoney(deposit, rate);
    } else {
      var n := |ticks| - 1;
      assert ticks[n] in ticks && forall k | k in ticks[..n] :: k in ticks;
      RunOk(deposit, rate, env, ticks[..n]);
      MoneyMatchesBroker(deposit, rate, env, ticks[..n]);
      StepMoney(Run(deposit, rate, env, ticks[..n]).value, env, ticks[n], 0.0, deposit);
    }
  }

  lemma BeginMoney(deposit: real, rate: real)
    ensures MoneyOk(Begin(deposit, rate), deposit)
  {
  }

  // ---------------------------------------------------------------- the liquidation level

  lemma SettledLiq(e: Loop, after: Book, liq: Option<real>, close: real)
    requires Continues(e.book, after)
    ensures var f := Settled(e, after, liq, close);
            f.book == after.(liq := f.book.liq)
            && f.book.liq == if (after.fills != e.book.fills || after.charges != e.book.charges)
                                && Accounting.PosOf(f.acct, SYM).qty != 0.0 then liq else after.liq
  {
    var (charges, fills) := (after.charges[|e.book.charges|..], after.fills[|e.book.fills|..]);
    assert after.charges == e.book.charges + charges && after.fills == e.book.fills + fills;
    assert forall f | f in fills :: f in after.fills;
    var charged := e.(book := after, acct := ApplyCharges(e.acct, charges));
    var filled := ApplyFills(charged, fills);
    FilledBook(charged, fills);
    SyncMoney(filled, filled.open, []);
    hide ApplyFills, ApplyCharges, SyncFrom;
  }

  /** After a step with a fill or a funding charge that leaves a position open, its liquidation level is the new one. */
  lemma LiqFollows(e: Loop, env: Env, tick: Tick, stray: real)
    requires LoopOk(e, stray) && ValidEnv(env) && BarOk(tick.bar) && Step(e, env, tick).Some?
    ensures var f := Step(e, env, tick).value;
            f.book.position != 0.0 && (f.book.fills != e.book.fills || f.book.charges != e.book.charges) ==>
              f.book.liq == tick.liq
  {
    PreparedMoney(e, env, tick, stray);
    StepOk(e, env, tick, stray);
    var e0 := Prepared(e, env, tick);
    var after := OnBar(e0.book, env, tick.bar).value;
    SettledLiq(e0, after, tick.liq, tick.bar.c);
    var settled := Settled(e0, after, tick.liq, tick.bar.c);
    LoopAgrees(Step(e, env, tick).value, stray);
    hide OnBar, Prepared, Settled, LoopOk, Continues, Exact;
    if tick.target.Some? {
      TargetMoney(settled, env, tick.target.value);
      Targets.SubmitTargetMeans(settled, env, tick.target.value);
      hide SubmitTarget;
    }
  }

  lemma LoopAgrees(e: Loop, stray: real)
    requires LoopOk(e, stray)
    ensures Accounting.PosOf(e.acct, SYM).qty == e.book.position
  {
  }
}
