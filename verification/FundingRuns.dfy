/** Which funding moments a run of the broker charges. */
module FundingRuns {
  import opened Base
  import opened Broker
  import opened BrokerProofs
  import opened BrokerRuns
  import Funding

  // ---------------------------------------------------------------- one bar

  lemma {:induction false} MarketCharges(b: Book, env: Env, bar: Bar, todo: seq<Coid>, keep: seq<Coid>)
    ensures FillMarket(b, env, bar, todo, keep).charges == b.charges
    decreases |todo|
  {
    if todo != [] {
      var c, rest := todo[0], todo[1..];
      ExecuteShrinks(b, env, c, bar.o, bar.t, None);
      hide Execute;
      if !IsNew(b, c) {
        MarketCharges(b, env, bar, rest, keep);
      } else if bar.t < b.orders[c].req.tsCreated {
        MarketCharges(b, env, bar, rest, keep + [c]);
      } else {
        MarketCharges(Execute(b, env, c, bar.o, bar.t, None), env, bar, rest, keep);
      }
    }
  }

  lemma WalkCharges(b: Book, env: Env, bar: Bar)
    requires BarOk(bar)
    ensures Walk(b, env, bar).charges == b.charges
  {
    var J := (x: Book) => x.charges == b.charges;
    forall x, tr, p | J(x) && tr in Triggers(x, bar.t) && FiresAt(tr, p, bar) ensures J(Fire(x, env, tr, p, bar.t)) {
      FireFrame(x, env, tr, p, bar.t);
    }
    WalkKeeps(J, b, env, bar);
  }

  lemma {:induction false} ExpireCharges(b: Book, todo: seq<Coid>, longEntry: bool, shortEntry: bool, keep: seq<Coid>)
    ensures ExpireFrom(b, todo, longEntry, shortEntry, keep).charges == b.charges
    decreases |todo|
  {
    if todo != [] {
      var c, rest := todo[0], todo[1..];
      if !IsNew(b, c) {
        ExpireCharges(b, rest, longEntry, shortEntry, keep);
      } else if Orphan(b, longEntry, shortEntry, c) {
        ExpireCharges(SetStatus(b, c, Canceled, Some(ReduceOnly)), rest, longEntry, shortEntry, keep);
      } else {
        ExpireCharges(b, rest, longEntry, shortEntry, keep + [c]);
      }
    }
  }

  /** Nothing in a bar charges but the funding at its start. */
  lemma OnBarCharges(b: Book, env: Env, bar: Bar)
    requires ValidEnv(env) && BarOk(bar) && OnBar(b, env, bar).Some?
    ensures OnBar(b, env, bar).value.charges == ChargeFunding(b, env, bar).charges
  {
    hide Walk, FillMarket, ExpireFrom, ChargeFunding;
    var b1 := ChargeFunding(b, env, bar);
    MarketCharges(b1, env, bar, b1.market, []);
    var b2 := FillMarket(b1, env, bar, b1.market, []);
    WalkCharges(b2, env, bar);
    var b3 := Walk(b2, env, bar);
    ExpireCharges(b3, b3.stops, HasEntry(b3, Long), HasEntry(b3, Short), []);
  }

  lemma ChargesGrow(b: Book, env: Env, bar: Bar)
    requires ValidEnv(env)
    ensures var e := ChargeFunding(b, env, bar);
            b.charges <= e.charges && (b.position == 0.0 ==> e.charges == b.charges)
  {
    if b.lastOpen.Some? {
      ChargeEachFrame(b, Funding.FundingTimes(env.offs, b.lastOpen.value, bar.t), bar.t, bar.o);
    }
  }

  /** The moments since the previous bar, if a position was held into this one and funding is on. */
  function Due(b: Book, env: Env, bar: Bar): seq<int> {
    if b.position != 0.0 && b.lastOpen.Some? && env.chargesFunding
    then Funding.FundingTimes(env.offs, b.lastOpen.value, bar.t) else []
  }

  /** Exactly the moments `due` were charged between `b` and `e`, in order, on the position of `b`. */
  ghost predicate ChargedExactly(b: Book, e: Book, due: seq<int>) {
    && b.charges <= e.charges && |e.charges| == |b.charges| + |due|
    && forall i | 0 <= i < |due| :: e.charges[|b.charges| + i].ts == due[i]
         && e.charges[|b.charges| + i].qty == b.position
  }

  /** A bar charges exactly the funding moments since the previous bar if a position was held into it, each once and on
      the position before the bar's executions; otherwise it charges nothing. */
  lemma FundingChargedOnce(b: Book, env: Env, bar: Bar)
    requires ValidEnv(env) && Funding.Schedule(env.offs) && BarOk(bar) && OnBar(b, env, bar).Some?
    ensures ChargedExactly(b, OnBar(b, env, bar).value, Due(b, env, bar))
  {
    OnBarCharges(b, env, bar);
    hide OnBar;
    if b.position != 0.0 && b.lastOpen.Some? && env.chargesFunding {
      ChargesDue(b, env, bar);
      EachCharged(b, Due(b, env, bar), bar.t, bar.o);
    }
  }

  lemma ChargesDue(b: Book, env: Env, bar: Bar)
    requires ValidEnv(env) && Funding.Schedule(env.offs) && b.position != 0.0 && b.lastOpen.Some? && env.chargesFunding
    ensures ChargeFunding(b, env, bar) == ChargeEach(b, Funding.FundingTimes(env.offs, b.lastOpen.value, bar.t), bar.t,
            bar.o)
  {
    Funding.DueExactlyWhenNextPassed(env.offs, b.lastOpen.value, bar.t);
    hide Funding.FundingTimes, Funding.NextFunding;
  }

  lemma EachCharged(b: Book, due: seq<int>, end: int, open: real)
    ensures ChargedExactly(b, ChargeEach(b, due, end, open), due)
  {
    ChargeEachFrame(b, due, end, open);
    hide ChargeEach;
  }

  /** A long pays a positive rate and a short receives it, on the value of the position at the open of the bar that
      starts at the moment itself, and at the last close for an earlier moment. */
  lemma FundingAmounts(b: Book, env: Env, bar: Bar, i: nat)
    requires ValidEnv(env) && Funding.Schedule(env.offs) && BarOk(bar) && OnBar(b, env, bar).Some?
    requires |b.charges| <= i < |OnBar(b, env, bar).value.charges|
    ensures var c := OnBar(b, env, bar).value.charges[i];
            && c.qty == b.position && c.rate == b.rate
            && (c.ts == bar.t || b.lastClose.None? ==> c.mark == bar.o)
            && (c.ts != bar.t && b.lastClose.Some? ==> c.mark == b.lastClose.value)
            && c.amount == c.qty * c.mark * c.rate
            && (c.mark > 0.0 ==> (c.amount > 0.0 <==> (c.qty > 0.0 && c.rate > 0.0) || (c.qty < 0.0 && c.rate < 0.0)))
  {
    OnBarCharges(b, env, bar);
    FundingChargedOnce(b, env, bar);
    var (c, due) := (OnBar(b, env, bar).value.charges[i], Due(b, env, bar));
    hide OnBar, ChargeFunding, Funding.FundingTimes, FundingPayment;
    ChargesDue(b, env, bar);
    NthCharge(b, due, bar, i);
    if c.mark > 0.0 {
      Payer(c.qty, c.mark, c.rate);
    }
  }

  lemma NthCharge(b: Book, due: seq<int>, bar: Bar, i: nat)
    requires |b.charges| <= i < |b.charges| + |due|
    ensures var e := ChargeEach(b, due, bar.t, bar.o);
            i < |e.charges| && e.charges[i] == ChargeAt(b, due[i - |b.charges|], bar.t, bar.o)
            && e.charges[i].amount == e.charges[i].qty * e.charges[i].mark * e.charges[i].rate
  {
    ChargeEachFrame(b, due, bar.t, bar.o);
    hide ChargeEach;
    assert ChargeEach(b, due, bar.t, bar.o).charges[|b.charges| + (i - |b.charges|)]
      == ChargeAt(b, due[i - |b.charges|], bar.t, bar.o);
  }

  lemma Payer(qty: real, mark: real, rate: real)
    requires mark > 0.0
    ensures qty * mark * rate > 0.0 <==> (qty > 0.0 && rate > 0.0) || (qty < 0.0 && rate < 0.0)
  {
    var v := qty * mark;
    assert v > 0.0 <==> qty > 0.0;
    assert v < 0.0 <==> qty < 0.0;
    PosTimes(v, rate);
  }

  lemma PosTimes(v: real, rate: real)
    ensures v * rate > 0.0 <==> (v > 0.0 && rate > 0.0) || (v < 0.0 && rate < 0.0)
  {
  }

  // ---------------------------------------------------------------- any run

  function TimesOf(cs: seq<Charge>): (ts: seq<int>)
    ensures |ts| == |cs| && forall i | 0 <= i < |cs| :: ts[i] == cs[i].ts
  {
    if cs == [] then [] else TimesOf(cs[..|cs| - 1]) + [cs[|cs| - 1].ts]
  }

  lemma TimesAfter(b: Book, e: Book, due: seq<int>)
    requires ChargedExactly(b, e, due)
    ensures TimesOf(e.charges) == TimesOf(b.charges) + due
  {
    var x, y := TimesOf(e.charges), TimesOf(b.charges) + due;
    forall i | 0 <= i < |x| ensures x[i] == y[i] {
      if i >= |b.charges| {
        var j := i - |b.charges|;
        assert e.charges[|b.charges| + j].ts == due[j];
      }
    }
  }

  /** Charge times strictly increase, are funding moments, and lie behind the last bar's open. */
  ghost predicate ChargesOk(b: Book, offs: seq<int>) {
    && Ascending(TimesOf(b.charges))
    && (forall t | t in TimesOf(b.charges) :: Funding.IsFunding(offs, t) && b.lastOpen.Some? && t <= b.lastOpen.value)
  }

  /** One call: only an accepted bar charges, and exactly what is due. */
  lemma CallCharges(b: Book, env: Env, call: Call)
    requires ValidEnv(env) && Funding.Schedule(env.offs) && Legal(call)
    ensures var e := Apply(b, env, call);
            if call.BarCall? && OnBar(b, env, call.bar).Some?
            then TimesOf(e.charges) == TimesOf(b.charges) + Due(b, env, call.bar) && e.lastOpen == Some(call.bar.t)
                 && (b.lastOpen.Some? ==> b.lastOpen.value < call.bar.t) && ChargedExactly(b, e, Due(b, env, call.bar))
            else e.charges == b.charges && e.lastOpen == b.lastOpen
  {
    match call {
      case BarCall(bar) =>
        if OnBar(b, env, bar).Some? {
          FundingChargedOnce(b, env, bar);
          TimesAfter(b, OnBar(b, env, bar).value, Due(b, env, bar));
          hide Walk, FillMarket, ExpireOrphans, ChargeFunding, ChargedExactly, Due;
        }
      case SubmitCall(req) => SubmitShape(b, env, req);
      case CancelAllCall => CancelEachCharges(b, b.market + b.stops);
      case _ =>
    }
  }

  lemma {:induction false} CancelEachCharges(b: Book, ids: seq<Coid>)
    ensures var e := CancelEach(b, ids); e == b.(orders := e.orders)
    decreases |ids|
  {
    if ids != [] {
      CancelEachCharges(if IsNew(b, ids[0]) then SetStatus(b, ids[0], Canceled, b.orders[ids[0]].code) else b,
        ids[1..]);
    }
  }

  lemma DueAscends(b: Book, env: Env, bar: Bar)
    requires Funding.Schedule(env.offs)
    ensures Ascending(Due(b, env, bar))
  {
    if b.lastOpen.Some? {
      Funding.FundingTimesExact(env.offs, b.lastOpen.value, bar.t);
    }
  }

  lemma CallKeepsCharges(b: Book, env: Env, call: Call)
    requires ValidEnv(env) && Funding.Schedule(env.offs) && Legal(call) && ChargesOk(b, env.offs)
    ensures ChargesOk(Apply(b, env, call), env.offs)
  {
    CallCharges(b, env, call);
    hide Apply, ChargedExactly;
    if call.BarCall? && OnBar(b, env, call.bar).Some? && b.lastOpen.Some? {
      DueIs(b, env, call.bar);
      DueAscends(b, env, call.bar);
      hide OnBar, Due, Funding.IsFunding, Funding.Schedule;
      Funding.AscendingConcat(TimesOf(b.charges), Due(b, env, call.bar), b.lastOpen.value);
    }
  }

  /** In any run of the broker the charge times strictly increase and are funding moments. */
  lemma {:induction false} RunChargesOk(env: Env, rate: real, calls: seq<Call>)
    requires ValidEnv(env) && Funding.Schedule(env.offs) && forall c | c in calls :: Legal(c)
    ensures ChargesOk(ApplyAll(EmptyBook(rate), env, calls), env.offs)
  {
    if calls != [] {
      hide ChargesOk, Apply;
      var n := |calls| - 1;
      var last := calls[n];
      assert last in calls && forall c | c in calls[..n] :: c in calls;
      RunChargesOk(env, rate, calls[..n]);
      CallKeepsCharges(ApplyAll(EmptyBook(rate), env, calls[..n]), env, last);
    }
  }

  /** The bar `calls[k]` is accepted, `m` is a funding moment between the bar before it and its own open. */
  ghost predicate MomentAt(env: Env, rate: real, calls: seq<Call>, k: nat, m: int)
    requires ValidEnv(env)
  {
    && k < |calls| && calls[k].BarCall?
    && var b := ApplyAll(EmptyBook(rate), env, calls[..k]);
       && OnBar(b, env, calls[k].bar).Some? && b.lastOpen.Some?
       && b.lastOpen.value < m <= calls[k].bar.t && Funding.IsFunding(env.offs, m)
  }

  /** What the book says about the moment `m`. */
  ghost predicate MomentSettled(b: Book, m: int, held: real, fundingOn: bool) {
    && (m in TimesOf(b.charges) <==> held != 0.0 && fundingOn)
    && (forall i | 0 <= i < |b.charges| && b.charges[i].ts == m :: b.charges[i].qty == held)
    && b.lastOpen.Some? && m <= b.lastOpen.value
  }

  /** In any run a funding moment between two consecutive bars is charged, and then exactly once and on the position
      held, if and only if a position was held into the later bar and funding is on. */
  lemma MomentCharged(env: Env, rate: real, calls: seq<Call>, k: nat, m: int)
    requires ValidEnv(env) && Funding.Schedule(env.offs) && (forall c | c in calls :: Legal(c))
             && MomentAt(env, rate, calls, k, m)
    ensures var held, b := ApplyAll(EmptyBook(rate), env, calls[..k]).position, ApplyAll(EmptyBook(rate), env, calls);
            && (m in TimesOf(b.charges) <==> held != 0.0 && env.chargesFunding)
            && (forall i, j | 0 <= i < j < |b.charges| :: b.charges[i].ts < b.charges[j].ts)
            && (forall i | 0 <= i < |b.charges| && b.charges[i].ts == m :: b.charges[i].qty == held)
  {
    hide ApplyAll, MomentAt;
    RunChargesOk(env, rate, calls);
    MomentStays(env, rate, calls, k, m);
    var b := ApplyAll(EmptyBook(rate), env, calls);
    assert forall i | 0 <= i < |b.charges| :: TimesOf(b.charges)[i] == b.charges[i].ts;
  }

  lemma {:induction false} MomentStays(env: Env, rate: real, calls: seq<Call>, k: nat, m: int)
    requires ValidEnv(env) && Funding.Schedule(env.offs) && (forall c | c in calls :: Legal(c))
             && MomentAt(env, rate, calls, k, m)
    ensures MomentSettled(ApplyAll(EmptyBook(rate), env, calls), m, ApplyAll(EmptyBook(rate), env, calls[..k]).position,
            env.chargesFunding)
    decreases |calls|
  {
    hide MomentSettled, ChargesOk, Apply, OnBar;
    var n := |calls| - 1;
    var last, b := calls[n], ApplyAll(EmptyBook(rate), env, calls[..n]);
    assert last in calls && forall c | c in calls[..n] :: c in calls;
    assert ApplyAll(EmptyBook(rate), env, calls) == Apply(b, env, last);
    RunChargesOk(env, rate, calls[..n]);
    if k == n {
      LastMoment(b, env, last, m);
    } else {
      MomentBefore(env, rate, calls, k, m);
      hide ApplyAll, MomentAt;
      MomentStays(env, rate, calls[..n], k, m);
      LaterCall(b, env, last, m, ApplyAll(EmptyBook(rate), env, calls[..k]).position);
    }
  }

  lemma MomentBefore(env: Env, rate: real, calls: seq<Call>, k: nat, m: int)
    requires ValidEnv(env) && k + 1 < |calls| && MomentAt(env, rate, calls, k, m)
    ensures var n := |calls| - 1; MomentAt(env, rate, calls[..n], k, m) && calls[..n][..k] == calls[..k]
  {
    hide ApplyAll, OnBar;
    var n := |calls| - 1;
    assert calls[..n][..k] == calls[..k] && calls[..n][k] == calls[k];
  }

  lemma EarlierCharges(b: Book, offs: seq<int>)
    requires ChargesOk(b, offs) && b.lastOpen.Some?
    ensures forall i | 0 <= i < |b.charges| :: b.charges[i].ts <= b.lastOpen.value
    ensures forall t | t in TimesOf(b.charges) :: t <= b.lastOpen.value
  {
    forall i | 0 <= i < |b.charges| ensures b.charges[i].ts <= b.lastOpen.value {
      assert TimesOf(b.charges)[i] in TimesOf(b.charges);
    }
  }

  /** What is due is later than the last bar, up to the new one, and complete. */
  lemma DueIs(b: Book, env: Env, bar: Bar)
    requires Funding.Schedule(env.offs) && b.lastOpen.Some?
    ensures forall t :: t in Due(b, env, bar) <==>
              b.position != 0.0 && env.chargesFunding && b.lastOpen.value < t <= bar.t && Funding.IsFunding(env.offs, t)
  {
    Funding.FundingTimesExact(env.offs, b.lastOpen.value, bar.t);
  }

  /** A charge of `e` at `m` is new: it sits behind those of `b`. */
  lemma NewCharges(b: Book, e: Book, due: seq<int>)
    requires ChargedExactly(b, e, due)
    ensures forall i | 0 <= i < |b.charges| :: e.charges[i] == b.charges[i]
    ensures forall i | |b.charges| <= i < |e.charges| :: e.charges[i].qty == b.position && e.charges[i].ts in due
  {
    forall i | |b.charges| <= i < |e.charges| ensures e.charges[i].qty == b.position && e.charges[i].ts in due {
      var j := i - |b.charges|;
      assert e.charges[|b.charges| + j].ts == due[j] && due[j] in due;
    }
  }

  /** The bar that follows the moment. */
  lemma LastMoment(b: Book, env: Env, call: Call, m: int)
    requires ValidEnv(env) && Funding.Schedule(env.offs) && Legal(call) && ChargesOk(b, env.offs) && call.BarCall?
    requires OnBar(b, env, call.bar).Some? && b.lastOpen.Some? && b.lastOpen.value < m <= call.bar.t
             && Funding.IsFunding(env.offs, m)
    ensures MomentSettled(Apply(b, env, call), m, b.position, env.chargesFunding)
  {
    CallCharges(b, env, call);
    DueIs(b, env, call.bar);
    EarlierCharges(b, env.offs);
    var e := Apply(b, env, call);
    NewCharges(b, e, Due(b, env, call.bar));
    hide Apply, OnBar, Due, ChargesOk, ChargedExactly, Funding.IsFunding, Funding.Schedule;
    assert m !in TimesOf(b.charges);
    forall i | 0 <= i < |e.charges| && e.charges[i].ts == m ensures e.charges[i].qty == b.position {
      assert i >= |b.charges|;
    }
  }

  /** Calls after it no longer touch the moment. */
  lemma LaterCall(b: Book, env: Env, call: Call, m: int, held: real)
    requires ValidEnv(env) && Funding.Schedule(env.offs) && Legal(call) && MomentSettled(b, m, held, env.chargesFunding)
    ensures MomentSettled(Apply(b, env, call), m, held, env.chargesFunding)
  {
    CallCharges(b, env, call);
    var e := Apply(b, env, call);
    if call.BarCall? && OnBar(b, env, call.bar).Some? {
      var due := Due(b, env, call.bar);
      DueIs(b, env, call.bar);
      NewCharges(b, e, due);
      hide Apply, OnBar, Due, ChargedExactly, Funding.IsFunding, Funding.Schedule;
      assert m !in due;
      forall i | 0 <= i < |e.charges| && e.charges[i].ts == m ensures e.charges[i].qty == held {
        assert i < |b.charges|;
      }
    }
  }

  // ---------------------------------------------------------------- spacing

  /** Every bar accepted after the first `n` calls had a position held into it. */
  ghost predicate HeldSince(env: Env, rate: real, calls: seq<Call>, n: nat)
    requires ValidEnv(env) && n <= |calls|
  {
    forall k | n <= k < |calls| && calls[k].BarCall? ::
      var b := ApplyAll(EmptyBook(rate), env, calls[..k]); OnBar(b, env, calls[k].bar).Some? ==> b.position != 0.0
  }

  /** The book `e` has charged, on top of `b`, exactly the moments between their last bars. */
  ghost predicate ChargedBetween(offs: seq<int>, b: Book, e: Book) {
    && b.lastOpen.Some? && e.lastOpen.Some? && b.lastOpen.value <= e.lastOpen.value
    && TimesOf(e.charges) == TimesOf(b.charges) + Funding.FundingTimes(offs, b.lastOpen.value, e.lastOpen.value)
  }

  /** However the bars of a run are spaced, while a position is held exactly the moments between its first and its last
      bar are charged, in order. */
  lemma {:induction false} SpacingIrrelevant(env: Env, rate: real, calls: seq<Call>, n: nat)
    requires ValidEnv(env) && Funding.Schedule(env.offs) && env.chargesFunding && (forall c | c in calls :: Legal(c))
             && n <= |calls|
    requires HeldSince(env, rate, calls, n) && ApplyAll(EmptyBook(rate), env, calls[..n]).lastOpen.Some?
    ensures ChargedBetween(env.offs, ApplyAll(EmptyBook(rate), env, calls[..n]), ApplyAll(EmptyBook(rate), env, calls))
    decreases |calls|
  {
    hide HeldSince, Apply, ChargedBetween, OnBar;
    var b0 := ApplyAll(EmptyBook(rate), env, calls[..n]);
    if n == |calls| {
      assert calls[..n] == calls;
      NothingBetween(env.offs, b0);
    } else {
      var l := |calls| - 1;
      var last, b := calls[l], ApplyAll(EmptyBook(rate), env, calls[..l]);
      assert last in calls && forall c | c in calls[..l] :: c in calls;
      assert ApplyAll(EmptyBook(rate), env, calls) == Apply(b, env, last);
      hide ApplyAll;
      assert calls[..l][..n] == calls[..n];
      HeldPrefix(env, rate, calls, n);
      SpacingIrrelevant(env, rate, calls[..l], n);
      OneMore(b0, b, env, last);
    }
  }

  lemma NothingBetween(offs: seq<int>, b: Book)
    requires b.lastOpen.Some?
    ensures ChargedBetween(offs, b, b)
  {
  }

  lemma OneMore(b0: Book, b: Book, env: Env, call: Call)
    requires ValidEnv(env) && Funding.Schedule(env.offs) && env.chargesFunding && Legal(call)
             && ChargedBetween(env.offs, b0, b)
    requires call.BarCall? && OnBar(b, env, call.bar).Some? ==> b.position != 0.0
    ensures ChargedBetween(env.offs, b0, Apply(b, env, call))
  {
    CallCharges(b, env, call);
    hide Apply, ChargedExactly, Funding.FundingTimes, Funding.Schedule, OnBar;
    if call.BarCall? && OnBar(b, env, call.bar).Some? {
      Funding.FundingTimesAdditive(env.offs, b0.lastOpen.value, b.lastOpen.value, call.bar.t);
      ConcatAssociates(TimesOf(b0.charges), Funding.FundingTimes(env.offs, b0.lastOpen.value, b.lastOpen.value),
                       Funding.FundingTimes(env.offs, b.lastOpen.value, call.bar.t));
    }
  }

  lemma HeldPrefix(env: Env, rate: real, calls: seq<Call>, n: nat)
    requires ValidEnv(env) && n < |calls| && HeldSince(env, rate, calls, n)
    ensures HeldSince(env, rate, calls[..|calls| - 1], n)
    ensures var b := ApplyAll(EmptyBook(rate), env, calls[..|calls| - 1]);
            calls[|calls| - 1].BarCall? && OnBar(b, env, calls[|calls| - 1].bar).Some? ==> b.position != 0.0
  {
    hide OnBar, ApplyAll;
    var l := |calls| - 1;
    forall k | n <= k < l && calls[..l][k].BarCall?
      ensures var b := ApplyAll(EmptyBook(rate), env, calls[..l][..k]);
              OnBar(b, env, calls[..l][k].bar).Some? ==> b.position != 0.0
    {
      assert calls[..l][..k] == calls[..k] && calls[..l][k] == calls[k];
    }
  }
}
