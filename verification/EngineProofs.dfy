/** The halt latch and the agreement of broker and portfolio over whole runs of the trading loop. */
module EngineProofs {
  import opened Base
  import opened Broker
  import opened BrokerProofs
  import opened BrokerTheorems
  import opened Engine
  import BrokerRuns
  import Accounting
  import AccountingProofs
  import FundingRuns

  // ---------------------------------------------------------------- cancelling

  /** Only cancellations happened at the broker. */
  ghost predicate OnlyCancelled(b: Book, e: Book) {
    && AtRest(e) && Typed(e) && Grows(b, e)
    && e == b.(orders := e.orders, market := e.market, stops := e.stops, tp := e.tp, tpSide := e.tpSide)
    && (forall x | IsNew(e, x) :: IsNew(b, x))
  }

  lemma CancelledTwice(b: Book, e: Book, f: Book)
    requires OnlyCancelled(b, e) && OnlyCancelled(e, f)
    ensures OnlyCancelled(b, f)
  {
    hide AtRest, Typed;
  }

  lemma CancelOnlyCancels(b: Book, c: Coid)
    requires AtRest(b) && Typed(b)
    ensures OnlyCancelled(b, Broker.Cancel(b, c).0) && !IsNew(Broker.Cancel(b, c).0, c)
  {
    BrokerRuns.CancelOk(b, c);
    BrokerRuns.SelfGrows(b);
    hide AtRest, Typed, Grows;
  }

  lemma SelfCancelled(b: Book)
    requires AtRest(b) && Typed(b)
    ensures OnlyCancelled(b, b)
  {
    BrokerRuns.SelfGrows(b);
  }

  lemma {:induction false} CancelEntriesOk(e: Loop, todo: seq<Coid>, done: set<int>)
    requires AtRest(e.book) && Typed(e.book)
    ensures var (f, _) := CancelEntries(e, todo, done);
            && f == e.(book := f.book) && OnlyCancelled(e.book, f.book)
            && forall c | c in todo && IsEntry(e, c) :: !IsNew(f.book, c)
    decreases |todo|
  {
    SelfCancelled(e.book);
    if todo != [] {
      var c, rest := todo[0], todo[1..];
      assert todo == [c] + rest;
      CancelOnlyCancels(e.book, c);
      BrokerRuns.CancelOk(e.book, c);
      hide AtRest, Typed, Grows, Broker.Cancel;
      var b := Broker.Cancel(e.book, c).0;
      if IsEntry(e, c) && Broker.Cancel(e.book, c).1 {
        var e1 := e.(book := b);
        CancelEntriesOk(e1, rest, done + {e.recs[c].decision});
        CancelledTwice(e.book, b, CancelEntries(e1, rest, done + {e.recs[c].decision}).0.book);
      } else {
        CancelEntriesOk(e, rest, done);
      }
    }
  }

  lemma {:induction false} CancelStopsOk(e: Loop, todo: seq<Coid>, done: set<int>)
    requires AtRest(e.book) && Typed(e.book)
    ensures var f := CancelStopsOf(e, todo, done); f == e.(book := f.book) && OnlyCancelled(e.book, f.book)
    decreases |todo|
  {
    SelfCancelled(e.book);
    if todo != [] {
      var c, rest := todo[0], todo[1..];
      CancelOnlyCancels(e.book, c);
      hide AtRest, Typed, Grows, Broker.Cancel;
      var e1 := if c in e.recs && e.recs[c].isStop
        && e.recs[c].decision in done then e.(book := Broker.Cancel(e.book, c).0) else e;
      CancelStopsOk(e1, rest, done);
      CancelledTwice(e.book, e1.book, CancelStopsOf(e1, rest, done).book);
    }
  }

  /** After the latch has acted no live order can enlarge the position. */
  lemma LatchClears(e: Loop, env: Env, stray: real)
    requires LoopOk(e, stray) && ValidEnv(env)
    ensures var f := CancelPendingIncreases(e, env);
            f == e.(book := f.book) && OnlyCancelled(e.book, f.book) && AllReduceOnly(f.book)
  {
    CancelEntriesOk(e, e.open, {});
    var (e1, done) := CancelEntries(e, e.open, {});
    var f := CancelPendingIncreases(e, env);
    LoopWatches(e, stray);
    hide LoopOk, AtRest, Typed, Grows;
    if done != {} {
      CancelStopsOk(e1, e1.open, done);
      var e2 := CancelStopsOf(e1, e1.open, done);
      CancelledTwice(e.book, e1.book, e2.book);
      ProfitCancelled(e.book, e2.book, f.book);
    }
    hide CancelEntries, CancelPendingIncreases;
    forall c | IsNew(f.book, c) ensures f.book.orders[c].req.reduceOnly {
      assert IsNew(e1.book, c) && IsNew(e.book, c);
      assert Watched(e, c);
      SameRequest(e.book, f.book, c);
    }
  }

  lemma LoopWatches(e: Loop, stray: real)
    requires LoopOk(e, stray)
    ensures AtRest(e.book) && Typed(e.book) && forall c | IsNew(e.book, c) :: Watched(e, c)
  {
  }

  lemma ProfitCancelled(b: Book, e: Book, f: Book)
    requires OnlyCancelled(b, e) && f == e.(tp := f.tp, tpSide := f.tpSide)
    ensures OnlyCancelled(b, f)
  {
    Unrelated(e, f, e.market + e.stops, None);
  }

  lemma SameRequest(b: Book, f: Book, c: Coid)
    requires OnlyCancelled(b, f) && IsNew(b, c) && c in f.orders
    ensures f.orders[c].req == b.orders[c].req
  {
  }

  // ---------------------------------------------------------------- what exactly the latch cancels

  /** The decisions whose entries are live among `todo`. */
  ghost function LiveDecisions(e: Loop, todo: seq<Coid>): set<int> {
    set c | c in todo && IsEntry(e, c) && IsNew(e.book, c) :: e.recs[c].decision
  }

  /** The protective stop of one of these decisions. */
  ghost predicate StopOf(e: Loop, c: Coid, done: set<int>) {
    c in e.recs && e.recs[c].isStop && e.recs[c].decision in done
  }

  lemma {:induction false} EntriesExactly(e: Loop, todo: seq<Coid>, done: set<int>)
    requires AtRest(e.book) && Typed(e.book)
    ensures var (f, out) := CancelEntries(e, todo, done);
            && out == done + LiveDecisions(e, todo)
            && forall c :: IsNew(f.book, c) <==> IsNew(e.book, c) && !(c in todo && IsEntry(e, c))
    decreases |todo|
  {
    if todo != [] {
      var (c, rest) := (todo[0], todo[1..]);
      assert todo == [c] + rest;
      BrokerRuns.CancelOk(e.book, c);
      hide AtRest, Typed, Grows, Broker.Cancel;
      var b := Broker.Cancel(e.book, c).0;
      if IsEntry(e, c) && Broker.Cancel(e.book, c).1 {
        var e1 := e.(book := b);
        EntriesExactly(e1, rest, done + {e.recs[c].decision});
        OneDecision(e, e1, c, rest);
      } else {
        EntriesExactly(e, rest, done);
        NoDecision(e, c, rest);
      }
      hide LiveDecisions;
    } else {
      assert LiveDecisions(e, todo) == {};
    }
  }

  lemma OneDecision(e: Loop, e1: Loop, c: Coid, rest: seq<Coid>)
    requires IsEntry(e, c) && IsNew(e.book, c) && e1 == e.(book := e1.book)
    requires forall x :: IsNew(e1.book, x) <==> IsNew(e.book, x) && x != c
    ensures LiveDecisions(e, [c] + rest) == {e.recs[c].decision} + LiveDecisions(e1, rest)
  {
  }

  lemma NoDecision(e: Loop, c: Coid, rest: seq<Coid>)
    requires !(IsEntry(e, c) && IsNew(e.book, c))
    ensures LiveDecisions(e, [c] + rest) == LiveDecisions(e, rest)
  {
  }

  lemma {:induction false} StopsExactly(e: Loop, todo: seq<Coid>, done: set<int>)
    requires AtRest(e.book) && Typed(e.book)
    ensures var f := CancelStopsOf(e, todo, done);
            forall c :: IsNew(f.book, c) <==> IsNew(e.book, c) && !(c in todo && StopOf(e, c, done))
    decreases |todo|
  {
    if todo != [] {
      var (c, rest) := (todo[0], todo[1..]);
      assert todo == [c] + rest;
      BrokerRuns.CancelOk(e.book, c);
      hide AtRest, Typed, Grows, Broker.Cancel;
      StopsExactly(if StopOf(e, c, done) then e.(book := Broker.Cancel(e.book, c).0) else e, rest, done);
    }
  }

  /** The latch cancels exactly the entries that have not been executed and the stops that were meant for them, and with
      any entry the take-profit; the stops of the position held stay. */
  lemma LatchCancelsExactly(e: Loop, env: Env, stray: real, c: Coid)
    requires LoopOk(e, stray) && ValidEnv(env)
    ensures var (f, done) := (CancelPendingIncreases(e, env), LiveDecisions(e, e.open));
            && (IsNew(f.book, c) <==> IsNew(e.book, c) && !IsEntry(e, c) && !StopOf(e, c, done))
            && (if done == {} then f.book.tp == e.book.tp && f.book.tpSide == e.book.tpSide
                else f.book.tp.None? && f.book.tpSide == 0)
            && f.book.liq == e.book.liq
  {
    LoopWatches(e, stray);
    EntriesExactly(e, e.open, {});
    CancelEntriesOk(e, e.open, {});
    var (e1, done) := CancelEntries(e, e.open, {});
    assert done == LiveDecisions(e, e.open);
    hide LoopOk, AtRest, Typed, Grows, CancelEntries, LiveDecisions;
    EntriesFrame(e, e.open, {});
    if done != {} {
      StopsExactly(e1, e1.open, done);
      CancelStopsOk(e1, e1.open, done);
    } else {
      assert forall x :: !StopOf(e, x, done);
    }
    if IsNew(e.book, c) { assert Watched(e, c); }
  }

  lemma {:induction false} EntriesFrame(e: Loop, todo: seq<Coid>, done: set<int>)
    ensures var f := CancelEntries(e, todo, done).0; f.book.tp == e.book.tp && f.book.tpSide == e.book.tpSide
    decreases |todo|
  {
    if todo != [] {
      var c := todo[0];
      if IsEntry(e, c) && Broker.Cancel(e.book, c).1 {
        EntriesFrame(e.(book := Broker.Cancel(e.book, c).0), todo[1..], done + {e.recs[c].decision});
      } else {
        EntriesFrame(e, todo[1..], done);
      }
    }
  }

  lemma CancelKeepsLoop(e: Loop, f: Loop, stray: real)
    requires LoopOk(e, stray) && f == e.(book := f.book) && OnlyCancelled(e.book, f.book)
    ensures LoopOk(f, stray)
  {
    hide AtRest, Typed;
    forall c | IsNew(f.book, c) ensures Watched(f, c) {
      assert Watched(e, c);
    }
  }

  /** A bar adds charges only if a position was held into it. */
  lemma BarGrows(b: Book, env: Env, bar: Bar)
    requires ValidEnv(env) && BarOk(bar) && OnBar(b, env, bar).Some?
    ensures var e := OnBar(b, env, bar).value; b.charges <= e.charges && (b.position == 0.0 ==> e.charges == b.charges)
  {
    FundingRuns.OnBarCharges(b, env, bar);
    FundingRuns.ChargesGrow(b, env, bar);
    hide OnBar;
  }

  // ---------------------------------------------------------------- booking

  lemma {:induction false} ChargesBooked(a: Accounting.Account, cs: seq<Charge>, stray: real)
    requires AccountingProofs.AccountOk(a, stray) && (cs != [] ==> Accounting.PosOf(a, SYM).qty != 0.0)
    ensures var r := ApplyCharges(a, cs);
            AccountingProofs.AccountOk(r, stray) && r.initial == a.initial
            && Accounting.PosOf(r, SYM).qty == Accounting.PosOf(a, SYM).qty
  {
    if cs != [] {
      hide AccountingProofs.AccountOk;
      ChargesBooked(a, cs[..|cs| - 1], stray);
      AccountingProofs.FundingKeeps(ApplyCharges(a, cs[..|cs| - 1]), stray, SYM, cs[|cs| - 1].amount);
    }
  }

  /** Booking fills moves the portfolio by their signed sum. */
  lemma {:induction false} FillsBooked(e: Loop, fs: seq<Fill>, stray: real)
    requires AccountingProofs.AccountOk(e.acct, stray) && forall f | f in fs :: f.qty > 0.0
    ensures var r := ApplyFills(e, fs);
            && AccountingProofs.AccountOk(r.acct, stray) && r.acct.initial == e.acct.initial
                 && r == e.(recs := r.recs, acct := r.acct)
            && Accounting.PosOf(r.acct, SYM).qty == Accounting.PosOf(e.acct, SYM).qty + Net(fs)
  {
    if fs != [] {
      var n := |fs| - 1;
      var init, f := fs[..n], fs[n];
      assert f in fs && forall g | g in init :: g in fs;
      FillsBooked(e, init, stray);
      var a := ApplyFills(e, init).acct;
      var x := Accounting.Execution(SYM, f.side, f.qty, f.price, f.fee, f.ts);
      AccountingProofs.FillKeeps(a, stray, x);
      FillMoves(a, stray, x);
      assert Accounting.ApplyFill(a, x).initial == a.initial;
      hide AccountingProofs.AccountOk, Accounting.ApplyFill, RecFor;
    }
  }

  /** ... and touches only the records of the filled orders. */
  lemma {:induction false} FillRecords(e: Loop, fs: seq<Fill>)
    requires forall f | f in fs :: f.qty > 0.0
    ensures var r := ApplyFills(e, fs);
            && r.book == e.book && r.open == e.open
            && (forall c | c in e.recs :: c in r.recs && r.recs[c].req == e.recs[c].req)
            && (forall c | c in r.recs :: HasFill(fs, c) || (c in e.recs && r.recs[c] == e.recs[c]))
  {
    if fs != [] {
      var n := |fs| - 1;
      var init, f := fs[..n], fs[n];
      assert f in fs && forall g | g in init :: g in fs;
      FillRecords(e, init);
      hide Accounting.ApplyFill;
      assert fs[n].coid == f.coid;
      forall c | HasFill(init, c) ensures HasFill(fs, c) {
        var i :| 0 <= i < |init| && init[i].coid == c;
        assert fs[i].coid == c;
      }
    }
  }

  lemma FillMoves(a: Accounting.Account, stray: real, x: Accounting.Execution)
    requires AccountingProofs.AccountOk(a, stray) && x.qty > 0.0
    ensures Accounting.PosOf(Accounting.ApplyFill(a, x), x.instrument).qty == Accounting.PosOf(a, x.instrument).qty
            + Signed(x.side, x.qty)
  {
    AccountingProofs.FlatOk();
    AccountingProofs.FillKeepsPosition(Accounting.PosOf(a, x.instrument), x);
    hide Accounting.Fill1, AccountingProofs.PositionOk, AccountingProofs.TradeOk, AccountingProofs.Carry;
  }

  lemma {:induction false} NetConcat(fs: seq<Fill>, gs: seq<Fill>)
    ensures Net(fs + gs) == Net(fs) + Net(gs)
  {
    if gs == [] {
      assert fs + gs == fs;
    } else {
      var n := |gs| - 1;
      assert (fs + gs)[..|fs| + n] == fs + gs[..n];
      NetConcat(fs, gs[..n]);
    }
  }

  // ---------------------------------------------------------------- the watch list

  /** After the sync the watch list is exactly the list of live orders. */
  lemma {:induction false} SyncOk(e: Loop, todo: seq<Coid>, keep: seq<Coid>)
    requires (forall c | c in todo :: c in e.recs && c in e.book.orders)
    requires forall c | c in todo && IsNew(e.book, c) :: e.recs[c].status == Known(New)
    ensures var f := SyncFrom(e, todo, keep);
            && f == e.(recs := f.recs, open := f.open) && f.recs.Keys == e.recs.Keys
            && (forall c | c in f.recs :: f.recs[c].req == e.recs[c].req && f.recs[c].isStop == e.recs[c].isStop)
            && (forall c | c in f.recs && IsNew(e.book, c) :: f.recs[c] == e.recs[c] || f.recs[c].status == Known(New))
            && (forall c :: c in f.open <==> c in keep || (c in todo && IsNew(e.book, c)))
    decreases |todo|
  {
    if todo != [] {
      var c, rest := todo[0], todo[1..];
      assert c in todo && todo == [c] + rest;
      var rec := Synced(e, c);
      var e1 := e.(recs := e.recs[c := rec]);
      SyncOk(e1, rest, if IsFinal(rec.status) then keep else keep + [c]);
    }
  }

  // ---------------------------------------------------------------- one step

  lemma PrepareOk(e: Loop, env: Env, tick: Tick, stray: real)
    requires LoopOk(e, stray) && ValidEnv(env)
    ensures var f := Prepared(e, env, tick);
            && LoopOk(f, stray) && f == e.(book := f.book) && f.book.position == e.book.position
            && f.book.lastOpen == e.book.lastOpen && f.book.fills == e.book.fills
            && (tick.latched ==> AllReduceOnly(f.book))
  {
    var e0 := if tick.rate.Some? then e.(book := e.book.(rate := tick.rate.value)) else e;
    Unrelated(e.book, e0.book, e.book.market + e.book.stops, None);
    assert LoopOk(e0, stray) by {
      hide Ok, AccountingProofs.AccountOk;
      assert forall c | IsNew(e.book, c) :: Watched(e, c);
    }
    LatchClears(e0, env, stray);
    hide AtRest, Typed, AccountingProofs.AccountOk, CancelPendingIncreases;
    if tick.latched && e0.open != [] {
      CancelKeepsLoop(e0, CancelPendingIncreases(e0, env), stray);
    } else if tick.latched {
      assert forall c | IsNew(e0.book, c) :: Watched(e0, c);
    }
  }

  lemma BarContinues(b: Book, env: Env, bar: Bar)
    requires AtRest(b) && ValidEnv(env) && BarOk(bar) && OnBar(b, env, bar).Some?
    ensures Continues(b, OnBar(b, env, bar).value)
  {
    OnBarOk(b, env, bar);
    BarGrows(b, env, bar);
    hide OnBar, Queued;
  }

  /** The records after the fills of a bar still know every live order. */
  lemma FillsKeepTracks(e: Loop, after: Book, fills: seq<Fill>)
    requires AtRest(e.book) && Tracks(e) && Follows(e.book, after) && after.fills == e.book.fills + fills
             && forall f | f in fills :: f.qty > 0.0
    ensures Tracks(ApplyFills(e.(book := after), fills))
  {
    var e1 := e.(book := after);
    var r := ApplyFills(e1, fills);
    FillRecords(e1, fills);
    forall c | HasFill(fills, c) ensures c in after.orders && after.orders[c].status.Filled? {
      FillInWhole(e.book.fills, fills, c);
      assert HasFill(after.fills, c);
    }
    hide ApplyFills, Distinct;
    forall c | IsNew(after, c) ensures Watched(r, c) && r.recs[c].status == Known(New) {
      assert c in after.market + after.stops;
      assert c in e.book.market + e.book.stops;
      assert IsNew(e.book, c);
      assert Watched(e, c) && !HasFill(fills, c);
    }
  }

  lemma FillInWhole(fs: seq<Fill>, gs: seq<Fill>, c: Coid)
    requires HasFill(gs, c)
    ensures HasFill(fs + gs, c)
  {
    var i :| 0 <= i < |gs| && gs[i].coid == c;
    assert (fs + gs)[|fs| + i].coid == c;
  }

  lemma SyncKeepsTracks(e: Loop)
    requires Tracks(e)
    ensures var f := SyncFrom(e, e.open, []); Tracks(f) && Exact(f) && f == e.(recs := f.recs, open := f.open)
  {
    var f := SyncFrom(e, e.open, []);
    assert forall c | IsNew(e.book, c) :: Watched(e, c);
    SyncOk(e, e.open, []);
    hide SyncFrom;
    forall c | IsNew(f.book, c) ensures Watched(f, c) && f.recs[c].status == Known(New) {
      assert Watched(e, c);
    }
  }

  /** The position moved by the new fills. */
  lemma PositionMoves(b: Book, after: Book)
    requires AtRest(b) && Follows(b, after)
    ensures var fills := after.fills[|b.fills|..];
            after.fills == b.fills + fills && after.position == b.position + Net(fills)
  {
    NetConcat(b.fills, after.fills[|b.fills|..]);
    assert after.fills == b.fills + after.fills[|b.fills|..];
    hide Queued;
  }

  lemma SettledOk(e: Loop, after: Book, liq: Option<real>, close: real, stray: real)
    requires LoopOk(e, stray) && Follows(e.book, after) && Continues(e.book, after)
    requires e.book.position == 0.0 ==> after.charges == e.book.charges
    ensures var f := Settled(e, after, liq, close);
            LoopOk(f, stray) && Exact(f) && f.book == after.(liq := f.book.liq) && f.acct.initial == e.acct.initial
  {
    var charges, fills := after.charges[|e.book.charges|..], after.fills[|e.book.fills|..];
    PositionMoves(e.book, after);
    BrokerRuns.BarTyped(e.book, after);
    hide AtRest, Follows, Typed, Tracks, AccountingProofs.AccountOk, ApplyCharges, ApplyFills, SyncFrom, Settled;
    ChargesBooked(e.acct, charges, stray);
    var charged := e.(book := after, acct := ApplyCharges(e.acct, charges));
    assert forall f | f in fills :: f.qty > 0.0;
    assert Tracks(e.(acct := charged.acct)) by { TracksOnly(e, e.(acct := charged.acct)); }
    FillsKeepTracks(e.(acct := charged.acct), after, fills);
    FillsBooked(charged, fills, stray);
    var filled := ApplyFills(charged, fills);
    SyncKeepsTracks(filled);
    MarkedOk(e, after, liq, close, stray, filled);
  }

  lemma TracksOnly(e: Loop, f: Loop)
    requires Tracks(e) && f == e.(acct := f.acct)
    ensures Tracks(f)
  {
    forall c | IsNew(f.book, c) ensures Watched(f, c) && f.recs[c].status == Known(New) {
      assert Watched(e, c);
    }
  }

  lemma MarkedOk(e: Loop, after: Book, liq: Option<real>, close: real, stray: real, filled: Loop)
    requires Continues(e.book, after)
    requires var charged := e.(book := after, acct := ApplyCharges(e.acct, after.charges[|e.book.charges|..]));
             filled == ApplyFills(charged, after.fills[|e.book.fills|..])
    requires filled.book == after && LoopOk(filled, stray) && filled.acct.initial == e.acct.initial
    requires var f := SyncFrom(filled, filled.open, []);
             Tracks(f) && Exact(f) && f == filled.(recs := f.recs, open := f.open)
    ensures var f := Settled(e, after, liq, close);
            LoopOk(f, stray) && Exact(f) && f.book == after.(liq := f.book.liq) && f.acct.initial == e.acct.initial
  {
    hide ApplyFills, ApplyCharges, AccountingProofs.AccountOk, Ok, Grows, SyncFrom;
    var f := Settled(e, after, liq, close);
    var synced := if filled.open == [] then filled else SyncFrom(filled, filled.open, []);
    AccountingProofs.MarkKeeps(synced.acct, stray, SYM, close);
    Unrelated(after, f.book, after.market + after.stops, None);
    assert Tracks(synced) && Exact(synced) by {
      assert filled.open == [] ==> forall c | IsNew(filled.book, c) :: Watched(filled, c);
    }
    assert f == synced.(book := f.book, acct := f.acct) && f.book.orders == synced.book.orders;
    TracksSame(synced, f);
    assert Typed(f.book);
  }

  lemma TracksSame(e: Loop, f: Loop)
    requires Tracks(e) && Exact(e) && f.recs == e.recs && f.open == e.open && f.book.orders == e.book.orders
    ensures Tracks(f) && Exact(f)
  {
    forall c | IsNew(f.book, c) ensures Watched(f, c) && f.recs[c].status == Known(New) {
      assert IsNew(e.book, c) && Watched(e, c);
    }
    forall c ensures c in f.open <==> IsNew(f.book, c) {
      assert c in e.open <==> IsNew(e.book, c);
    }
  }

  // ---------------------------------------------------------------- orders

  ghost predicate SameMoney(e: Loop, f: Loop) {
    f.acct == e.acct && f.book.fills == e.book.fills && f.book.position == e.book.position
      && f.book.lastOpen == e.book.lastOpen
  }

  /** A new order is on record and watched if and only if the broker keeps it alive. */
  lemma SendOk(e: Loop, env: Env, req: Request, decision: int, isStop: bool, stray: real)
    requires LoopOk(e, stray) && Exact(e) && ValidEnv(env) && req.coid.Client? && req.coid !in e.book.orders
    requires req.otype.StopMarket? ==> req.reduceOnly
    ensures var f := Send(e, env, req, decision, isStop);
            LoopOk(f, stray) && Exact(f) && SameMoney(e, f)
  {
    BrokerRuns.SubmitOk(e.book, env, req);
    BrokerRuns.SubmitShape(e.book, env, req);
    hide Submit, AtRest, Typed, Grows, AccountingProofs.AccountOk, Tracks, Exact, Watched;
    var f := Send(e, env, req, decision, isStop);
    SendTracks(e, f, req, decision, isStop);
  }

  lemma SendTracks(e: Loop, f: Loop, req: Request, decision: int, isStop: bool)
    requires Tracks(e) && Exact(e) && req.coid !in e.book.orders && (req.otype.StopMarket? ==> req.reduceOnly)
    requires req.coid in f.book.orders && f.book.orders == e.book.orders[req.coid := f.book.orders[req.coid]]
    requires var o := f.book.orders[req.coid];
             && o.req.otype == req.otype && (o.status.New? ==> o.req.reduceOnly == req.reduceOnly)
             && f.recs == e.recs[req.coid := Rec(req, decision, isStop, Known(o.status), 0.0)]
             && f.open == if o.status.New? then e.open + [req.coid] else e.open
    ensures Tracks(f) && Exact(f)
  {
    forall c ensures c in f.open <==> IsNew(f.book, c) {
      assert c in e.open <==> IsNew(e.book, c);
    }
    forall c | IsNew(f.book, c) ensures Watched(f, c) && f.recs[c].status == Known(New) {
      if c != req.coid {
        assert IsNew(e.book, c) && Watched(e, c);
      }
    }
  }

  lemma ProfitOk(e: Loop, env: Env, tp: Option<real>, side: Option<Side>, stray: real)
    requires LoopOk(e, stray) && Exact(e) && ValidEnv(env)
    ensures var f := e.(book := SetTakeProfit(e.book, env, tp, side)); LoopOk(f, stray) && Exact(f)
  {
    var f := e.(book := SetTakeProfit(e.book, env, tp, side));
    Unrelated(e.book, f.book, e.book.market + e.book.stops, None);
    TracksSame(e, f);
    hide Ok, AccountingProofs.AccountOk, Tracks, Exact;
  }

  lemma SubmitTargetOk(e: Loop, env: Env, target: Target, stray: real)
    requires LoopOk(e, stray) && Exact(e) && ValidEnv(env)
    ensures var f := SubmitTarget(e, env, target);
            LoopOk(f, stray) && Exact(f) && SameMoney(e, f)
  {
    hide LoopOk, Exact, Send, FloorQty, QuantizePrice;
    var Target(approved, stop, tp, decision, closeNs) := target;
    var cur := Accounting.PosOf(e.acct, SYM).qty;
    var delta := approved - cur;
    if delta != 0.0 {
      var req := Request(Client(FreshId(e.book)), env.symbol, if delta > 0.0 then Long else Short, Market,
                         FloorQty(Abs(delta), env.step), None, PureReduction(cur, approved), closeNs);
      SendOk(e, env, req, decision, false, stray);
      var e1 := Send(e, env, req, decision, false);
      var side := if approved > 0.0 then Long else Short;
      var e2 := e1;
      if stop.Some? {
        var sreq := Request(Client(FreshId(e1.book)), env.symbol, Opposite(side), StopMarket, Abs(approved), stop, true,
          closeNs);
        SendOk(e1, env, sreq, decision, true, stray);
        e2 := Send(e1, env, sreq, decision, true);
      }
      ProfitOk(e2, env, tp, if tp.None? then None else Some(side), stray);
    }
  }

  // ---------------------------------------------------------------- the theorems

  /** A step exists exactly for a bar that follows the previous one, and keeps the invariant. */
  lemma StepOk(e: Loop, env: Env, tick: Tick, stray: real)
    requires LoopOk(e, stray) && ValidEnv(env) && BarOk(tick.bar)
    ensures Step(e, env, tick).Some? <==> e.book.lastOpen.None? || e.book.lastOpen.value < tick.bar.t
    ensures Step(e, env, tick).Some? ==>
              var f := Step(e, env, tick).value;
              && LoopOk(f, stray) && Exact(f) && e.book.fills <= f.book.fills
              && f.acct.initial == e.acct.initial && f.book.lastOpen == Some(tick.bar.t)
    ensures tick.latched && Step(e, env, tick).Some? ==> Shrinks(|e.book.fills|, Step(e, env, tick).value.book)
  {
    hide OnBar, Prepared, Settled, SubmitTarget, LoopOk, Exact, AtRest, Follows, AllReduceOnly, Shrinks;
    PrepareOk(e, env, tick, stray);
    var e0 := Prepared(e, env, tick);
    var r := OnBar(e0.book, env, tick.bar);
    OnBarSome(e0.book, env, tick.bar);
    LoopRest(e0, stray);
    if r.Some? {
      OnBarOk(e0.book, env, tick.bar);
      BarGrows(e0.book, env, tick.bar);
      BarContinues(e0.book, env, tick.bar);
      if tick.latched {
        BarOnlyReduces(e0.book, env, tick.bar);
      }
      SettledOk(e0, r.value, tick.liq, tick.bar.c, stray);
      var s := Settled(e0, r.value, tick.liq, tick.bar.c);
      if tick.target.Some? {
        SubmitTargetOk(s, env, tick.target.value, stray);
      }
      if tick.latched {
        SameFills(|e.book.fills|, r.value, Step(e, env, tick).value.book);
      }
    }
  }

  lemma LoopRest(e: Loop, stray: real)
    requires LoopOk(e, stray)
    ensures AtRest(e.book)
  {
  }

  lemma OnBarSome(b: Book, env: Env, bar: Bar)
    requires ValidEnv(env)
    ensures OnBar(b, env, bar).Some? <==> b.lastOpen.None? || b.lastOpen.value < bar.t
    ensures OnBar(b, env, bar).Some? ==> OnBar(b, env, bar).value.lastOpen == Some(bar.t)
  {
  }

  /** The loop after a sequence of bars; None as soon as a bar does not follow the previous one (the source raises). */
  function Run(deposit: real, rate: real, env: Env, ticks: seq<Tick>): Option<Loop>
    requires ValidEnv(env)
  {
    if ticks == [] then Some(Begin(deposit, rate))
    else
      var r := Run(deposit, rate, env, ticks[..|ticks| - 1]);
      if r.None? then None else Step(r.value, env, ticks[|ticks| - 1])
  }

  ghost predicate InOrder(ticks: seq<Tick>) {
    && (forall k | k in ticks :: BarOk(k.bar))
    && forall i | 0 < i < |ticks| :: ticks[i - 1].bar.t < ticks[i].bar.t
  }

  lemma BeginOk(deposit: real, rate: real)
    ensures LoopOk(Begin(deposit, rate), 0.0) && Exact(Begin(deposit, rate))
  {
    hide AtRest, Typed, AccountingProofs.AccountOk;
    BrokerRuns.EmptyOk(rate);
    AccountingProofs.OpenOk(deposit);
  }

  lemma {:induction false} RunOk(deposit: real, rate: real, env: Env, ticks: seq<Tick>)
    requires ValidEnv(env) && InOrder(ticks)
    ensures var r := Run(deposit, rate, env, ticks);
            && r.Some? && LoopOk(r.value, 0.0) && Exact(r.value) && r.value.acct.initial == deposit
            && r.value.book.lastOpen == if ticks == [] then None else Some(ticks[|ticks| - 1].bar.t)
  {
    hide LoopOk, Exact, Step;
    if ticks == [] {
      BeginOk(deposit, rate);
    } else {
      var n := |ticks| - 1;
      var last := ticks[n];
      assert last in ticks && forall k | k in ticks[..n] :: k in ticks;
      RunOk(deposit, rate, env, ticks[..n]);
      StepOk(Run(deposit, rate, env, ticks[..n]).value, env, last, 0.0);
    }
  }

  /** In any run, from the first to the last fill of a bar that begins with the latch set, no fill enlarges the position
      or turns it round, whatever is pending, whatever the bar, the stops, the take-profit, the liquidation level and
      the decision at its close. */
  lemma LatchedNeverGrows(deposit: real, rate: real, env: Env, ticks: seq<Tick>)
    requires ValidEnv(env) && InOrder(ticks) && ticks != [] && ticks[|ticks| - 1].latched
    ensures var before, after := Run(deposit, rate, env, ticks[..|ticks| - 1]), Run(deposit, rate, env, ticks);
            && before.Some? && after.Some?
            && var b, e := before.value.book, after.value.book;
               && b.fills <= e.fills && Reduces(b.position, e.position)
               && forall n, m | |b.fills| <= n <= m <= |e.fills| :: Reduces(Net(e.fills[..n]), Net(e.fills[..m]))
  {
    var n := |ticks| - 1;
    var last := ticks[n];
    assert last in ticks && forall k | k in ticks[..n] :: k in ticks;
    RunOk(deposit, rate, env, ticks[..n]);
    var e := Run(deposit, rate, env, ticks[..n]).value;
    LoopRest(e, 0.0);
    RestNet(e.book);
    hide LoopOk, Step, AtRest;
    StepOk(e, env, last, 0.0);
    ShrinksMeans(|e.book.fills|, e.book, Step(e, env, last).value.book);
  }

  /** In any run the loop watches exactly the live orders; portfolio, broker and fills agree on the position; and the
      accounting check never fires: the two forms of equity are equal. */
  lemma BooksAgree(deposit: real, rate: real, env: Env, ticks: seq<Tick>)
    requires ValidEnv(env) && InOrder(ticks)
    ensures var r := Run(deposit, rate, env, ticks);
            && r.Some?
            && (forall c :: c in r.value.open <==> IsNew(r.value.book, c))
            && Accounting.PosOf(r.value.acct, SYM).qty == r.value.book.position == Net(r.value.book.fills)
            && Accounting.EquityCashForm(r.value.acct) == Accounting.Equity(r.value.acct)
  {
    RunOk(deposit, rate, env, ticks);
    var e := Run(deposit, rate, env, ticks).value;
    hide Run;
    AccountingProofs.FormsAgree(e.acct, 0.0);
  }

  /** Funding is only ever booked on an open position, so in any run that ends flat the closed trades account for all
      the money that was won or lost. */
  lemma FlatRunIsItsTrades(deposit: real, rate: real, env: Env, ticks: seq<Tick>)
    requires ValidEnv(env) && InOrder(ticks)
    ensures var r := Run(deposit, rate, env, ticks);
            && r.Some?
            && ((forall i | i in r.value.acct.positions :: r.value.acct.positions[i].qty == 0.0) ==>
                  Accounting.Equity(r.value.acct) == deposit + AccountingProofs.SumPnl(r.value.acct.closed))
  {
    RunOk(deposit, rate, env, ticks);
    var a := Run(deposit, rate, env, ticks).value.acct;
    hide Run;
    if forall i | i in a.positions :: a.positions[i].qty == 0.0 {
      AccountingProofs.AllFlat(a, a.order);
    }
  }
}
