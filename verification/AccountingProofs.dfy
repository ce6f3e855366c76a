/** The two forms of equity agree after every event, and closed trades account for every unit of money. */
module AccountingProofs {
  import opened Base
  import opened Broker
  import opened Accounting

  // ---------------------------------------------------------------- one position

  /** Average cost, trade quantities and trade PnL of one position agree. */
  ghost predicate PositionOk(p: Position) {
    && (p.qty == 0.0 ==> p.cost == 0.0)
    && (p.qty != 0.0 ==>
          && p.tSide == SignOf(p.qty) && p.openedAt.Some?
          && p.tEntryQty - p.tExitQty == Abs(p.qty) && p.tExitQty >= 0.0
          && p.tRealized == Signed(SideOf(p.qty), p.tExitNotional - p.tEntryNotional) + p.cost
          && Abs(p.qty) <= p.tMax <= p.tEntryQty)
  }

  /** A closed trade: its gross PnL is what it sold for minus what it paid, on equal quantities. */
  ghost predicate TradeOk(t: ClosedTrade) {
    && t.side != 0
    && t.gross == (if t.side > 0 then t.exitNotional - t.entryNotional else t.entryNotional - t.exitNotional)
    && t.pnl == t.gross - t.fees - t.funding
    && exists q :: BothLegs(t, q)
  }

  /** `q` was bought and sold: the two notionals are `q` times the two average prices, and the peak never exceeds it. */
  ghost predicate BothLegs(t: ClosedTrade, q: real) {
    0.0 < t.qty <= q && t.entryNotional == q * t.entryPrice && t.exitNotional == q * t.exitPrice
  }

  /** What the open trade has earned so far, net. */
  function Carry(p: Position): real {
    if p.qty == 0.0 then 0.0 else p.tRealized - p.tFees - p.tFunding
  }

  lemma SplitNotional(a: real, b: real, price: real)
    ensures (a + b) * price == a * price + b * price
  {
  }

  lemma ReduceOk(p: Position, x: Execution)
    requires PositionOk(p) && x.qty > 0.0 && !Increases(p, x)
    ensures var r := Reduce(p, x);
            && r.tEntryQty - r.tExitQty == Abs(r.qty) && r.tExitQty > 0.0 && r.tMax == p.tMax
                 && r.tEntryQty == p.tEntryQty
            && r.tSide == p.tSide && r.openedAt == p.openedAt
            && r.tRealized == Signed(SideOf(p.qty), r.tExitNotional - r.tEntryNotional) + r.cost
            && (r.qty != 0.0 ==> SignOf(r.qty) == SignOf(p.qty) && x.qty == ClosedQty(p, x))
            && (r.qty == 0.0 <==> x.qty >= Abs(p.qty))
            && Abs(r.qty) <= Abs(p.qty)
  {
  }

  lemma FinishedTradeOk(r: Position, instrument: Symbol, ts: int)
    requires r.tSide != 0 && r.qty == 0.0 && r.tEntryQty == r.tExitQty && r.tEntryQty > 0.0
             && 0.0 < r.tMax <= r.tEntryQty
    requires r.tRealized == if r.tSide > 0 then r.tExitNotional - r.tEntryNotional
             else r.tEntryNotional - r.tExitNotional
    ensures TradeOk(TradeOf(r, instrument, ts))
  {
    var t := TradeOf(r, instrument, ts);
    Quotient(r.tEntryNotional, r.tEntryQty);
    Quotient(r.tExitNotional, r.tExitQty);
    assert BothLegs(t, r.tEntryQty);
  }

  /** What one execution does to a position. */
  ghost predicate FillLaw(p: Position, x: Execution, e: Position, trade: Option<ClosedTrade>, pnl: real) {
    && PositionOk(e) && (trade.Some? ==> TradeOk(trade.value))
    && e.qty == p.qty + Signed(x.side, x.qty)
    && pnl - (e.cost - p.cost) == -Signed(x.side, x.qty * x.price)
    && pnl - x.fee == (if trade.Some? then trade.value.pnl else 0.0) + Carry(e) - Carry(p)
    && e.realized == p.realized + pnl && e.fees == p.fees + x.fee && e.funding == p.funding
  }

  lemma AddKeeps(p: Position, x: Execution)
    requires PositionOk(p) && x.qty > 0.0 && Increases(p, x)
    ensures FillLaw(p, x, Add(p.(fees := p.fees + x.fee), x), None, 0.0)
  {
    var n := x.qty * x.price;
    assert Add(p.(fees := p.fees + x.fee), x).tEntryNotional == (if p.qty == 0.0 then 0.0 else p.tEntryNotional) + n;
  }

  lemma PartialKeeps(p: Position, x: Execution)
    requires PositionOk(p) && x.qty > 0.0 && !Increases(p, x) && x.qty < Abs(p.qty)
    ensures FillLaw(p, x, Reduce(p.(fees := p.fees + x.fee), x), None, Pnl(p, x))
  {
    var p0 := p.(fees := p.fees + x.fee);
    ReduceOk(p0, x);
    var q := ClosedQty(p, x);
    assert q == x.qty && FeeClosed(p0, x) == x.fee && CostRemoved(p, q) == CostRemoved(p0, q);
    hide CostRemoved, FeeClosed;
    var n := q * x.price;
    assert Pnl(p, x) == Signed(SideOf(p.qty), n) - CostRemoved(p, q);
    assert SideOf(p.qty) != x.side;
  }

  lemma CloseKeeps(p: Position, x: Execution)
    requires PositionOk(p) && x.qty > 0.0 && !Increases(p, x) && Abs(p.qty) <= x.qty
    ensures var r := Reduce(p.(fees := p.fees + x.fee), x);
            && r.qty == 0.0 && r.cost == 0.0 && TradeOk(TradeOf(r, x.instrument, x.ts))
            && TradeOf(r, x.instrument, x.ts).pnl == Carry(p) + Pnl(p, x) - FeeClosed(p, x)
            && Pnl(p, x) + p.cost == Signed(SideOf(p.qty), Abs(p.qty) * x.price)
            && r.realized == p.realized + Pnl(p, x) && r.fees == p.fees + x.fee && r.funding == p.funding
            && SideOf(p.qty) != x.side
  {
    var p0 := p.(fees := p.fees + x.fee);
    ReduceOk(p0, x);
    SamePnl(p, p0, x);
    SameFee(p, p0, x);
    WholeCost(p, x);
    hide Pnl, FeeClosed, CostRemoved, TradeOk;
    FinishedTradeOk(Reduce(p0, x), x.instrument, x.ts);
  }

  lemma WholeCost(p: Position, x: Execution)
    requires p.qty != 0.0 && Abs(p.qty) <= x.qty
    ensures Pnl(p, x) + p.cost == Signed(SideOf(p.qty), Abs(p.qty) * x.price)
  {
  }

  lemma ExactKeeps(p: Position, x: Execution)
    requires PositionOk(p) && x.qty > 0.0 && !Increases(p, x) && Abs(p.qty) == x.qty
    ensures var r := Reduce(p.(fees := p.fees + x.fee), x);
            FillLaw(p, x, FinishTrade(r), Some(TradeOf(r, x.instrument, x.ts)), Pnl(p, x))
  {
    CloseKeeps(p, x);
    hide Reduce, Pnl, TradeOk, TradeOf;
  }

  lemma FlipKeeps(p: Position, x: Execution)
    requires PositionOk(p) && x.qty > 0.0 && !Increases(p, x) && Abs(p.qty) < x.qty
    ensures var p0 := p.(fees := p.fees + x.fee);
            var r := Reduce(p0, x);
            FillLaw(p, x, Reopen(FinishTrade(r), x, x.qty - Abs(p.qty), x.fee - FeeClosed(p0, x)),
              Some(TradeOf(r, x.instrument, x.ts)), Pnl(p, x))
  {
    CloseKeeps(p, x);
    hide Reduce, Pnl, TradeOk, TradeOf, FeeClosed;
    SplitNotional(Abs(p.qty), x.qty - Abs(p.qty), x.price);
    assert FeeClosed(p.(fees := p.fees + x.fee), x) == FeeClosed(p, x) by { SameFee(p, p.(fees := p.fees + x.fee), x); }
  }

  lemma SameFee(p: Position, q: Position, x: Execution)
    requires x.qty > 0.0 && p.qty == q.qty
    ensures FeeClosed(p, x) == FeeClosed(q, x)
  {
  }

  /** An execution keeps the position consistent, closes at most one correct trade, moves cost and realised PnL by
      exactly the cash that flowed, and accounts for the fee once. */
  lemma FillKeepsPosition(p: Position, x: Execution)
    requires PositionOk(p) && x.qty > 0.0
    ensures var (e, trade, pnl) := Fill1(p, x); FillLaw(p, x, e, trade, pnl)
  {
    var p0 := p.(fees := p.fees + x.fee);
    SamePnl(p, p0, x);
    if Increases(p0, x) {
      AddKeeps(p, x);
      hide FillLaw, Add;
    } else {
      ReduceOk(p0, x);
      if x.qty < Abs(p.qty) {
        PartialKeeps(p, x);
      } else if x.qty == Abs(p.qty) {
        ExactKeeps(p, x);
      } else {
        FlipKeeps(p, x);
      }
      hide FillLaw, Reduce, Pnl, FeeClosed, Reopen, TradeOf;
    }
  }

  lemma SamePnl(p: Position, q: Position, x: Execution)
    requires p.qty == q.qty && p.cost == q.cost
    ensures p.qty != 0.0 ==> Pnl(p, x) == Pnl(q, x)
  {
  }

  // ---------------------------------------------------------------- average cost

  lemma Ratio(a: real, b: real, c: real)
    requires c > 0.0
    ensures a * b / c * c == a * b
  {
  }

  /** Taking the share `part / whole` out of `cost` leaves the rest at the same average. */
  lemma ShareLeft(cost: real, part: real, whole: real)
    requires whole > 0.0
    ensures (cost - cost * part / whole) * whole == cost * (whole - part)
  {
    Ratio(cost, part, whole);
  }

  lemma ScaledPnl(cost: real, part: real, whole: real, value: real)
    requires whole > 0.0
    ensures (part * value - cost * part / whole) * whole == part * (whole * value - cost)
  {
    Ratio(cost, part, whole);
    assert part * value * whole == part * (whole * value);
  }

  /** An increase realises nothing and adds its notional to the cost. */
  lemma IncreaseAtCost(p: Position, x: Execution)
    requires PositionOk(p) && x.qty > 0.0 && (p.qty == 0.0 || SideOf(p.qty) == x.side)
    ensures var (e, trade, pnl) := Fill1(p, x);
            && pnl == 0.0 && trade.None? && e.qty == p.qty + Signed(x.side, x.qty)
            && e.cost == p.cost + Signed(x.side, x.qty * x.price)
            && e.tFees == x.fee + if p.qty == 0.0 then 0.0 else p.tFees
  {
  }

  /** A reduction realises the difference between the price and the average cost on what it closes, and what is left
      keeps its average cost. */
  lemma ReductionAtAverage(p: Position, x: Execution)
    requires PositionOk(p) && p.qty != 0.0 && SideOf(p.qty) != x.side && 0.0 < x.qty <= Abs(p.qty)
    ensures var (e, trade, pnl) := Fill1(p, x);
            && e.qty == p.qty + Signed(x.side, x.qty)
            && e.cost * p.qty == p.cost * e.qty
            && pnl * Abs(p.qty) == x.qty * (Signed(SideOf(p.qty), Abs(p.qty) * x.price) - p.cost)
            && (if trade.Some? then trade.value.fees else e.tFees) == p.tFees + x.fee
  {
    var a := Abs(p.qty);
    ShareLeft(p.cost, x.qty, a);
    ScaledPnl(p.cost, x.qty, a, if p.qty > 0.0 then x.price else -x.price);
    SignedTimes(p.qty, x.qty, x.price);
    SignedTimes(p.qty, a, x.price);
    var (e, trade, pnl) := Fill1(p, x);
    if x.qty < a {
      assert e.cost == p.cost - p.cost * x.qty / a;
      assert Abs(e.qty) == a - x.qty;
    }
  }

  lemma SignedTimes(q: real, n: real, price: real)
    ensures Signed(SideOf(q), n * price) == n * if q > 0.0 then price else -price
  {
  }

  /** A fill that turns the position round realises the whole difference and opens the rest at its own price; the fee is
      split in the proportion of what is closed and what is opened. */
  lemma FlipAtPrice(p: Position, x: Execution)
    requires PositionOk(p) && p.qty != 0.0 && SideOf(p.qty) != x.side && x.qty > Abs(p.qty)
    ensures var (e, trade, pnl) := Fill1(p, x);
            && e.qty == p.qty + Signed(x.side, x.qty)
            && e.cost == e.qty * x.price
            && pnl == Signed(SideOf(p.qty), Abs(p.qty) * x.price) - p.cost
            && trade.Some? && (trade.value.fees - p.tFees) * x.qty == x.fee * Abs(p.qty)
            && e.tFees * x.qty == x.fee * (x.qty - Abs(p.qty))
  {
    Ratio(x.fee, Abs(p.qty), x.qty);
    ShareLeft(x.fee, Abs(p.qty), x.qty);
  }

  // ---------------------------------------------------------------- the record of a trade

  /** An open trade begins with the fill that opened it and remembers its peak; fills neither move its beginning nor its
      worst result. */
  lemma TradeFollowed(p: Position, x: Execution)
    requires PositionOk(p) && x.qty > 0.0
    ensures var e := Fill1(p, x).0;
            e.qty != 0.0 ==>
              if p.qty != 0.0 && SideOf(p.qty) == SideOf(e.qty)
              then e.openedAt == p.openedAt && e.mae == p.mae && e.tMax == Max(p.tMax, Abs(e.qty))
              else e.openedAt == Some(x.ts) && e.mae == 0.0 && e.tMax == Abs(e.qty) && e.tFunding == 0.0
  {
    hide CostRemoved, FeeClosed;
  }

  /** The trade that a fill closes: its side, its peak, both times, both notionals, its funding and its worst result. */
  lemma TradeRecorded(p: Position, x: Execution)
    requires PositionOk(p) && x.qty > 0.0
    ensures var t := Fill1(p, x).1;
            && (t.Some? <==> p.qty != 0.0 && SideOf(p.qty) != x.side && x.qty >= Abs(p.qty))
            && (t.Some? ==>
                  && t.value.instrument == x.instrument && t.value.side == SignOf(p.qty) && t.value.qty == p.tMax
                  && Some(t.value.openedAt) == p.openedAt && t.value.closedAt == x.ts
                  && t.value.entryNotional == p.tEntryNotional
                  && t.value.exitNotional == p.tExitNotional + Abs(p.qty) * x.price
                  && t.value.funding == p.tFunding && t.value.mae == p.mae)
  {
    hide CostRemoved, FeeClosed;
  }

  // ---------------------------------------------------------------- sums over positions

  ghost predicate Shape(a: Account) {
    && (forall i, j | 0 <= i < j < |a.order| :: a.order[i] != a.order[j])
    && forall i :: i in a.order <==> i in a.positions
  }

  /** The two quantities that are summed over positions: cost, and the net of the open trade. */
  datatype Quantity = CostQ | CarryQ

  function ValueOf(k: Quantity, p: Position): real {
    if k.CostQ? then p.cost else Carry(p)
  }

  function Total(k: Quantity, positions: map<Symbol, Position>, order: seq<Symbol>): real {
    if order == [] then 0.0
    else
      var i := order[|order| - 1];
      Total(k, positions, order[..|order| - 1]) + if i in positions then ValueOf(k, positions[i]) else 0.0
  }

  lemma {:induction false} TotalFrame(k: Quantity, ps: map<Symbol, Position>, qs: map<Symbol, Position>,
      order: seq<Symbol>)
    requires forall i | i in order :: i in ps && i in qs && ValueOf(k, ps[i]) == ValueOf(k, qs[i])
    ensures Total(k, ps, order) == Total(k, qs, order)
  {
    if order != [] {
      var n := |order| - 1;
      var last := order[n];
      assert last in order && forall i | i in order[..n] :: i in order;
      TotalFrame(k, ps, qs, order[..n]);
    }
  }

  lemma {:induction false} TotalChange(k: Quantity, ps: map<Symbol, Position>, order: seq<Symbol>, inst: Symbol,
      p: Position)
    requires (forall i, j | 0 <= i < j < |order| :: order[i] != order[j]) && inst in order && forall i | i in order ::
             i in ps
    ensures Total(k, ps[inst := p], order) == Total(k, ps, order) + ValueOf(k, p) - ValueOf(k, ps[inst])
  {
    var n := |order| - 1;
    var init, last := order[..n], order[n];
    assert last in order && order == init + [last] && forall i | i in init :: i in order;
    if last == inst {
      forall i | i in init ensures i != inst {
        var j :| 0 <= j < n && order[j] == i;
      }
      TotalFrame(k, ps, ps[inst := p], init);
    } else {
      TotalChange(k, ps, init, inst, p);
    }
  }

  /** Replacing one position changes a total by the difference. */
  lemma PutTotal(k: Quantity, a: Account, e: Account, inst: Symbol, p: Position)
    requires Shape(a) && e.positions == Put(a, inst, p).positions && e.order == Put(a, inst, p).order
    ensures Shape(e)
    ensures Total(k, e.positions, e.order) == Total(k, a.positions, a.order)
            + ValueOf(k, p) - ValueOf(k, PosOf(a, inst))
  {
    if inst in a.positions {
      TotalChange(k, a.positions, a.order, inst, p);
    } else {
      assert e.order[..|a.order|] == a.order;
      forall i | i in a.order ensures i in a.positions && i in e.positions && e.positions[i] == a.positions[i] { }
      TotalFrame(k, a.positions, e.positions, a.order);
    }
  }

  function SumPnl(closed: seq<ClosedTrade>): real {
    if closed == [] then 0.0 else SumPnl(closed[..|closed| - 1]) + closed[|closed| - 1].pnl
  }

  // ---------------------------------------------------------------- account invariant

  /** `stray` is the funding that was booked on flat positions. */
  ghost predicate AccountOk(a: Account, stray: real) {
    && Shape(a)
    && (forall i | i in a.positions :: PositionOk(a.positions[i]) && (a.positions[i].qty != 0.0 ==> i in a.marks))
    && (forall t | t in a.closed :: TradeOk(t))
    && a.cash == a.initial + a.realized - a.funding - Total(CostQ, a.positions, a.order)
    && a.realized - a.fees - a.funding == SumPnl(a.closed) + Total(CarryQ, a.positions, a.order) - stray
  }

  lemma {:induction false} UnrealizedSplits(a: Account, order: seq<Symbol>)
    requires forall i | i in order :: i in a.positions && PositionOk(a.positions[i])
    ensures UnrealizedOf(a, order) == HoldingsOf(a, order) - Total(CostQ, a.positions, order)
  {
    if order != [] {
      var n := |order| - 1;
      var last := order[n];
      assert last in order && forall i | i in order[..n] :: i in order;
      UnrealizedSplits(a, order[..n]);
      assert PositionOk(a.positions[last]);
    }
  }

  /** The two independent forms of equity are equal: the residual is exactly zero. */
  lemma FormsAgree(a: Account, stray: real)
    requires AccountOk(a, stray)
    ensures EquityCashForm(a) == Equity(a)
  {
    UnrealizedSplits(a, a.order);
  }

  /** One position is rebooked and the money moves by the matching amounts. */
  lemma Rebook(a: Account, e: Account, inst: Symbol, q: Position, stray: real, stray': real)
    requires AccountOk(a, stray) && PositionOk(q) && e.initial == a.initial
    requires e.positions == Put(a, inst, q).positions && e.order == Put(a, inst, q).order
    requires (forall i | i in a.marks :: i in e.marks) && (q.qty != 0.0 ==> inst in e.marks)
             && forall t | t in e.closed :: TradeOk(t)
    requires var p := PosOf(a, inst);
             && e.cash - a.cash == (e.realized - a.realized) - (e.funding - a.funding) - (q.cost - p.cost)
             && (e.realized - a.realized) - (e.fees - a.fees) - (e.funding - a.funding)
                == SumPnl(e.closed) - SumPnl(a.closed) + Carry(q) - Carry(p) - (stray' - stray)
    ensures AccountOk(e, stray')
  {
    hide TradeOk, PositionOk, Carry, Total;
    PutTotal(CostQ, a, e, inst, q);
    PutTotal(CarryQ, a, e, inst, q);
  }

  lemma FlatOk()
    ensures PositionOk(FLAT)
  {
  }

  lemma FillKeeps(a: Account, stray: real, x: Execution)
    requires AccountOk(a, stray) && x.qty > 0.0
    ensures AccountOk(ApplyFill(a, x), stray)
  {
    FlatOk();
    hide Fill1, TradeOk, PositionOk, Carry, Total, TradeOf, SumPnl;
    var inst, e := x.instrument, ApplyFill(a, x);
    var p := PosOf(a, inst);
    var (q, trade, pnl) := Fill1(p, x);
    FillKeepsPosition(p, x);
    if trade.Some? {
      PnlAppend(a.closed, trade.value);
    }
    Rebook(a, e, inst, q, stray, stray);
  }

  lemma PnlAppend(closed: seq<ClosedTrade>, t: ClosedTrade)
    ensures SumPnl(closed + [t]) == SumPnl(closed) + t.pnl
  {
    assert (closed + [t])[..|closed|] == closed;
  }

  lemma FundingKeeps(a: Account, stray: real, inst: Symbol, amount: real)
    requires AccountOk(a, stray)
    ensures AccountOk(ApplyFunding(a, inst, amount), if PosOf(a, inst).qty == 0.0 then stray + amount else stray)
  {
    var p, e := PosOf(a, inst), ApplyFunding(a, inst, amount);
    var q := p.(funding := p.funding + amount, tFunding := p.tFunding + amount);
    assert PositionOk(q) && Carry(q) - Carry(p) == if p.qty == 0.0 then 0.0 else -amount by {
      FlatOk();
    }
    hide TradeOk, Total, PositionOk, Carry, SumPnl;
    Rebook(a, e, inst, q, stray, if p.qty == 0.0 then stray + amount else stray);
  }

  lemma MarkKeeps(a: Account, stray: real, inst: Symbol, price: real)
    requires AccountOk(a, stray)
    ensures AccountOk(MarkOne(a, inst, price), stray)
  {
    var e := MarkOne(a, inst, price);
    TotalFrame(CostQ, a.positions, e.positions, a.order);
    TotalFrame(CarryQ, a.positions, e.positions, a.order);
    hide TradeOk, Total;
  }

  // ---------------------------------------------------------------- what an event does to equity

  /** `e` is `a` with one position's size and mark changed. */
  ghost predicate OneMoved(a: Account, e: Account, inst: Symbol) {
    && Shape(a) && Shape(e) && inst in e.positions
    && (e.order == if inst in a.positions then a.order else a.order + [inst])
    && forall i | i != inst :: PosOf(e, i).qty == PosOf(a, i).qty && MarkOf(e, i) == MarkOf(a, i)
  }

  function Worth(qty: real, mark: real): real {
    qty * mark
  }

  function Value(a: Account, i: Symbol): real {
    Worth(PosOf(a, i).qty, MarkOf(a, i))
  }

  lemma {:induction false} HoldingsFrame(a: Account, e: Account, order: seq<Symbol>)
    requires forall i | i in order :: PosOf(e, i).qty == PosOf(a, i).qty && MarkOf(e, i) == MarkOf(a, i)
    ensures HoldingsOf(e, order) == HoldingsOf(a, order)
  {
    if order != [] {
      assert order[|order| - 1] in order && forall i | i in order[..|order| - 1] :: i in order;
      HoldingsFrame(a, e, order[..|order| - 1]);
    }
  }

  lemma HoldingsLast(a: Account, order: seq<Symbol>)
    requires order != []
    ensures HoldingsOf(a, order) == HoldingsOf(a, order[..|order| - 1]) + Value(a, order[|order| - 1])
  {
  }

  lemma {:induction false} HoldingsChange(a: Account, e: Account, inst: Symbol, order: seq<Symbol>)
    requires (forall i, j | 0 <= i < j < |order| :: order[i] != order[j]) && inst in order
    requires forall i | i != inst :: PosOf(e, i).qty == PosOf(a, i).qty && MarkOf(e, i) == MarkOf(a, i)
    ensures HoldingsOf(e, order) == HoldingsOf(a, order) + Value(e, inst) - Value(a, inst)
  {
    var n := |order| - 1;
    HoldingsLast(a, order);
    HoldingsLast(e, order);
    assert order == order[..n] + [order[n]];
    if order[n] == inst {
      forall i | i in order[..n] ensures i != inst {
        var j :| 0 <= j < n && order[j] == i;
      }
      HoldingsFrame(a, e, order[..n]);
    } else {
      HoldingsChange(a, e, inst, order[..n]);
    }
  }

  lemma HoldingsMove(a: Account, e: Account, inst: Symbol)
    requires OneMoved(a, e, inst)
    ensures HoldingsOf(e, e.order) == HoldingsOf(a, a.order) + Value(e, inst) - Value(a, inst)
  {
    if inst in a.positions {
      HoldingsChange(a, e, inst, a.order);
    } else {
      HoldingsLast(e, e.order);
      assert e.order[..|a.order|] == a.order;
      HoldingsFrame(a, e, a.order);
    }
  }

  lemma EquityMoves(a: Account, stray: real, e: Account, stray': real, inst: Symbol)
    requires AccountOk(a, stray) && AccountOk(e, stray') && OneMoved(a, e, inst)
    ensures Equity(e) - Equity(a) == (e.cash - a.cash) - (e.fees - a.fees) + Value(e, inst) - Value(a, inst)
  {
    FormsAgree(a, stray);
    FormsAgree(e, stray');
    HoldingsMove(a, e, inst);
    hide AccountOk, OneMoved, Value, HoldingsOf, Equity;
  }

  lemma FillMovesOne(a: Account, stray: real, x: Execution)
    requires x.qty > 0.0 && AccountOk(a, stray) && AccountOk(ApplyFill(a, x), stray)
    ensures OneMoved(a, ApplyFill(a, x), x.instrument)
  {
    hide Fill1, TradeOk, PositionOk, Total, SumPnl;
  }

  lemma FundingMovesOne(a: Account, stray: real, e: Account, stray': real, inst: Symbol, amount: real)
    requires AccountOk(a, stray) && AccountOk(e, stray') && e == ApplyFunding(a, inst, amount)
    ensures OneMoved(a, e, inst) && Value(e, inst) == Value(a, inst)
  {
    hide TradeOk, PositionOk, Total, SumPnl;
  }

  /** What is bought costs its notional; a sale brings it in. */
  function Paid(x: Execution): real {
    Signed(x.side, x.qty * x.price)
  }

  /** What the traded quantity is worth at `mark` beyond what was paid for it. */
  function Edge(x: Execution, mark: real): real {
    Signed(x.side, x.qty) * (mark - x.price)
  }

  /** A fill costs its fee, and moves equity otherwise only by the distance of its price from the mark. */
  lemma FillMovesEquity(a: Account, stray: real, x: Execution)
    requires AccountOk(a, stray) && x.qty > 0.0
    ensures var e := ApplyFill(a, x); Equity(e) == Equity(a) - x.fee + Edge(x, MarkOf(e, x.instrument))
  {
    var (i, e) := (x.instrument, ApplyFill(a, x));
    FillKeeps(a, stray, x);
    FillMovesOne(a, stray, x);
    EquityMoves(a, stray, e, stray, i);
    FillMoney(a, x);
    FillValue(a, stray, x);
    hide ApplyFill, AccountOk, OneMoved, Equity, Value, Signed, Paid, Edge;
  }

  lemma FillMoney(a: Account, x: Execution)
    requires x.qty > 0.0
    ensures var e := ApplyFill(a, x); e.cash - a.cash == -Paid(x) && e.fees - a.fees == x.fee
  {
    hide Fill1;
  }

  lemma FillValue(a: Account, stray: real, x: Execution)
    requires AccountOk(a, stray) && x.qty > 0.0
    ensures var (i, e) := (x.instrument, ApplyFill(a, x)); Value(e, i) - Value(a, i) - Paid(x) == Edge(x, MarkOf(e, i))
  {
    var (i, e) := (x.instrument, ApplyFill(a, x));
    UnmarkedIsFlat(a, stray, i);
    FilledQty(a, stray, x);
    MarkKept(a, x);
    hide ApplyFill, AccountOk, Paid, Edge, Signed;
    hide Worth;
    SignedNotional(x, PosOf(a, i).qty, MarkOf(a, i), MarkOf(e, i));
  }

  lemma MarkKept(a: Account, x: Execution)
    requires x.qty > 0.0
    ensures x.instrument in a.marks ==> MarkOf(ApplyFill(a, x), x.instrument) == MarkOf(a, x.instrument)
  {
    hide Fill1;
  }

  lemma FilledQty(a: Account, stray: real, x: Execution)
    requires AccountOk(a, stray) && x.qty > 0.0
    ensures PosOf(ApplyFill(a, x), x.instrument).qty == PosOf(a, x.instrument).qty + Signed(x.side, x.qty)
  {
    FlatOk();
    FillKeepsPosition(PosOf(a, x.instrument), x);
    hide Fill1, TradeOk, PositionOk;
  }

  lemma UnmarkedIsFlat(a: Account, stray: real, i: Symbol)
    requires AccountOk(a, stray)
    ensures i !in a.marks ==> PosOf(a, i).qty == 0.0
  {
  }

  lemma SignedNotional(x: Execution, q: real, was: real, mark: real)
    requires q == 0.0 || was == mark
    ensures Worth(q + Signed(x.side, x.qty), mark) - Worth(q, was) - Paid(x) == Edge(x, mark)
  {
    assert Worth(q, was) == q * mark;
  }

  /** A funding charge is paid out of equity. */
  lemma FundingCosts(a: Account, stray: real, inst: Symbol, amount: real)
    requires AccountOk(a, stray)
    ensures Equity(ApplyFunding(a, inst, amount)) == Equity(a) - amount
  {
    var (e, stray') := (ApplyFunding(a, inst, amount), if PosOf(a, inst).qty == 0.0 then stray + amount else stray);
    FundingKeeps(a, stray, inst, amount);
    FundingMovesOne(a, stray, e, stray', inst, amount);
    EquityMoves(a, stray, e, stray', inst);
    hide AccountOk, OneMoved, Value, Equity;
  }

  function Gain(qty: real, was: real, price: real): real {
    qty * (price - was)
  }

  /** A mark moves equity by what the position gains or loses on the way from the old mark. */
  lemma MarkMovesEquity(a: Account, stray: real, inst: Symbol, price: real)
    requires AccountOk(a, stray) && price > 0.0
    ensures var e := MarkOne(a, inst, price);
            MarkOf(e, inst) == price && Equity(e) == Equity(a) + Gain(PosOf(a, inst).qty, MarkOf(a, inst), price)
  {
    var e := MarkOne(a, inst, price);
    MarkKeeps(a, stray, inst, price);
    FormsAgree(a, stray);
    FormsAgree(e, stray);
    MarkFrame(a, stray, inst, price);
    ValueMoves(a, e, inst, price);
    hide MarkOne, AccountOk, Equity, HoldingsOf, OneMoved, Value, Gain;
    if inst in a.positions {
      HoldingsMove(a, e, inst);
    } else {
      HoldingsFrame(a, e, a.order);
    }
  }

  /** An open position remembers the worst unrealised result at any mark. */
  lemma MarkRemembersWorst(a: Account, inst: Symbol, price: real)
    requires price > 0.0 && PosOf(a, inst).qty != 0.0
    ensures var p := PosOf(a, inst); PosOf(MarkOne(a, inst, price), inst).mae == Min(p.mae, p.qty * price - p.cost)
  {
  }

  lemma ValueMoves(a: Account, e: Account, inst: Symbol, price: real)
    requires PosOf(e, inst).qty == PosOf(a, inst).qty && MarkOf(e, inst) == price
    ensures Value(e, inst) - Value(a, inst) == Gain(PosOf(a, inst).qty, MarkOf(a, inst), price)
    ensures PosOf(a, inst).qty == 0.0 ==> Gain(PosOf(a, inst).qty, MarkOf(a, inst), price) == 0.0
  {
  }

  lemma MarkFrame(a: Account, stray: real, inst: Symbol, price: real)
    requires AccountOk(a, stray) && price > 0.0
    ensures var e := MarkOne(a, inst, price);
            && MarkOf(e, inst) == price
            && e.cash == a.cash && e.fees == a.fees && e.order == a.order
                 && (inst in a.positions ==> OneMoved(a, e, inst))
            && PosOf(e, inst).qty == PosOf(a, inst).qty && (inst !in a.positions ==> inst !in a.order)
  {
    hide TradeOk, PositionOk, Total, SumPnl;
  }

  // ---------------------------------------------------------------- any sequence of events

  datatype Happening = Executed(x: Execution) | Funded(inst: Symbol, amount: real) | Marked(inst: Symbol, price: real)

  ghost predicate Possible(h: Happening) {
    h.Executed? ==> h.x.qty > 0.0
  }

  function Apply(a: Account, h: Happening): Account
    requires Possible(h)
  {
    match h
    case Executed(x) => ApplyFill(a, x)
    case Funded(i, amount) => ApplyFunding(a, i, amount)
    case Marked(i, price) => MarkOne(a, i, price)
  }

  function ApplyAll(deposit: real, hs: seq<Happening>): Account
    requires forall h | h in hs :: Possible(h)
  {
    if hs == [] then Open(deposit)
    else
      assert hs[|hs| - 1] in hs && forall h | h in hs[..|hs| - 1] :: h in hs;
      Apply(ApplyAll(deposit, hs[..|hs| - 1]), hs[|hs| - 1])
  }

  /** Funding booked while the position was flat. */
  function Stray(deposit: real, hs: seq<Happening>): real
    requires forall h | h in hs :: Possible(h)
  {
    if hs == [] then 0.0
    else
      var n := |hs| - 1;
      var last := hs[n];
      assert forall h | h in hs[..n] :: h in hs;
      Stray(deposit, hs[..n])
      + if last.Funded? && PosOf(ApplyAll(deposit, hs[..n]), last.inst).qty == 0.0 then last.amount else 0.0
  }

  lemma StrayStep(deposit: real, hs: seq<Happening>)
    requires (forall h | h in hs :: Possible(h)) && hs != []
    ensures var n := |hs| - 1;
            && (forall h | h in hs[..n] :: Possible(h))
            && Stray(deposit, hs) == Stray(deposit, hs[..n])
               + if hs[n].Funded? && PosOf(ApplyAll(deposit, hs[..n]), hs[n].inst).qty == 0.0 then hs[n].amount else 0.0
  {
    assert forall h | h in hs[..|hs| - 1] :: h in hs;
  }

  lemma OpenOk(deposit: real)
    ensures AccountOk(Open(deposit), 0.0) && Open(deposit).initial == deposit
  {
  }

  lemma ApplyStep(deposit: real, hs: seq<Happening>)
    requires (forall h | h in hs :: Possible(h)) && hs != []
    ensures var n := |hs| - 1;
            (forall h | h in hs[..n] :: Possible(h)) && Possible(hs[n])
              && ApplyAll(deposit, hs) == Apply(ApplyAll(deposit, hs[..n]), hs[n])
  {
    hide Apply;
    assert hs[|hs| - 1] in hs && forall h | h in hs[..|hs| - 1] :: h in hs;
  }

  lemma ApplyKeeps(a: Account, stray: real, h: Happening)
    requires AccountOk(a, stray) && Possible(h)
    ensures AccountOk(Apply(a, h), stray + if h.Funded? && PosOf(a, h.inst).qty == 0.0 then h.amount else 0.0)
    ensures Apply(a, h).initial == a.initial
  {
    hide AccountOk, Fill1;
    match h {
      case Executed(x) => FillKeeps(a, stray, x);
      case Funded(i, amount) => FundingKeeps(a, stray, i, amount);
      case Marked(i, price) => MarkKeeps(a, stray, i, price);
    }
  }

  lemma {:induction false} EveryEventKeeps(deposit: real, hs: seq<Happening>)
    requires forall h | h in hs :: Possible(h)
    ensures AccountOk(ApplyAll(deposit, hs), Stray(deposit, hs)) && ApplyAll(deposit, hs).initial == deposit
  {
    hide AccountOk;
    if hs == [] {
      OpenOk(deposit);
    } else {
      hide AccountOk, Apply, Stray, Possible, ApplyAll;
      var n := |hs| - 1;
      var last := hs[n];
      assert last in hs && forall h | h in hs[..n] :: h in hs;
      EveryEventKeeps(deposit, hs[..n]);
      StrayStep(deposit, hs);
      ApplyStep(deposit, hs);
      ApplyKeeps(ApplyAll(deposit, hs[..n]), Stray(deposit, hs[..n]), last);
    }
  }

  /** After any fills, fundings and marks the margin form and the cash form of equity are equal. */
  lemma IdentityAlwaysHolds(deposit: real, hs: seq<Happening>)
    requires forall h | h in hs :: Possible(h)
    ensures EquityCashForm(ApplyAll(deposit, hs)) == Equity(ApplyAll(deposit, hs))
  {
    EveryEventKeeps(deposit, hs);
    FormsAgree(ApplyAll(deposit, hs), Stray(deposit, hs));
  }

  /** Every closed trade earned exactly side * (exit notional - entry notional) on equal quantities. */
  lemma ClosedTradesAreTrue(deposit: real, hs: seq<Happening>)
    requires forall h | h in hs :: Possible(h)
    ensures forall t | t in ApplyAll(deposit, hs).closed :: TradeOk(t)
  {
    EveryEventKeeps(deposit, hs);
  }

  /** When everything is flat, equity is the deposit plus the net PnL of the closed trades, less funding booked on flat
      positions - so the trades account for all the money if and only if that stray funding is zero in total. */
  lemma FlatMoneyIsConserved(deposit: real, hs: seq<Happening>)
    requires forall h | h in hs :: Possible(h)
    requires forall i | i in ApplyAll(deposit, hs).positions :: ApplyAll(deposit, hs).positions[i].qty == 0.0
    ensures var a := ApplyAll(deposit, hs);
            && Equity(a) == deposit + SumPnl(a.closed) - Stray(deposit, hs)
            && (Equity(a) == deposit + SumPnl(a.closed) <==> Stray(deposit, hs) == 0.0)
  {
    EveryEventKeeps(deposit, hs);
    var a := ApplyAll(deposit, hs);
    hide ApplyAll, Stray;
    AllFlat(a, a.order);
  }

  /** The case exists: one funding charge on a flat account is in no closed trade. */
  lemma StrayFundingIsInNoTrade(deposit: real, amount: real)
    requires amount != 0.0
    ensures var hs := [Funded(0, amount)];
            var a := ApplyAll(deposit, hs);
            && (forall i | i in a.positions :: a.positions[i].qty == 0.0)
            && Equity(a) == deposit - amount && Equity(a) != deposit + SumPnl(a.closed)
  {
    var hs := [Funded(0, amount)];
    assert hs[..0] == [] && hs[0] == Funded(0, amount);
    assert ApplyAll(deposit, hs) == ApplyFunding(Open(deposit), 0, amount);
    var a := ApplyAll(deposit, hs);
    hide ApplyAll;
    AllFlat(a, a.order);
  }

  lemma {:induction false} AllFlat(a: Account, order: seq<Symbol>)
    requires forall i | i in order :: i in a.positions && a.positions[i].qty == 0.0
    ensures UnrealizedOf(a, order) == 0.0 && Total(CarryQ, a.positions, order) == 0.0
  {
    if order != [] {
      var n := |order| - 1;
      var last := order[n];
      assert last in order && forall i | i in order[..n] :: i in order;
      AllFlat(a, order[..n]);
    }
  }
}
