/** The mutable account; each method is proved equal to the function on its state. */
module Portfolio {
  import opened Base
  import opened Broker
  import opened Accounting

  class Book {
    const initial: real
    var cash: real
    var fees: real
    var funding: real
    var realized: real
    var traded: real
    var nFills: nat
    var positions: map<Symbol, Position>
    var order: seq<Symbol>
    var marks: map<Symbol, real>
    var closed: seq<ClosedTrade>

    ghost function View(): Account
      reads this
    {
      Account(initial, cash, fees, funding, realized, traded, nFills, positions, order, marks, closed)
    }

    constructor (deposit: real)
      ensures View() == Accounting.Open(deposit)
    {
      initial, cash := deposit, deposit;
      fees, funding, realized, traded, nFills := 0.0, 0.0, 0.0, 0.0, 0;
      positions, order, marks, closed := map[], [], map[], [];
    }

    method Store(inst: Symbol, p: Position)
      modifies this
      ensures View() == Put(old(View()), inst, p)
    {
      if inst !in positions {
        order := order + [inst];
      }
      positions := positions[inst := p];
    }

    method ApplyFill(x: Execution) returns (out: seq<ClosedTrade>)
      requires x.qty > 0.0
      modifies this
      ensures View() == Accounting.ApplyFill(old(View()), x)
      ensures closed == old(closed) + out && |out| <= 1
    {
      hide Fill1;
      Count(x);
      var pos := if x.instrument in positions then positions[x.instrument] else FLAT;
      var next, trade, pnl := FillPosition(pos, x);
      realized := realized + pnl;
      out := if trade.Some? then [trade.value] else [];
      closed := closed + out;
      Store(x.instrument, next);
    }

    method Count(x: Execution)
      modifies this`cash, this`fees, this`traded, this`nFills, this`marks
      ensures cash == old(cash) - Signed(x.side, x.qty * x.price) && fees == old(fees) + x.fee
      ensures traded == old(traded) + x.qty * x.price && nFills == old(nFills) + 1
      ensures marks == if x.instrument in old(marks) then old(marks) else old(marks)[x.instrument := x.price]
    {
      cash := cash - Signed(x.side, x.qty * x.price);
      fees := fees + x.fee;
      traded := traded + x.qty * x.price;
      nFills := nFills + 1;
      if x.instrument !in marks {
        marks := marks[x.instrument := x.price];
      }
    }

    method FillPosition(p: Position, x: Execution) returns (pos: Position, trade: Option<ClosedTrade>, pnl: real)
      requires x.qty > 0.0
      ensures (pos, trade, pnl) == Fill1(p, x)
    {
      pos := p.(fees := p.fees + x.fee);
      if pos.qty == 0.0 || SignOf(pos.qty) == SignOf(Sgn(x.side)) {
        pos := Grown(pos, x);
        return pos, None, 0.0;
      }
      var remainder, rest;
      ghost var p0 := pos;
      pos, pnl, remainder, rest := Shrunk(pos, x);
      hide Reduce, Pnl, FeeClosed;
      trade := None;
      if pos.qty == 0.0 {
        trade := Some(TradeOf(pos, x.instrument, x.ts));
        pos := pos.(openedAt := None, tSide := 0);
      }
      if remainder > 0.0 {
        pos := Reopen(pos, x, remainder, rest);
      }
    }

    /** Reducing or closing a position: what is left of the execution and of its fee. */
    method Shrunk(p: Position, x: Execution) returns (pos: Position, pnl: real, remainder: real, rest: real)
      requires x.qty > 0.0 && !Increases(p, x)
      ensures pos == Reduce(p, x) && pnl == Pnl(p, x)
      ensures remainder == x.qty - ClosedQty(p, x) && rest == x.fee - FeeClosed(p, x)
    {
      var absQ := Abs(p.qty);
      var part := Min(x.qty, absQ);
      var costRemoved := if part == absQ then p.cost else p.cost * part / absQ;
      assert costRemoved == CostRemoved(p, part);
      pnl := Signed(SideOf(p.qty), part * x.price) - costRemoved;
      assert pnl == Pnl(p, x);
      var feeClose := if part == x.qty then x.fee else x.fee * part / x.qty;
      assert feeClose == FeeClosed(p, x);
      hide Pnl, FeeClosed, CostRemoved;
      pos := p.(realized := p.realized + pnl, cost := p.cost - costRemoved, qty := p.qty + Signed(x.side, part),
                tRealized := p.tRealized + pnl, tFees := p.tFees + feeClose,
                tExitNotional := p.tExitNotional + part * x.price, tExitQty := p.tExitQty + part);
      if pos.qty == 0.0 {
        pos := pos.(cost := 0.0);
      }
      remainder, rest := x.qty - part, x.fee - feeClose;
    }

    /** Opening or growing a position. */
    method Grown(p: Position, x: Execution) returns (pos: Position)
      requires Increases(p, x)
      ensures pos == Add(p, x)
    {
      pos := p;
      if p.qty == 0.0 {
        pos := StartTrade(pos, x.side, x.ts);
      }
      pos := pos.(cost := pos.cost + Signed(x.side, x.qty * x.price));
      pos := pos.(qty := p.qty + Signed(x.side, x.qty));
      pos := pos.(tFees := pos.tFees + x.fee, tEntryNotional := pos.tEntryNotional + x.qty * x.price,
                  tEntryQty := pos.tEntryQty + x.qty);
      if pos.tMax < Abs(pos.qty) {
        pos := pos.(tMax := Abs(pos.qty));
      }
    }

    method ApplyFunding(inst: Symbol, amount: real)
      modifies this
      ensures View() == Accounting.ApplyFunding(old(View()), inst, amount)
    {
      cash := cash - amount;
      funding := funding + amount;
      var pos := if inst in positions then positions[inst] else FLAT;
      Store(inst, pos.(funding := pos.funding + amount, tFunding := pos.tFunding + amount));
    }

    method Mark(inst: Symbol, price: real)
      modifies this
      ensures View() == MarkOne(old(View()), inst, price)
    {
      if price <= 0.0 {
        return;
      }
      marks := marks[inst := price];
      if inst in positions && positions[inst].qty != 0.0 {
        var pos := positions[inst];
        var u := pos.qty * price - pos.cost;
        positions := positions[inst := pos.(mae := if pos.mae <= u then pos.mae else u)];
      }
    }

    method ComputeEquity() returns (e: real)
      ensures e == Equity(View())
    {
      var total := 0.0;
      for n := 0 to |order|
        invariant total == UnrealizedOf(View(), order[..n])
      {
        var i := order[n];
        assert order[..n + 1][..n] == order[..n] && order[..n + 1][n] == i;
        var pos := if i in positions then positions[i] else FLAT;
        if pos.qty != 0.0 {
          total := total + (pos.qty * (if i in marks then marks[i] else 0.0) - pos.cost);
        }
      }
      assert order[..|order|] == order;
      e := initial + realized - fees - funding + total;
    }

    method ComputeCashForm() returns (e: real)
      ensures e == EquityCashForm(View())
    {
      var holdings := 0.0;
      for n := 0 to |order|
        invariant holdings == HoldingsOf(View(), order[..n])
      {
        var i := order[n];
        assert order[..n + 1][..n] == order[..n] && order[..n + 1][n] == i;
        var pos := if i in positions then positions[i] else FLAT;
        if pos.qty != 0.0 {
          holdings := holdings + pos.qty * (if i in marks then marks[i] else 0.0);
        }
      }
      assert order[..|order|] == order;
      e := cash + holdings - fees;
    }
  }
}
