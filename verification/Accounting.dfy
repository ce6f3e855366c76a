/** Perpetual-futures accounting as a value: average-cost positions, realised PnL, fees, funding and closed trades.
    `Portfolio.dfy` holds the mutable account that is proved against these functions. */
module Accounting {
  import opened Base
  import opened Broker

  // ---------------------------------------------------------------- data

  /** Instruments are told apart and nothing else. */
  type Symbol = int

  /** `qty` is signed; `cost` is the signed cost of the open part. The t-fields accumulate the current trade. */
  datatype Position = Position(qty: real, cost: real, realized: real, funding: real, fees: real, openedAt: Option<int>,
                               mae: real, tSide: int, tMax: real, tRealized: real, tFees: real, tFunding: real,
                               tEntryNotional: real, tEntryQty: real, tExitNotional: real, tExitQty: real)

  const FLAT := Position(0.0, 0.0, 0.0, 0.0, 0.0, None, 0.0, 0, 0.0, 0.0, 0.0, 0.0, 0.0, 0.0, 0.0, 0.0)

  datatype ClosedTrade = ClosedTrade(instrument: Symbol, side: int, qty: real, entryPrice: real, exitPrice: real,
                                     gross: real, fees: real, funding: real, pnl: real,
                                     entryNotional: real, exitNotional: real, openedAt: int, closedAt: int, mae: real)

  datatype Execution = Execution(instrument: Symbol, side: Side, qty: real, price: real, fee: real, ts: int)

  /** `order` lists the keys of `positions` as they were first used. */
  datatype Account = Account(
    initial: real, cash: real, fees: real, funding: real, realized: real, traded: real, nFills: nat,
    positions: map<Symbol, Position>, order: seq<Symbol>, marks: map<Symbol, real>, closed: seq<ClosedTrade>)

  function Open(deposit: real): Account {
    Account(deposit, deposit, 0.0, 0.0, 0.0, 0.0, 0, map[], [], map[], [])
  }

  // ---------------------------------------------------------------- one position

  function SideOf(x: real): Side {
    if x > 0.0 then Long else Short
  }

  function StartTrade(p: Position, side: Side, ts: int): Position {
    p.(openedAt := Some(ts), mae := 0.0, tSide := SignOf(Sgn(side)), tMax := 0.0, tRealized := 0.0, tFees := 0.0,
       tFunding := 0.0, tEntryNotional := 0.0, tEntryQty := 0.0, tExitNotional := 0.0, tExitQty := 0.0)
  }

  function TradeOf(p: Position, instrument: Symbol, ts: int): ClosedTrade {
    ClosedTrade(instrument, p.tSide, p.tMax,
                if p.tEntryQty > 0.0 then p.tEntryNotional / p.tEntryQty else 0.0,
                if p.tExitQty > 0.0 then p.tExitNotional / p.tExitQty else 0.0,
                p.tRealized, p.tFees, p.tFunding, p.tRealized - p.tFees - p.tFunding,
                p.tEntryNotional, p.tExitNotional, if p.openedAt.Some? then p.openedAt.value else ts, ts, p.mae)
  }

  function FinishTrade(p: Position): Position {
    p.(openedAt := None, tSide := 0)
  }

  predicate Increases(p: Position, x: Execution) {
    p.qty == 0.0 || SignOf(p.qty) == SignOf(Sgn(x.side))
  }

  function Add(p: Position, x: Execution): Position {
    var p1 := if p.qty == 0.0 then StartTrade(p, x.side, x.ts) else p;
    var qty := p.qty + Signed(x.side, x.qty);
    p1.(cost := p1.cost + Signed(x.side, x.qty * x.price), qty := qty, tFees := p1.tFees + x.fee,
        tEntryNotional := p1.tEntryNotional + x.qty * x.price, tEntryQty := p1.tEntryQty + x.qty,
        tMax := if p1.tMax >= Abs(qty) then p1.tMax else Abs(qty))
  }

  function ClosedQty(p: Position, x: Execution): real {
    Min(x.qty, Abs(p.qty))
  }

  /** The whole cost, or the proportional part of it. */
  function CostRemoved(p: Position, closed: real): real
    requires p.qty != 0.0
  {
    if closed == Abs(p.qty) then p.cost else p.cost * closed / Abs(p.qty)
  }

  function Pnl(p: Position, x: Execution): real
    requires p.qty != 0.0
  {
    var closed := ClosedQty(p, x);
    Signed(SideOf(p.qty), closed * x.price) - CostRemoved(p, closed)
  }

  function FeeClosed(p: Position, x: Execution): real
    requires x.qty > 0.0
  {
    var closed := ClosedQty(p, x);
    if closed == x.qty then x.fee else x.fee * closed / x.qty
  }

  /** The reducing part of an execution. */
  function Reduce(p: Position, x: Execution): Position
    requires p.qty != 0.0 && x.qty > 0.0
  {
    var closed, pnl := ClosedQty(p, x), Pnl(p, x);
    var qty := p.qty + Signed(x.side, closed);
    p.(realized := p.realized + pnl, qty := qty, cost := if qty == 0.0 then 0.0 else p.cost - CostRemoved(p, closed),
       tRealized := p.tRealized + pnl, tFees := p.tFees + FeeClosed(p, x),
       tExitNotional := p.tExitNotional + closed * x.price, tExitQty := p.tExitQty + closed)
  }

  /** The part that opens a trade in the other direction. */
  function Reopen(p: Position, x: Execution, remainder: real, fee: real): Position {
    var p1 := StartTrade(p, x.side, x.ts);
    p1.(cost := Signed(x.side, remainder * x.price), qty := Signed(x.side, remainder), tFees := p1.tFees + fee,
        tEntryNotional := p1.tEntryNotional + remainder * x.price,
        tEntryQty := p1.tEntryQty + remainder, tMax := remainder)
  }

  /** The new position, the trade that was closed (if any) and the realised PnL. */
  function Fill1(p: Position, x: Execution): (Position, Option<ClosedTrade>, real)
    requires x.qty > 0.0
  {
    var p0 := p.(fees := p.fees + x.fee);
    if Increases(p0, x) then (Add(p0, x), None, 0.0)
    else
      var r := Reduce(p0, x);
      var remainder := x.qty - ClosedQty(p0, x);
      var trade := if r.qty == 0.0 then Some(TradeOf(r, x.instrument, x.ts)) else None;
      var f := if r.qty == 0.0 then FinishTrade(r) else r;
      (if remainder > 0.0 then Reopen(f, x, remainder, x.fee - FeeClosed(p0, x)) else f, trade, Pnl(p0, x))
  }

  // ---------------------------------------------------------------- the account

  function PosOf(a: Account, inst: Symbol): Position {
    if inst in a.positions then a.positions[inst] else FLAT
  }

  function Put(a: Account, inst: Symbol, p: Position): Account {
    a.(positions := a.positions[inst := p], order := if inst in a.positions then a.order else a.order + [inst])
  }

  function ApplyFill(a: Account, x: Execution): Account
    requires x.qty > 0.0
  {
    var (p, trade, pnl) := Fill1(PosOf(a, x.instrument), x);
    Put(a, x.instrument, p).(cash := a.cash - Signed(x.side, x.qty * x.price), fees := a.fees + x.fee,
                             traded := a.traded + x.qty * x.price, nFills := a.nFills + 1, realized := a.realized + pnl,
                             marks := if x.instrument in a.marks then a.marks else a.marks[x.instrument := x.price],
                             closed := if trade.Some? then a.closed + [trade.value] else a.closed)
  }

  function ApplyFunding(a: Account, inst: Symbol, amount: real): Account {
    var p := PosOf(a, inst);
    Put(a, inst, p.(funding := p.funding + amount, tFunding := p.tFunding + amount))
      .(cash := a.cash - amount, funding := a.funding + amount)
  }

  /** A mark price must be positive; otherwise the call raises. */
  function MarkOne(a: Account, inst: Symbol, price: real): Account {
    if price <= 0.0 then a
    else
      var a1 := a.(marks := a.marks[inst := price]);
      if inst in a.positions && a.positions[inst].qty != 0.0 then
        var p := a.positions[inst];
        var u := p.qty * price - p.cost;
        a1.(positions := a.positions[inst := p.(mae := if p.mae <= u then p.mae else u)])
      else a1
  }

  function MarkOf(a: Account, inst: Symbol): real {
    if inst in a.marks then a.marks[inst] else 0.0
  }

  function Wallet(a: Account): real {
    a.initial + a.realized - a.fees - a.funding
  }

  /** Value of the open positions at mark, in the order of their first use. */
  function HoldingsOf(a: Account, order: seq<Symbol>): real {
    if order == [] then 0.0
    else
      var i := order[|order| - 1];
      HoldingsOf(a, order[..|order| - 1]) + if PosOf(a, i).qty != 0.0 then PosOf(a, i).qty * MarkOf(a, i) else 0.0
  }

  function UnrealizedOf(a: Account, order: seq<Symbol>): real {
    if order == [] then 0.0
    else
      var i := order[|order| - 1];
      UnrealizedOf(a, order[..|order| - 1])
        + if PosOf(a, i).qty != 0.0 then PosOf(a, i).qty * MarkOf(a, i) - PosOf(a, i).cost else 0.0
  }

  /** The margin form. */
  function Equity(a: Account): real {
    Wallet(a) + UnrealizedOf(a, a.order)
  }

  /** The cash form. */
  function EquityCashForm(a: Account): real {
    a.cash + HoldingsOf(a, a.order) - a.fees
  }
}
