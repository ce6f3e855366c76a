/** Why the crossing law asks for a strict crossing or a stop alone at its level. */
module TouchedStops {
  import opened Base
  import opened Broker
  import opened BrokerProofs
  import opened BrokerTheorems

  function ProtectiveStop(id: Coid, level: real): Order {
    Order(Request(id, "X", Short, StopMarket, 1.0, Some(level), true, 0), New, None, 0.0, None, None)
  }

  /** The entry, filled on the bar before. */
  function Entry(): Order {
    Order(Request(Client(2), "X", Long, Market, 2.0, None, false, 0), Filled, None, 2.0, Some(10.0), None)
  }

  /** A long position of two units, its filled entry, and two stops of one unit at the same level. */
  function TwoStops(level: real): Book {
    EmptyBook(0.0).(orders := map[Client(0) := ProtectiveStop(Client(0), level),
                                  Client(1) := ProtectiveStop(Client(1), level),
                                  Client(2) := Entry()],
                    stops := [Client(0), Client(1)], position := 2.0,
                    lastOpen := Some(0), lastClose := Some(10.0), seqNo := 3,
                    fills := [Fill(Client(2), Long, 2.0, 10.0, 10.0, 0.0, 0)])
  }

  /** A book as a run leaves it: queues, statuses, fills and position agree. */
  lemma TwoStopsAtRest(level: real)
    ensures AtRest(TwoStops(level)) && Typed(TwoStops(level))
  {
    TwoStopsQueued(level);
    TwoStopsFills(level);
    hide Queued, FillsOk;
    assert TwoStops(level).market + TwoStops(level).stops == [Client(0), Client(1)];
  }

  lemma TwoStopsQueued(level: real)
    ensures Queued(TwoStops(level), [Client(0), Client(1)], None)
  {
    var b, ids := TwoStops(level), [Client(0), Client(1)];
    forall c ensures IsNew(b, c) <==> c in ids {
      assert c in ids <==> c == Client(0) || c == Client(1);
    }
  }

  lemma TwoStopsFills(level: real)
    ensures FillsOk(TwoStops(level))
  {
    var b := TwoStops(level);
    assert b.fills[..0] == [] && Net(b.fills) == Net([]) + 2.0;
    forall c ensures HasFill(b.fills, c) <==> c in b.orders && b.orders[c].status.Filled? {
      assert c == Client(2) ==> b.fills[0].coid == c;
    }
  }

  lemma TriggersOfTwo(b: Book, x: Coid, y: Coid, t: int)
    requires b.stops == [x, y] && b.tp.None? && b.liq.None? && ActiveStop(b, x, t) && ActiveStop(b, y, t)
    ensures Triggers(b, t) == [StopAt(x, b.orders[x].req.stop.value, b.orders[x].req.side.Long?),
                               StopAt(y, b.orders[y].req.stop.value, b.orders[y].req.side.Long?)]
  {
    assert b.stops[1..] == [y] && b.stops[1..][1..] == [];
    assert StopTriggers(b, [y], t) == [StopAt(y, b.orders[y].req.stop.value, b.orders[y].req.side.Long?)];
  }

  lemma TriggersOfOne(b: Book, x: Coid, t: int)
    requires b.stops == [x] && b.tp.None? && b.liq.None? && ActiveStop(b, x, t)
    ensures Triggers(b, t) == [StopAt(x, b.orders[x].req.stop.value, b.orders[x].req.side.Long?)]
  {
    assert b.stops[1..] == [] && StopTriggers(b, [], t) == [];
    var one := StopAt(x, b.orders[x].req.stop.value, b.orders[x].req.side.Long?);
    assert StopTriggers(b, b.stops, t) == [one] + [] == [one];
    assert Triggers(b, t) == [one] + [] + [];
  }

  lemma NoneLeft(s: seq<Trigger>)
    requires forall x :: x !in s
    ensures s == []
  {
    if s != [] {
      HeadIn(s);
      assert false;
    }
  }

  lemma HeadIn(s: seq<Trigger>)
    requires s != []
    ensures s[0] in s
  {
  }

  /** The book when the walk begins: funding may have been charged. */
  ghost predicate LikeTwoStops(b: Book) {
    b == TwoStops(9.0).(charges := b.charges)
  }

  ghost predicate OneLeft(b: Book, d: Coid) {
    && b.stops == [d] && b.market == [] && b.position == 1.0 && b.tp.None? && b.liq.None?
    && d in b.orders && b.orders[d] == ProtectiveStop(d, 9.0)
  }

  lemma FireOneOfTwo(b: Book, env: Env, c: Coid, d: Coid)
    requires LikeTwoStops(b) && ((c == Client(0) && d == Client(1)) || (c == Client(1) && d == Client(0)))
    ensures OneLeft(Fire(b, env, StopAt(c, 9.0, false), 9.0, 1), d)
  {
    assert b.stops[1..] == [Client(1)] && [Client(1)][1..] == [];
    assert Remove([Client(1)], Client(1)) == [];
    assert Remove(b.stops, c) == [d];
  }

  /** What is left sits below the rest of the way. */
  lemma RestOfTheWay(env: Env, b1: Book, d: Coid)
    requires OneLeft(b1, d)
    ensures Segment(b1, env, 1, 9.0, 11.0) == b1 && Segment(b1, env, 1, 11.0, 10.0) == b1
  {
    TriggersOfOne(b1, d, 1);
    var one := StopAt(d, 9.0, false);
    assert Triggers(b1, 1) == [one];
    assert forall x | x in Triggers(b1, 1) :: x == one;
    NoneLeft(Ahead(b1, 1, 9.0, 11.0));
    NoneLeft(Ahead(b1, 1, 11.0, 10.0));
  }

  /** Of two stops exactly at the low one fires and ends the way down. */
  lemma WalkLeavesOne(b: Book, env: Env) returns (d: Coid)
    requires LikeTwoStops(b)
    ensures (d == Client(0) || d == Client(1)) && OneLeft(Walk(b, env, Bar(1, 10.0, 11.0, 9.0, 10.0)), d)
  {
    var bar := Bar(1, 10.0, 11.0, 9.0, 10.0);
    var x, y := StopAt(Client(0), 9.0, false), StopAt(Client(1), 9.0, false);
    TriggersOfTwo(b, Client(0), Client(1), 1);
    assert Triggers(b, 1) == [x, y];
    assert x in Triggers(b, 1) && forall z | z in Triggers(b, 1) :: z == x || z == y;
    assert Reachable(b, bar);
    NoneLeft(AtOpen(b, 1, 10.0));
    assert FireAtOpen(b, env, 1, 10.0) == b;
    var on := Ahead(b, 1, 10.0, 9.0);
    assert x in on;
    var tr := Best(Highest, on);
    d := if tr == x then Client(1) else Client(0);
    FireOneOfTwo(b, env, tr.coid, d);
    hide Fire, Triggers, Best, Where, Reachable, AtOpen, FireAtOpen, OneLeft;
    var b1 := Fire(b, env, tr, 9.0, 1);
    assert Segment(b1, env, 1, 9.0, 9.0) == b1;
    assert Segment(b, env, 1, 10.0, 9.0) == b1;
    RestOfTheWay(env, b1, d);
    assert Walk(b, env, bar) == b1;
  }

  /** It still protects the position, so it is no orphan. */
  lemma NotExpired(b: Book, d: Coid)
    requires OneLeft(b, d)
    ensures IsNew(ExpireOrphans(b), d) && ExpireOrphans(b).position == b.position
  {
    var longEntry, shortEntry := HasEntry(b, Long), HasEntry(b, Short);
    assert b.stops[0] == d && b.stops[1..] == [];
    assert !Orphan(b, longEntry, shortEntry, d);
    assert ExpireFrom(b, b.stops, longEntry, shortEntry, []) == ExpireFrom(b, [], longEntry, shortEntry, [] + [d]);
  }

  /** A book at rest and a bar after which an active stop exactly at the low is still live: two stops share the level,
      and the first ends the way down. */
  lemma TouchedStopMaySurvive(env: Env)
    requires ValidEnv(env)
    ensures var b, bar := TwoStops(9.0), Bar(1, 10.0, 11.0, 9.0, 10.0);
            var r := OnBar(b, env, bar);
            && AtRest(b) && Typed(b) && BarOk(bar) && r.Some?
            && exists c :: LiveStop(b, c, bar.t) && Reached(b.orders[c].req, bar) && IsNew(r.value, c)
  {
    var b, bar := TwoStops(9.0), Bar(1, 10.0, 11.0, 9.0, 10.0);
    TwoStopsAtRest(9.0);
    hide AtRest, Typed, Walk, ExpireOrphans, ChargeFunding;
    var b1 := ChargeFunding(b, env, bar);
    ChargeFrame(b, env, bar);
    assert LikeTwoStops(b1) && FillMarket(b1, env, bar, b1.market, []) == b1;
    var d := WalkLeavesOne(b1, env);
    NotExpired(Walk(b1, env, bar), d);
    assert LiveStop(b, d, bar.t) && Reached(b.orders[d].req, bar);
  }
}
