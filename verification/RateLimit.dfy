/** The weighted token bucket: how much it can let through in any window of time. */
module RateLimit {
  import opened Base

  // ---------------------------------------------------------------- the bucket as a value

  const NS := 1000000000.0
  const EPS := 0.000000001

  /** `rate` is per second; `at` is the clock reading of the last refill. */
  datatype Bucket = Bucket(capacity: real, rate: real, tokens: real, at: int)

  ghost predicate Valid(b: Bucket) {
    b.capacity > 0.0 && b.rate > 0.0 && b.tokens <= b.capacity
  }

  function Floor0(x: real): real {
    if x >= 0.0 then x else 0.0
  }

  function Gained(b: Bucket, ns: int): real {
    ns as real * b.rate / NS
  }

  /** Time never runs backwards inside the bucket. */
  function Refill(b: Bucket, now: int): Bucket {
    if now > b.at then b.(tokens := Min(b.capacity, b.tokens + Gained(b, now - b.at)), at := now) else b
  }

  predicate Admissible(b: Bucket, weight: int) {
    weight > 0 && weight as real <= b.capacity
  }

  predicate Admits(b: Bucket, weight: int) {
    b.tokens + EPS >= weight as real
  }

  /** Invalid weights are refused with an error and touch nothing. */
  datatype Answer = Invalid | Denied | Granted

  function TryAcquire(b: Bucket, now: int, weight: int): (Bucket, Answer) {
    if !Admissible(b, weight) then (b, Invalid)
    else
      var r := Refill(b, now);
      if Admits(r, weight) then (r.(tokens := Floor0(r.tokens - weight as real)), Granted) else (r, Denied)
  }

  function Observe(b: Bucket, now: int, used: int, limit: int): Bucket {
    var r := Refill(b, now);
    r.(tokens := Floor0(Min(r.tokens, (limit - used) as real)))
  }

  function Drain(b: Bucket, now: int): Bucket {
    Refill(b, now).(tokens := 0.0)
  }

  /** Whole nanoseconds to wait until `weight` is there, rounded up. */
  function WaitNs(b: Bucket, weight: int): int
    requires b.rate > 0.0
  {
    var deficit := weight as real - b.tokens;
    if deficit <= EPS then 0 else Ceil(NsFor(deficit, b.rate))
  }

  function NsFor(deficit: real, rate: real): real
    requires rate > 0.0
  {
    deficit / rate * NS
  }

  function Ceil(x: real): (n: int)
    ensures n as real >= x && n as real < x + 1.0
  {
    if x == x.Floor as real then x.Floor else x.Floor + 1
  }

  // ---------------------------------------------------------------- runs

  datatype Op = Try(now: int, weight: int) | Peek(now: int) | Header(now: int, used: int, limit: int) | Empty(now: int)

  function Apply(b: Bucket, op: Op): Bucket {
    match op
    case Try(now, weight) => TryAcquire(b, now, weight).0
    case Peek(now) => Refill(b, now)
    case Header(now, used, limit) => Observe(b, now, used, limit)
    case Empty(now) => Drain(b, now)
  }

  /** The weight this operation lets through. */
  function Passed(b: Bucket, op: Op): int {
    if op.Try? && TryAcquire(b, op.now, op.weight).1.Granted? then op.weight else 0
  }

  function Run(b: Bucket, ops: seq<Op>): Bucket {
    if ops == [] then b else Apply(Run(b, ops[..|ops| - 1]), ops[|ops| - 1])
  }

  /** Total weight, and number of requests, let through. */
  function Weight(b: Bucket, ops: seq<Op>): int {
    if ops == [] then 0 else Weight(b, ops[..|ops| - 1]) + Passed(Run(b, ops[..|ops| - 1]), ops[|ops| - 1])
  }

  function Requests(b: Bucket, ops: seq<Op>): nat {
    if ops == [] then 0
    else Requests(b, ops[..|ops| - 1]) + if Passed(Run(b, ops[..|ops| - 1]), ops[|ops| - 1]) > 0 then 1 else 0
  }

  // ---------------------------------------------------------------- the bound

  /** 1e-9 for each of `n` requests. */
  function Slack(n: int): real {
    n as real * 0.000000001
  }

  lemma SlackAdds(n: int)
    ensures Slack(n + 1) == Slack(n) + EPS && Slack(0) == 0.0
  {
  }

  lemma GainedAdds(b: Bucket, m: int, n: int)
    ensures Gained(b, m + n) == Gained(b, m) + Gained(b, n)
    ensures m >= 0 && b.rate > 0.0 ==> Gained(b, m) >= 0.0
  {
    assert (m + n) as real * b.rate == m as real * b.rate + n as real * b.rate;
    assert m >= 0 && b.rate > 0.0 ==> m as real * b.rate >= 0.0;
  }

  lemma RefillBound(b: Bucket, now: int)
    requires Valid(b)
    ensures var r := Refill(b, now);
            && Valid(r) && r == b.(tokens := r.tokens, at := r.at) && r.at >= b.at && r.at >= now
            && r.tokens <= b.tokens + Gained(b, r.at - b.at) && r.tokens >= Min(b.tokens, b.capacity)
            && Floor0(r.tokens) <= Floor0(b.tokens) + Gained(b, r.at - b.at)
  {
    GainedAdds(b, if now > b.at then now - b.at else 0, 0);
    hide Gained;
  }

  /** One operation: what passes is paid for by tokens or by time, up to the tolerance. */
  lemma StepBound(b: Bucket, op: Op)
    requires Valid(b)
    ensures var e := Apply(b, op);
            && Valid(e) && e == b.(tokens := e.tokens, at := e.at) && e.at >= b.at && Passed(b, op) >= 0
            && Passed(b, op) as real + Floor0(e.tokens)
               <= Floor0(b.tokens) + Gained(b, e.at - b.at) + if Passed(b, op) > 0 then EPS else 0.0
  {
    RefillBound(b, op.now);
    GainedAdds(b, 0, 0);
    hide Gained;
  }

  lemma {:induction false} RunBound(b: Bucket, ops: seq<Op>)
    requires Valid(b)
    ensures var e := Run(b, ops);
            && Valid(e) && e == b.(tokens := e.tokens, at := e.at) && e.at >= b.at
                 && 0 <= Requests(b, ops) <= Weight(b, ops)
            && Weight(b, ops) as real + Floor0(e.tokens)
               <= Floor0(b.tokens) + Gained(b, e.at - b.at) + Slack(Requests(b, ops))
  {
    hide Gained, Apply, Passed, Slack;
    SlackAdds(0);
    if ops == [] {
      GainedAdds(b, 0, 0);
    } else {
      var n := |ops| - 1;
      var m, e := Run(b, ops[..n]), Run(b, ops);
      RunBound(b, ops[..n]);
      StepBound(m, ops[n]);
      GainedAdds(b, m.at - b.at, e.at - m.at);
      SameRate(b, m, e.at - m.at);
      SlackAdds(Requests(b, ops[..n]));
    }
  }

  lemma SameRate(b: Bucket, m: Bucket, ns: int)
    requires m.rate == b.rate
    ensures Gained(m, ns) == Gained(b, ns)
  {
  }

  /** The first operation refills on its own clock reading, so time before it does not matter. */
  lemma {:induction false} RefillFirst(b: Bucket, ops: seq<Op>)
    requires ops != [] && Valid(b) && (ops[0].Try? ==> Admissible(b, ops[0].weight))
    ensures var r := Refill(b, ops[0].now);
            Run(r, ops) == Run(b, ops) && Weight(r, ops) == Weight(b, ops) && Requests(r, ops) == Requests(b, ops)
  {
    var n, r := |ops| - 1, Refill(b, ops[0].now);
    assert Refill(r, ops[0].now) == r;
    if n == 0 {
      assert ops[..0] == [];
      assert Run(b, []) == b && Run(r, []) == r;
    } else {
      hide Refill;
      RefillFirst(b, ops[..n]);
    }
  }

  /** In any stretch of any run that begins with an operation that is carried out, whatever the clock readings, exchange
      headers and drains: the weight let through is at most the capacity plus what the bucket's time between its first
      and its last operation earns, plus 1e-9 per request. */
  lemma StretchBound(b: Bucket, ops: seq<Op>)
    requires ops != [] && Valid(b) && (ops[0].Try? ==> Admissible(b, ops[0].weight))
    ensures var first, last := Refill(b, ops[0].now).at, Run(b, ops).at;
            first <= last && Weight(b, ops) as real <= b.capacity + Gained(b, last - first) + Slack(Requests(b, ops))
  {
    hide Gained, Run, Weight, Requests, Slack;
    RefillBound(b, ops[0].now);
    var r := Refill(b, ops[0].now);
    RefillFirst(b, ops);
    RunBound(r, ops);
    SameRate(b, r, Run(b, ops).at - r.at);
  }

  // ---------------------------------------------------------------- windows of any clock

  /** All clock readings lie in a window of `span` nanoseconds; the clock may jump about in it. */
  ghost predicate ReadWithin(ops: seq<Op>, lo: int, span: int) {
    forall i | 0 <= i < |ops| :: lo <= ops[i].now <= lo + span
  }

  lemma {:induction false} RunAt(b: Bucket, ops: seq<Op>, end: int)
    requires b.at <= end && forall i | 0 <= i < |ops| :: ops[i].now <= end
    ensures Run(b, ops).at <= end
  {
    if ops != [] {
      RunAt(b, ops[..|ops| - 1], end);
    }
  }

  /** A request that is refused as invalid leaves no trace. */
  lemma {:induction false} InvalidFirst(b: Bucket, ops: seq<Op>)
    requires ops != [] && ops[0].Try? && !Admissible(b, ops[0].weight)
    ensures Run(b, ops[1..]) == Run(b, ops) && Weight(b, ops[1..]) == Weight(b, ops)
            && Requests(b, ops[1..]) == Requests(b, ops)
  {
    var n := |ops| - 1;
    if n == 0 {
      assert ops[..0] == [] && ops[1..] == [];
      assert Run(b, []) == b;
    } else {
      hide Apply, Passed;
      InvalidFirst(b, ops[..n]);
      assert ops[..n][1..] == ops[1..][..n - 1];
    }
  }

  lemma GainedGrows(b: Bucket, m: int, n: int)
    requires b.rate > 0.0 && m <= n
    ensures Gained(b, m) <= Gained(b, n)
  {
    GainedAdds(b, n - m, m);
  }

  /** Whatever happens within a window of `span` nanoseconds, for any clock and any state before: at most
      capacity + rate * window, plus 1e-9 per request. */
  lemma {:induction false} WindowBound(b: Bucket, ops: seq<Op>, lo: int, span: int)
    requires Valid(b) && span >= 0 && ReadWithin(ops, lo, span)
    ensures Weight(b, ops) as real <= b.capacity + Gained(b, span) + Slack(Requests(b, ops))
    decreases |ops|
  {
    if ops == [] {
      GainedAdds(b, span, 0);
    } else if ops[0].Try? && !Admissible(b, ops[0].weight) {
      InvalidFirst(b, ops);
      hide Run, Weight, Requests, Gained;
      WindowBound(b, ops[1..], lo, span);
    } else {
      var first, end := Refill(b, ops[0].now).at, if b.at >= lo + span then b.at else lo + span;
      RunAt(b, ops, end);
      StretchBound(b, ops);
      assert first >= lo && first >= b.at;
      GainedGrows(b, Run(b, ops).at - first, span);
      hide Run, Weight, Requests, Gained;
    }
  }

  /** The exchange budget: capacity L/2, refilled at L/2 per minute. */
  function BinanceBucket(limit: int, now: int): Bucket {
    var c := limit as real / 2.0;
    Bucket(c, c / 60.0, c, now)
  }

  const MINUTE := 60000000000

  /** In any 60 seconds of clock readings at most L is let through, up to 1e-9 per request - and exactly, because
      weights are whole, unless L is astronomical. */
  lemma BudgetHolds(limit: int, b: Bucket, ops: seq<Op>, lo: int)
    requires 0 < limit && Valid(b) && b.capacity == limit as real / 2.0 && b.rate == b.capacity / 60.0
    requires ReadWithin(ops, lo, MINUTE)
    ensures Weight(b, ops) as real <= limit as real + Slack(Requests(b, ops))
    ensures limit < 999999999 ==> Weight(b, ops) <= limit
  {
    WindowBound(b, ops, lo, MINUTE);
    assert Gained(b, MINUTE) == b.capacity;
    RunBound(b, ops);
    hide Weight, Requests, Run, Gained;
    var w, n := Weight(b, ops), Requests(b, ops);
    assert n as real <= limit as real + Slack(n);
    assert limit < 999999999 ==> Slack(n) < 1.0;
  }

  /** Every state of a run of the exchange bucket is such a bucket, so the budget holds in every window of every run,
      whatever the clock. */
  lemma BudgetHoldsInRuns(limit: int, start: int, before: seq<Op>, ops: seq<Op>, lo: int)
    requires 0 < limit && ReadWithin(ops, lo, MINUTE)
    ensures var b := Run(BinanceBucket(limit, start), before);
            && Weight(b, ops) as real <= limit as real + Slack(Requests(b, ops))
            && (limit < 999999999 ==> Weight(b, ops) <= limit)
  {
    var b0 := BinanceBucket(limit, start);
    RunBound(b0, before);
    hide Run, Weight, Requests, Slack;
    BudgetHolds(limit, Run(b0, before), ops, lo);
  }

  // ---------------------------------------------------------------- what the exchange reports

  /** A report never gives tokens: what is left is what was there, or what the exchange has left if that is less. */
  lemma ReportOnlyLowers(b: Bucket, now: int, used: int, limit: int)
    requires Valid(b)
    ensures var (r, e) := (Refill(b, now), Observe(b, now, used, limit));
            && e.tokens >= 0.0 && e.tokens <= Floor0((limit - used) as real) && e.tokens <= Floor0(r.tokens)
            && (e.tokens == Floor0((limit - used) as real) || e.tokens == Floor0(r.tokens))
            && e == r.(tokens := e.tokens)
  {
    hide Refill;
  }

  /** From a state on, at most its tokens and what time earns are let through. */
  lemma FromStateOn(e: Bucket, ops: seq<Op>, left: real)
    requires Valid(e) && Floor0(e.tokens) <= left
    ensures Weight(e, ops) as real <= left + Gained(e, Run(e, ops).at - e.at) + Slack(Requests(e, ops))
  {
    RunBound(e, ops);
    hide Run, Weight, Requests, Gained, Slack;
  }

  /** After a report of `used` out of `limit`, whatever follows: no more than what the exchange has left, plus what time
      earns, plus 1e-9 per request. After a drain: nothing but what time earns. */
  lemma AfterReport(b: Bucket, now: int, used: int, limit: int, ops: seq<Op>)
    requires Valid(b)
    ensures var (e, d) := (Observe(b, now, used, limit), Drain(b, now));
            && Weight(e, ops) as real
               <= Floor0((limit - used) as real) + Gained(e, Run(e, ops).at - e.at) + Slack(Requests(e, ops))
            && Weight(d, ops) as real <= Gained(d, Run(d, ops).at - d.at) + Slack(Requests(d, ops))
  {
    ReportOnlyLowers(b, now, used, limit);
    RefillBound(b, now);
    var (e, d) := (Observe(b, now, used, limit), Drain(b, now));
    assert Valid(e) && Valid(d);
    hide Observe, Drain, Refill, Run, Weight, Requests, Gained, Slack;
    FromStateOn(e, ops, Floor0((limit - used) as real));
    FromStateOn(d, ops, 0.0);
  }

  // ---------------------------------------------------------------- nothing is wasted

  /** Only requests and looks, no reports from the exchange. */
  ghost predicate Undisturbing(ops: seq<Op>) {
    forall i | 0 <= i < |ops| :: ops[i].Try? || ops[i].Peek?
  }

  lemma RefillExact(b: Bucket, now: int)
    requires Valid(b)
    ensures var r := Refill(b, now); r.tokens == Min(b.capacity, b.tokens + Gained(b, r.at - b.at)) && r.at >= b.at
  {
    GainedAdds(b, 0, 0);
  }

  lemma StepKeeps(b: Bucket, op: Op)
    requires Valid(b) && (op.Try? || op.Peek?)
    ensures var e := Apply(b, op);
            e.tokens >= Min(b.capacity, b.tokens + Gained(b, e.at - b.at)) - Passed(b, op) as real && e.at >= b.at
  {
    RefillExact(b, op.now);
    GainedAdds(b, 0, 0);
    hide Gained, Refill;
  }

  lemma CapShifts(c: real, x: real, y: real, w: real, g: real)
    requires w >= 0.0 && g >= 0.0 && y >= Min(c, x) - w
    ensures Min(c, y + g) >= Min(c, x + g) - w
  {
  }

  /** Tokens go only to requests that are let through, and earnings are lost only at the cap. */
  lemma {:induction false} RunKeeps(b: Bucket, ops: seq<Op>)
    requires Valid(b) && Undisturbing(ops)
    ensures var e := Run(b, ops);
            e.tokens >= Min(b.capacity, b.tokens + Gained(b, e.at - b.at)) - Weight(b, ops) as real
  {
    hide Run, Weight, Apply, Passed, Gained, Slack, Requests;
    if ops == [] {
      NothingRun(b);
    } else {
      var n := |ops| - 1;
      var (m, e) := (Run(b, ops[..n]), Run(b, ops));
      RunUnrolls(b, ops);
      RunKeeps(b, ops[..n]);
      RunBound(b, ops[..n]);
      StepKeeps(m, ops[n]);
      GainedAdds(b, m.at - b.at, e.at - m.at);
      GainedAdds(b, e.at - m.at, 0);
      SameRate(b, m, e.at - m.at);
      KeptOnward(b, m, e, Weight(b, ops[..n]), Passed(m, ops[n]));
    }
  }

  lemma NothingRun(b: Bucket)
    requires Valid(b)
    ensures Run(b, []) == b && Weight(b, []) == 0 && b.tokens >= Min(b.capacity, b.tokens + Gained(b, b.at - b.at))
  {
    GainedAdds(b, 0, 0);
  }

  lemma RunUnrolls(b: Bucket, ops: seq<Op>)
    requires ops != []
    ensures var n := |ops| - 1;
            && Run(b, ops) == Apply(Run(b, ops[..n]), ops[n])
            && Weight(b, ops) == Weight(b, ops[..n]) + Passed(Run(b, ops[..n]), ops[n])
  {
    hide Apply, Passed;
  }

  lemma KeptOnward(b: Bucket, m: Bucket, e: Bucket, w: int, more: int)
    requires m.capacity == b.capacity && w >= 0 && Gained(b, e.at - m.at) >= 0.0
    requires Gained(m, e.at - m.at) == Gained(b, e.at - m.at)
    requires Gained(b, e.at - b.at) == Gained(b, m.at - b.at) + Gained(b, e.at - m.at)
    requires m.tokens >= Min(b.capacity, b.tokens + Gained(b, m.at - b.at)) - w as real
    requires e.tokens >= Min(m.capacity, m.tokens + Gained(m, e.at - m.at)) - more as real
    ensures e.tokens >= Min(b.capacity, b.tokens + Gained(b, e.at - b.at)) - (w + more) as real
  {
    hide Gained;
    CapShifts(b.capacity, b.tokens + Gained(b, m.at - b.at), m.tokens, w as real, Gained(b, e.at - m.at));
  }

  /** The bucket does not refuse what it has: a request is denied after a full bucket only if it would take the total
      beyond the capacity. */
  lemma DeniedOnlyWhenSpent(b: Bucket, ops: seq<Op>, now: int, weight: int)
    requires Valid(b) && b.tokens == b.capacity && Undisturbing(ops)
    ensures TryAcquire(Run(b, ops), now, weight).1.Denied? ==> Weight(b, ops) as real + weight as real > b.capacity
  {
    RunKeeps(b, ops);
    RunBound(b, ops);
    GainedAdds(b, Run(b, ops).at - b.at, 0);
    var e := Run(b, ops);
    RefillBound(e, now);
    hide Run, Weight, Gained, Slack, Requests, Refill;
  }

  // ---------------------------------------------------------------- waiting

  lemma WaitAlgebra(deficit: real, rate: real, ns: int)
    requires rate > 0.0 && ns as real >= deficit / rate * NS
    ensures ns as real * rate / NS >= deficit
  {
    var q := deficit / rate;
    assert q * rate == deficit;
    assert (ns as real - q * NS) * rate >= 0.0;
    assert ns as real * rate >= (q * NS) * rate == deficit * NS;
  }

  /** After the computed wait, and any lateness, an admissible request is granted. */
  lemma WaitIsEnough(b: Bucket, weight: int, late: nat)
    requires Valid(b) && Admissible(b, weight)
    ensures TryAcquire(b, b.at + WaitNs(b, weight) + late, weight).1.Granted?
    ensures !Admits(b, weight) ==> WaitNs(b, weight) > 0
  {
    var deficit, ns := weight as real - b.tokens, WaitNs(b, weight);
    GainedAdds(b, late, 0);
    if deficit > EPS {
      WaitAlgebra(deficit, b.rate, ns);
      GainedAdds(b, ns, late);
      assert ns > 0 by { assert Gained(b, ns) >= deficit > 0.0; NoGain(b, ns); }
    }
  }

  lemma NoGain(b: Bucket, ns: int)
    requires b.rate > 0.0 && Gained(b, ns) > 0.0
    ensures ns > 0
  {
    assert ns <= 0 ==> ns as real * b.rate <= 0.0;
  }

  /** The reading at which a request that is denied now will be granted at the latest. */
  function ReadyAt(b: Bucket, weight: int): int
    requires b.rate > 0.0
  {
    b.at + WaitNs(b, weight)
  }

  lemma ReadyMeans(b: Bucket, weight: int, now: int)
    requires Valid(b) && Admissible(b, weight) && now >= ReadyAt(b, weight)
    ensures TryAcquire(b, now, weight).1.Granted?
  {
    WaitIsEnough(b, weight, now - ReadyAt(b, weight));
  }

  lemma CeilShifts(x: real, k: int)
    ensures Ceil(x - k as real) <= Ceil(x) - k
  {
    var c, d := Ceil(x), Ceil(x - k as real);
    assert d as real < x - k as real + 1.0 <= (c - k) as real + 1.0;
  }

  lemma DeficitShifts(b: Bucket, deficit: real, k: int)
    requires b.rate > 0.0
    ensures NsFor(deficit - Gained(b, k), b.rate) == NsFor(deficit, b.rate) - k as real
  {
    var q, g, rate := deficit / b.rate, k as real / NS, b.rate;
    assert Gained(b, k) == g * rate;
    assert (deficit - g * rate) / rate == q - g by {
      assert (q - g) * rate == deficit - g * rate;
    }
    assert (q - g) * NS == q * NS - k as real;
  }

  /** Being denied again on the way does not put it off. */
  lemma ReadyStays(b: Bucket, weight: int, now: int)
    requires Valid(b) && Admissible(b, weight) && TryAcquire(b, now, weight).1.Denied?
    ensures ReadyAt(Refill(b, now), weight) <= ReadyAt(b, weight) && now < ReadyAt(b, weight)
    ensures WaitNs(Refill(b, now), weight) > 0
  {
    hide Gained, WaitNs;
    if now >= ReadyAt(b, weight) {
      ReadyMeans(b, weight, now);
      assert false;
    }
    RefillBound(b, now);
    WaitIsEnough(Refill(b, now), weight, 0);
    if now > b.at {
      WaitShrinks(b, weight, now - b.at);
    }
  }

  lemma WaitShrinks(b: Bucket, weight: int, k: int)
    requires Valid(b) && Admissible(b, weight) && k > 0
    ensures var r := Refill(b, b.at + k); !Admits(r, weight) ==> WaitNs(r, weight) <= WaitNs(b, weight) - k
  {
    var r, deficit := Refill(b, b.at + k), weight as real - b.tokens;
    GainedAdds(b, k, 0);
    hide Gained, NsFor, Ceil;
    if !Admits(r, weight) {
      assert r.tokens == b.tokens + Gained(b, k);
      DeficitShifts(b, deficit, k);
      CeilShifts(NsFor(deficit, b.rate), k);
    }
  }

  // ---------------------------------------------------------------- waiting while others act

  /** A sleep between two tries: the reading for which the wait is computed, what others do to the bucket in the
      meantime (nothing but `acquire` takes the lock), and the reading on waking up. */
  datatype Nap = Nap(look: int, others: seq<Op>, wake: int)

  /** The reading of the try that follows the naps. */
  function TryTime(start: int, naps: seq<Nap>): int {
    if naps == [] then start else naps[|naps| - 1].wake
  }

  /** The bucket for which the last wait was computed. */
  function Looked(b: Bucket, start: int, weight: int, naps: seq<Nap>): (r: Bucket)
    requires Valid(b) && naps != []
    ensures Valid(r) && r.rate == b.rate && r.capacity == b.capacity
    decreases |naps|, 0
  {
    var init := naps[..|naps| - 1];
    var v := BeforeTry(b, start, weight, init);
    StepBound(v, Try(TryTime(start, init), weight));
    StepBound(TryAcquire(v, TryTime(start, init), weight).0, Peek(naps[|naps| - 1].look));
    Refill(TryAcquire(v, TryTime(start, init), weight).0, naps[|naps| - 1].look)
  }

  /** The bucket at the try that follows the naps, and after it. */
  function BeforeTry(b: Bucket, start: int, weight: int, naps: seq<Nap>): (r: Bucket)
    requires Valid(b)
    ensures Valid(r) && r.rate == b.rate && r.capacity == b.capacity
    decreases |naps|, 1
  {
    if naps == [] then b
    else
      var v := Looked(b, start, weight, naps);
      RunBound(v, naps[|naps| - 1].others);
      Run(v, naps[|naps| - 1].others)
  }

  function Tried(b: Bucket, start: int, weight: int, naps: seq<Nap>): (Bucket, Answer)
    requires Valid(b)
  {
    TryAcquire(BeforeTry(b, start, weight, naps), TryTime(start, naps), weight)
  }

  /** What the naps were asked to take, and what others got meanwhile. */
  function Slept(b: Bucket, start: int, weight: int, naps: seq<Nap>): int
    requires Valid(b)
    decreases |naps|
  {
    if naps == [] then 0
    else Slept(b, start, weight, naps[..|naps| - 1]) + WaitNs(Looked(b, start, weight, naps), weight)
  }

  function ByOthers(b: Bucket, start: int, weight: int, naps: seq<Nap>): int
    requires Valid(b)
    decreases |naps|
  {
    if naps == [] then 0
    else
      var n := |naps| - 1;
      ByOthers(b, start, weight, naps[..n]) + Weight(Looked(b, start, weight, naps), naps[n].others)
  }

  /** All tries but the last were denied. */
  ghost predicate DeniedSoFar(b: Bucket, start: int, weight: int, naps: seq<Nap>)
    requires Valid(b)
  {
    forall i | 0 <= i < |naps| :: Tried(b, start, weight, naps[..i]).1.Denied?
  }

  /** The operations of one acquisition, others' included. */
  function Trace(start: int, weight: int, naps: seq<Nap>): seq<Op>
    decreases |naps|
  {
    if naps == [] then [Try(start, weight)]
    else
      var n := |naps| - 1;
      Trace(start, weight, naps[..n]) + [Peek(naps[n].look)] + naps[n].others + [Try(naps[n].wake, weight)]
  }

  lemma {:induction false} RunOn(b: Bucket, s: seq<Op>, t: seq<Op>)
    ensures Run(b, s + t) == Run(Run(b, s), t) && Weight(b, s + t) == Weight(b, s) + Weight(Run(b, s), t)
    decreases |t|
  {
    hide Apply, Passed;
    if t == [] {
      assert s + t == s;
    } else {
      var n := |t| - 1;
      assert (s + t)[..|s + t| - 1] == s + t[..n];
      RunOn(b, s, t[..n]);
    }
  }

  lemma RunOne(b: Bucket, op: Op)
    ensures Run(b, [op]) == Apply(b, op) && Weight(b, [op]) == Passed(b, op)
  {
    assert [op][..0] == [];
    assert Run(b, []) == b && Weight(b, []) == 0;
  }

  /** An acquisition is a stretch of a run like any other, so the budget covers it; it admits its own weight once, and
      what others got meanwhile. */
  lemma {:induction false} AcquiringIsARun(b: Bucket, start: int, weight: int, naps: seq<Nap>)
    requires Valid(b) && Admissible(b, weight) && DeniedSoFar(b, start, weight, naps)
    ensures Run(b, Trace(start, weight, naps)) == Tried(b, start, weight, naps).0
    ensures Weight(b, Trace(start, weight, naps))
            == ByOthers(b, start, weight, naps) + if Tried(b, start, weight, naps).1.Granted? then weight else 0
    decreases |naps|
  {
    hide Run, Weight, Refill, Admits;
    var own := Try(TryTime(start, naps), weight);
    var v := BeforeTry(b, start, weight, naps);
    RunOne(v, own);
    if naps != [] {
      var n := |naps| - 1;
      var (init, nap) := (naps[..n], naps[n]);
      var (head, looked) := (Trace(start, weight, init), Looked(b, start, weight, naps));
      assert forall i | 0 <= i < n :: init[..i] == naps[..i];
      assert Tried(b, start, weight, init).1.Denied?;
      AcquiringIsARun(b, start, weight, init);
      RunOn(b, head, [Peek(nap.look)]);
      RunOne(Tried(b, start, weight, init).0, Peek(nap.look));
      RunOn(b, head + [Peek(nap.look)], nap.others);
      RunOn(b, head + [Peek(nap.look)] + nap.others, [own]);
    }
  }

  /** One more denied try and nap. */
  lemma NapStep(b: Bucket, start: int, weight: int, naps: seq<Nap>, nap: Nap)
    requires Valid(b) && Admissible(b, weight)
    ensures var more := naps + [nap];
            && TryTime(start, more) == nap.wake && more[..|naps|] == naps
            && Looked(b, start, weight, more) == Refill(Tried(b, start, weight, naps).0, nap.look)
            && BeforeTry(b, start, weight, more) == Run(Looked(b, start, weight, more), nap.others)
            && Slept(b, start, weight, more) == Slept(b, start, weight, naps)
                 + WaitNs(Looked(b, start, weight, more), weight)
            && ByOthers(b, start, weight, more)
               == ByOthers(b, start, weight, naps) + Weight(Looked(b, start, weight, more), nap.others)
    ensures DeniedSoFar(b, start, weight, naps) && Tried(b, start, weight, naps).1.Denied?
            ==> DeniedSoFar(b, start, weight, naps + [nap])
  {
    var more := naps + [nap];
    assert more[..|naps|] == naps;
    assert forall i | 0 <= i < |naps| :: more[..i] == naps[..i];
    hide Run, Weight, Refill, WaitNs, Admits;
  }

  /** A nap nobody disturbs: the clock does not go back, and the sleep takes at least as long as asked. */
  ghost predicate Undisturbed(b: Bucket, start: int, weight: int, naps: seq<Nap>)
    requires Valid(b) && naps != []
  {
    var n := |naps| - 1;
    && naps[n].others == [] && naps[n].look >= TryTime(start, naps[..n])
    && naps[n].wake >= naps[n].look + WaitNs(Looked(b, start, weight, naps), weight)
  }

  /** The naps are the disturbed ones, in order, and after them only undisturbed ones. */
  ghost predicate Planned(b: Bucket, start: int, weight: int, naps: seq<Nap>, disturbed: seq<Nap>)
    requires Valid(b)
  {
    if |naps| <= |disturbed| then naps == disturbed[..|naps|]
    else disturbed <= naps && forall i | |disturbed| < i <= |naps| :: Undisturbed(b, start, weight, naps[..i])
  }

  lemma PlannedOn(b: Bucket, start: int, weight: int, naps: seq<Nap>, nap: Nap, disturbed: seq<Nap>)
    requires Valid(b) && Planned(b, start, weight, naps, disturbed)
    requires if |naps| < |disturbed| then nap == disturbed[|naps|] else Undisturbed(b, start, weight, naps + [nap])
    ensures Planned(b, start, weight, naps + [nap], disturbed)
    ensures |naps| == |disturbed| ==> naps == disturbed
  {
    hide Undisturbed;
    var more := naps + [nap];
    assert more[..|more|] == more;
    assert forall i | 0 <= i <= |naps| :: more[..i] == naps[..i];
  }

  /** A denied try and an undisturbed nap: denied again only if the clock was behind, and then no later is needed. */
  lemma NapHelps(v: Bucket, weight: int, now: int, look: int, wake: int)
    requires Valid(v) && Admissible(v, weight) && TryAcquire(v, now, weight).1.Denied? && look >= now
    requires wake >= look + WaitNs(Refill(Refill(v, now), look), weight)
    ensures var u := Refill(Refill(v, now), look);
            && (now >= v.at ==> TryAcquire(u, wake, weight).1.Granted?)
            && (TryAcquire(u, wake, weight).1.Denied? ==>
                  now < wake < ReadyAt(v, weight) && ReadyAt(u, weight) <= ReadyAt(v, weight))
  {
    hide Gained, WaitNs;
    var r := Refill(v, now);
    var u := Refill(r, look);
    RefillBound(v, now);
    RefillBound(r, look);
    ReadyStays(v, weight, now);
    if Admits(u, weight) {
      StillAdmits(u, weight, wake);
    } else {
      assert TryAcquire(r, look, weight).1.Denied?;
      ReadyStays(r, weight, look);
      if now >= v.at {
        ReadyMeans(u, weight, wake);
      } else if TryAcquire(u, wake, weight).1.Denied? {
        ReadyStays(u, weight, wake);
      }
    }
  }

  lemma QuietNap(b: Bucket, start: int, weight: int, naps: seq<Nap>, nap: Nap)
    requires Valid(b) && Admissible(b, weight) && Tried(b, start, weight, naps).1.Denied? && nap.others == []
    requires var now := TryTime(start, naps);
             now <= nap.look && nap.wake >= nap.look + WaitNs(Looked(b, start, weight, naps + [nap]), weight)
    ensures var (now, v, u) := (TryTime(start, naps), BeforeTry(b, start, weight, naps),
            BeforeTry(b, start, weight, naps + [nap]));
            && Undisturbed(b, start, weight, naps + [nap])
            && (now >= v.at ==> Tried(b, start, weight, naps + [nap]).1.Granted?)
            && (Tried(b, start, weight, naps + [nap]).1.Denied? ==>
                  now < nap.wake < ReadyAt(v, weight) && ReadyAt(u, weight) <= ReadyAt(v, weight))
  {
    NapStep(b, start, weight, naps, nap);
    var (now, v) := (TryTime(start, naps), BeforeTry(b, start, weight, naps));
    assert (naps + [nap])[..|naps|] == naps;
    hide Refill, WaitNs, Admits, Looked, BeforeTry;
    NapHelps(v, weight, now, nap.look, nap.wake);
  }

  lemma StillAdmits(u: Bucket, weight: int, wake: int)
    requires Valid(u) && Admissible(u, weight) && Admits(u, weight)
    ensures TryAcquire(u, wake, weight).1.Granted?
  {
    hide Gained;
    RefillBound(u, wake);
  }

  // ---------------------------------------------------------------- the mutable bucket

  class TokenBucket {
    const capacity: real
    const rate: real
    var tokens: real
    var at: int
    var totalWaitNs: int
    var acquired: int

    ghost function View(): Bucket
      reads this
    {
      Bucket(capacity, rate, tokens, at)
    }

    constructor (capacity: real, rate: real, initial: Option<real>, now: int)
      requires capacity > 0.0 && rate > 0.0
      ensures Valid(View()) && this.capacity == capacity && this.rate == rate && at == now && acquired == 0
      ensures initial.None? ==> tokens == capacity
    {
      this.capacity, this.rate := capacity, rate;
      tokens := if initial.None? then capacity else Min(initial.value, capacity);
      at, totalWaitNs, acquired := now, 0, 0;
    }

    method RefillTo(now: int)
      modifies this`tokens, this`at
      ensures View() == Refill(old(View()), now)
    {
      if now > at {
        var gained := (now - at) as real * rate / NS;
        tokens := Min(capacity, tokens + gained);
        at := now;
      }
    }

    method Try(now: int, weight: int) returns (answer: Answer)
      modifies this`tokens, this`at, this`acquired
      ensures (View(), answer) == TryAcquire(old(View()), now, weight)
      ensures acquired == old(acquired) + if answer.Granted? then weight else 0
    {
      if weight <= 0 || weight as real > capacity {
        return Invalid;
      }
      RefillTo(now);
      if tokens + EPS >= weight as real {
        tokens := Floor0(tokens - weight as real);
        acquired := acquired + weight;
        return Granted;
      }
      answer := Denied;
    }

    method ObserveUsedWeight(now: int, used: int, limit: int)
      modifies this`tokens, this`at
      ensures View() == Observe(old(View()), now, used, limit)
    {
      RefillTo(now);
      tokens := Floor0(Min(tokens, (limit - used) as real));
    }

    method DrainAll(now: int)
      modifies this`tokens, this`at
      ensures View() == Drain(old(View()), now)
    {
      RefillTo(now);
      tokens := 0.0;
    }

    /** What others do to the bucket, one operation after the other. */
    method Others(ops: seq<Op>)
      modifies this`tokens, this`at, this`acquired
      ensures View() == Run(old(View()), ops) && acquired == old(acquired) + Weight(old(View()), ops)
    {
      hide Refill, Admits;
      for i := 0 to |ops|
        invariant View() == Run(old(View()), ops[..i]) && acquired == old(acquired) + Weight(old(View()), ops[..i])
      {
        assert ops[..i + 1][..i] == ops[..i];
        match ops[i] {
          case Try(now, weight) => var answer := Try(now, weight);
          case Peek(now) => RefillTo(now);
          case Header(now, used, limit) => ObserveUsedWeight(now, used, limit);
          case Empty(now) => DrainAll(now);
        }
      }
      assert ops[..|ops|] == ops;
    }

    /** One nap after a denied try, and the next try: the nap that is given, or an undisturbed one for the computed
        wait. */
    method SleepAndTry(ghost b: Bucket, ghost start: int, weight: int, ghost naps: seq<Nap>, given: Option<Nap>,
        look: int, late: nat) returns (nap: Nap, ns: int, answer: Answer)
      requires Valid(b) && Admissible(b, weight) && View() == Tried(b, start, weight, naps).0
      modifies this`tokens, this`at, this`acquired
      ensures nap == if given.Some? then given.value else Nap(look, [], look + ns + late)
      ensures (View(), answer) == Tried(b, start, weight, naps + [nap])
      ensures ns == WaitNs(Looked(b, start, weight, naps + [nap]), weight) && !answer.Invalid?
      ensures acquired == old(acquired) + Weight(Looked(b, start, weight, naps + [nap]), nap.others)
                          + if answer.Granted? then weight else 0
    {
      hide Refill, Run, Weight, WaitNs, Admits, BeforeTry, Looked, DeniedSoFar, Slept, ByOthers;
      NapStep(b, start, weight, naps, if given.Some? then given.value else Nap(look, [], 0));
      RefillTo(if given.Some? then given.value.look else look);
      ns := WaitNs(Bucket(capacity, rate, tokens, at), weight);
      nap := if given.Some? then given.value else Nap(look, [], look + ns + late);
      NapStep(b, start, weight, naps, nap);
      Others(nap.others);
      answer := Try(nap.wake, weight);
    }

    /** `disturbed` are the first naps, during which others may use the bucket and the clock may jump about; after them
        nothing disturbs: `lag` is what passes between a try and its nap, `late` how much longer than asked a nap takes.
        The loop ends however many naps are disturbed, and one undisturbed nap is enough if the clock is not behind. */
    method Acquire(start: int, weight: int, disturbed: seq<Nap>, lag: nat -> nat, late: nat -> nat)
        returns (ok: bool, now: int, waited: int, ghost naps: seq<Nap>)
      requires Valid(View())
      modifies this
      ensures Valid(View()) && ok == Admissible(old(View()), weight)
      ensures !ok ==> View() == old(View()) && now == start && waited == 0 && naps == [] && acquired == old(acquired)
      ensures ok ==> DeniedSoFar(old(View()), start, weight, naps)
      ensures ok ==> (View(), Granted) == Tried(old(View()), start, weight, naps)
      ensures ok ==> now == TryTime(start, naps) && waited == Slept(old(View()), start, weight, naps)
      ensures ok ==> acquired == old(acquired) + weight + ByOthers(old(View()), start, weight, naps)
      ensures totalWaitNs == old(totalWaitNs) + waited
      ensures ok ==> Planned(old(View()), start, weight, naps, disturbed)
      ensures |naps| > |disturbed| && TryTime(start, disturbed) >= BeforeTry(old(View()), start, weight, disturbed).at
              ==> |naps| == |disturbed| + 1
    {
      naps := [];
      assert disturbed[..0] == [];
      if weight <= 0 || weight as real > capacity {
        return false, start, 0, [];
      }
      now, waited, ok := start, 0, true;
      var d := |disturbed|;
      ghost var b, ready := View(), ReadyAt(View(), weight);
      hide Refill, Run, Weight, WaitNs, Admits, Undisturbed, Planned, DeniedSoFar, BeforeTry, Looked, Slept, ByOthers,
        TryAcquire;
      var answer := Try(now, weight);
      var k := 0;
      while answer.Denied?
        invariant k == |naps| && now == TryTime(start, naps) && Admissible(b, weight)
        invariant (View(), answer) == Tried(b, start, weight, naps) && DeniedSoFar(b, start, weight, naps)
        invariant waited == Slept(b, start, weight, naps) && totalWaitNs == old(totalWaitNs)
        invariant acquired == old(acquired) + ByOthers(b, start, weight, naps) + if answer.Granted? then weight else 0
        invariant Planned(b, start, weight, naps, disturbed)
        invariant k > d && answer.Denied? ==> now < ready && ReadyAt(BeforeTry(b, start, weight, naps), weight) <= ready
        invariant k > d && TryTime(start, disturbed) >= BeforeTry(b, start, weight, disturbed).at
                  ==> k == d + 1 && !answer.Denied?
        decreases if k <= d then d - k + 1 else 0, if k > d && answer.Denied? then ready - now else 0
      {
        var ns, nap;
        nap, ns, answer := SleepAndTry(b, start, weight, naps, if k < d then Some(disturbed[k]) else None, now + lag(k),
          late(k));
        NapStep(b, start, weight, naps, nap);
        if k >= d {
          if k == d { ready := ReadyAt(BeforeTry(b, start, weight, naps), weight); }
          QuietNap(b, start, weight, naps, nap);
        }
        PlannedOn(b, start, weight, naps, nap, disturbed);
        naps := naps + [nap];
        now, waited, k := nap.wake, waited + ns, k + 1;
      }
      totalWaitNs := totalWaitNs + waited;
    }
  }
}
