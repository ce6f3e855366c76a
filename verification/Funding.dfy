/** The funding schedule: moments at fixed hours of each UTC day. */
module Funding {
  import opened Base

  const NS_PER_HOUR: int := 3_600_000_000_000
  const NS_PER_DAY: int := 86_400_000_000_000

  /** Offsets of the funding moments within a day: sorted, distinct, at least one. */
  ghost predicate Schedule(offs: seq<int>) {
    && offs != []
    && (forall i | 0 <= i < |offs| :: 0 <= offs[i] < NS_PER_DAY)
    && forall i, j | 0 <= i < j < |offs| :: offs[i] < offs[j]
  }

  predicate IsFunding(offs: seq<int>, t: int) {
    t % NS_PER_DAY in offs
  }

  function DayOf(t: int): int {
    t - t % NS_PER_DAY
  }

  // ---------------------------------------------------------------- next moment

  function FirstAfter(offs: seq<int>, day: int, t: int): Option<int> {
    if offs == [] then None
    else if day + offs[0] > t then Some(day + offs[0])
    else FirstAfter(offs[1..], day, t)
  }

  function NextFunding(offs: seq<int>, t: int): int
    requires offs != []
  {
    var r := FirstAfter(offs, DayOf(t), t);
    if r.Some? then r.value else DayOf(t) + NS_PER_DAY + offs[0]
  }

  lemma {:induction false} FirstAfterIs(offs: seq<int>, day: int, t: int)
    requires forall i, j | 0 <= i < j < |offs| :: offs[i] < offs[j]
    ensures var r := FirstAfter(offs, day, t);
            && (r.None? <==> forall o | o in offs :: day + o <= t)
            && (r.Some? ==> r.value > t && r.value - day in offs && forall o | o in offs && day + o > t ::
                 r.value <= day + o)
  {
    assert offs != [] ==> offs[0] in offs;
    if offs != [] && day + offs[0] <= t {
      FirstAfterIs(offs[1..], day, t);
      assert offs == [offs[0]] + offs[1..];
      assert forall o :: o in offs <==> o == offs[0] || o in offs[1..];
    }
  }

  /** A time of day, counted from the start of its own day. */
  lemma TimeOfDay(day: int, o: int)
    requires day % NS_PER_DAY == 0 && 0 <= o < NS_PER_DAY
    ensures (day + o) % NS_PER_DAY == o
  {
  }

  lemma WithinTwoDays(t: int, u: int)
    requires t < u < DayOf(t) + 2 * NS_PER_DAY
    ensures u == DayOf(t) + u % NS_PER_DAY || u == DayOf(t) + NS_PER_DAY + u % NS_PER_DAY
    ensures DayOf(t) % NS_PER_DAY == 0 && DayOf(t) <= t < DayOf(t) + NS_PER_DAY
  {
  }

  /** What the search finds, in terms of the day of `t`. */
  lemma NextByDay(offs: seq<int>, t: int)
    requires Schedule(offs)
    ensures var (day, n) := (DayOf(t), NextFunding(offs, t));
            && t < n < day + 2 * NS_PER_DAY
            && (n - day in offs || n - day - NS_PER_DAY in offs)
            && forall o | o in offs :: 0 <= o < NS_PER_DAY && (day + o <= t || n <= day + o)
                 && n <= day + NS_PER_DAY + o
  {
    FirstAfterIs(offs, DayOf(t), t);
    WithinTwoDays(t, t + 1);
    assert offs[0] in offs && forall o | o in offs :: 0 <= o < NS_PER_DAY;
    assert forall i | 0 <= i < |offs| :: offs[0] <= offs[i];
    hide DayOf, FirstAfter;
  }

  /** The moment is strictly later, it is a funding moment, and none lies in between. */
  lemma NextFundingIsNext(offs: seq<int>, t: int)
    requires Schedule(offs)
    ensures var n := NextFunding(offs, t); n > t && IsFunding(offs, n) && forall u | t < u < n :: !IsFunding(offs, u)
  {
    var (day, n) := (DayOf(t), NextFunding(offs, t));
    NextByDay(offs, t);
    WithinTwoDays(t, n);
    hide DayOf, NextFunding, Schedule;
    TimeOfDay(day, if n - day in offs then n - day else n - day - NS_PER_DAY);
    if n - day !in offs {
      TimeOfDay(day + NS_PER_DAY, n - day - NS_PER_DAY);
    }
    forall u | t < u < n ensures u % NS_PER_DAY !in offs {
      WithinTwoDays(t, u);
    }
  }

  // ---------------------------------------------------------------- moments of an interval

  function InDay(offs: seq<int>, day: int, lo: int, hi: int): seq<int> {
    if offs == [] then []
    else (if lo < day + offs[0] <= hi then [day + offs[0]] else []) + InDay(offs[1..], day, lo, hi)
  }

  function FromDay(offs: seq<int>, day: int, lo: int, hi: int): seq<int>
    decreases hi - day
  {
    if day > hi then [] else InDay(offs, day, lo, hi) + FromDay(offs, day + NS_PER_DAY, lo, hi)
  }

  /** Funding moments in (lo, hi], in order. */
  function FundingTimes(offs: seq<int>, lo: int, hi: int): seq<int> {
    if hi <= lo then [] else FromDay(offs, DayOf(lo), lo, hi)
  }

  lemma {:induction false} InDayIs(offs: seq<int>, day: int, lo: int, hi: int)
    requires forall i, j | 0 <= i < j < |offs| :: offs[i] < offs[j]
    ensures Ascending(InDay(offs, day, lo, hi))
    ensures forall t :: t in InDay(offs, day, lo, hi) <==> lo < t <= hi && t - day in offs
  {
    if offs != [] {
      InDayIs(offs[1..], day, lo, hi);
      var rest := InDay(offs[1..], day, lo, hi);
      assert offs == [offs[0]] + offs[1..];
      forall i | 0 <= i < |rest| ensures day + offs[0] < rest[i] {
        assert rest[i] in rest;
        var o := rest[i] - day;
        var k :| 0 <= k < |offs[1..]| && offs[1..][k] == o;
        assert offs[k + 1] == o;
      }
    }
  }

  lemma {:induction false} FromDayIs(offs: seq<int>, day: int, lo: int, hi: int)
    requires Schedule(offs) && day % NS_PER_DAY == 0
    ensures Ascending(FromDay(offs, day, lo, hi))
    ensures forall t :: t in FromDay(offs, day, lo, hi) <==> lo < t <= hi && day <= t && IsFunding(offs, t)
    decreases hi - day
  {
    if day <= hi {
      InDayIs(offs, day, lo, hi);
      TimeOfDay(day, 0);
      NextDay(day);
      FromDayIs(offs, day + NS_PER_DAY, lo, hi);
      var (a, b) := (InDay(offs, day, lo, hi), FromDay(offs, day + NS_PER_DAY, lo, hi));
      OffsetsInDay(offs);
      hide Schedule, InDay, FromDay, IsFunding;
      forall t ensures t in a + b <==> lo < t <= hi && day <= t && IsFunding(offs, t) {
        OnThisDay(offs, day, t);
      }
      AscendingConcat(a, b, day + NS_PER_DAY - 1);
    }
  }

  lemma NextDay(day: int)
    requires day % NS_PER_DAY == 0
    ensures (day + NS_PER_DAY) % NS_PER_DAY == 0
  {
  }

  lemma OffsetsInDay(offs: seq<int>)
    requires Schedule(offs)
    ensures forall o | o in offs :: 0 <= o < NS_PER_DAY
  {
  }

  lemma OnThisDay(offs: seq<int>, day: int, t: int)
    requires day % NS_PER_DAY == 0
    ensures day <= t < day + NS_PER_DAY ==> (IsFunding(offs, t) <==> t - day in offs)
  {
    if day <= t < day + NS_PER_DAY {
      TimeOfDay(day, t - day);
    }
  }

  /** Exactly the funding moments after `lo` up to and including `hi`, in ascending order. */
  lemma FundingTimesExact(offs: seq<int>, lo: int, hi: int)
    requires Schedule(offs)
    ensures Ascending(FundingTimes(offs, lo, hi))
    ensures forall t :: t in FundingTimes(offs, lo, hi) <==> lo < t <= hi && IsFunding(offs, t)
  {
    if lo < hi {
      assert DayOf(lo) % NS_PER_DAY == 0;
      FromDayIs(offs, DayOf(lo), lo, hi);
    }
  }

  lemma {:induction false} AscendingUnique(s: seq<int>, t: seq<int>)
    requires Ascending(s) && Ascending(t) && forall x :: x in s <==> x in t
    ensures s == t
    decreases |s|
  {
    HeadIn(s, t);
    HeadIn(t, s);
    if s != [] {
      assert s[0] == t[0];
      TailOf(s);
      TailOf(t);
      AscendingUnique(s[1..], t[1..]);
      assert s == [s[0]] + s[1..] && t == [t[0]] + t[1..];
    }
  }

  lemma HeadIn(s: seq<int>, t: seq<int>)
    requires forall x | x in s :: x in t
    ensures s != [] ==> s[0] in t
  {
    if s != [] {
      var x := s[0];
      assert x in s;
    }
  }

  lemma TailOf(s: seq<int>)
    requires Ascending(s) && s != []
    ensures Ascending(s[1..]) && forall x :: x in s[1..] <==> x in s && x != s[0]
  {
    assert s == [s[0]] + s[1..];
  }

  /** Splitting an interval splits its moments: nothing is charged twice or skipped at the seam. */
  lemma FundingTimesAdditive(offs: seq<int>, a: int, b: int, c: int)
    requires Schedule(offs) && a <= b <= c
    ensures FundingTimes(offs, a, b) + FundingTimes(offs, b, c) == FundingTimes(offs, a, c)
  {
    FundingTimesExact(offs, a, b);
    FundingTimesExact(offs, b, c);
    FundingTimesExact(offs, a, c);
    hide FundingTimes, IsFunding, Schedule;
    var x, y := FundingTimes(offs, a, b), FundingTimes(offs, b, c);
    AscendingConcat(x, y, b);
    AscendingUnique(x + y, FundingTimes(offs, a, c));
  }

  lemma AscendingConcat(x: seq<int>, y: seq<int>, b: int)
    requires Ascending(x) && Ascending(y) && (forall t | t in x :: t <= b) && forall t | t in y :: b < t
    ensures Ascending(x + y)
  {
    forall i, j | 0 <= i < j < |x + y| ensures (x + y)[i] < (x + y)[j] {
      if i < |x| <= j {
        assert x[i] in x && y[j - |x|] in y;
      }
    }
  }

  /** A charge is due exactly when the next moment after `lo` has come. */
  lemma DueExactlyWhenNextPassed(offs: seq<int>, lo: int, hi: int)
    requires Schedule(offs)
    ensures FundingTimes(offs, lo, hi) != [] <==> NextFunding(offs, lo) <= hi
  {
    FundingTimesExact(offs, lo, hi);
    NextFundingIsNext(offs, lo);
    var n, s := NextFunding(offs, lo), FundingTimes(offs, lo, hi);
    if n <= hi {
      assert n in s;
    }
    if s != [] {
      assert s[0] in s;
    }
  }

  // ---------------------------------------------------------------- the loops of the cost model

  method ComputeFundingTimes(offs: seq<int>, lo: int, hi: int) returns (out: seq<int>)
    ensures out == FundingTimes(offs, lo, hi)
  {
    out := [];
    if hi <= lo {
      return;
    }
    var day := lo - lo % NS_PER_DAY;
    while day <= hi
      invariant out + FromDay(offs, day, lo, hi) == FundingTimes(offs, lo, hi)
      decreases hi - day
    {
      ghost var before := out;
      for i := 0 to |offs|
        invariant out + InDay(offs[i..], day, lo, hi) == before + InDay(offs, day, lo, hi)
      {
        hide FundingTimes, FromDay;
        InDayStep(out, offs, i, day, lo, hi);
        if lo < day + offs[i] <= hi {
          out := out + [day + offs[i]];
        }
      }
      assert out == before + InDay(offs, day, lo, hi);
      assert (before + InDay(offs, day, lo, hi)) + FromDay(offs, day + NS_PER_DAY, lo, hi)
          == before + FromDay(offs, day, lo, hi);
      day := day + NS_PER_DAY;
    }
  }

  lemma InDayStep(out: seq<int>, offs: seq<int>, i: nat, day: int, lo: int, hi: int)
    requires i < |offs|
    ensures out + InDay(offs[i..], day, lo, hi)
         == (if lo < day + offs[i] <= hi then out + [day + offs[i]] else out) + InDay(offs[i + 1..], day, lo, hi)
  {
    assert offs[i..][1..] == offs[i + 1..];
  }

  method ComputeNextFunding(offs: seq<int>, t: int) returns (n: int)
    requires offs != []
    ensures n == NextFunding(offs, t)
  {
    var day := t - t % NS_PER_DAY;
    for i := 0 to |offs|
      invariant FirstAfter(offs[i..], day, t) == FirstAfter(offs, day, t)
    {
      assert offs[i..][0] == offs[i] && offs[i..][1..] == offs[i + 1..];
      if day + offs[i] > t {
        return day + offs[i];
      }
    }
    n := day + NS_PER_DAY + offs[0];
  }
}
