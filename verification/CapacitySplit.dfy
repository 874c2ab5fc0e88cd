/**
 * calcSoc (Controller/src/proxy1.c): the capacity is split over the TokenGens in
 * proportion to their incoming rates, rounded, with 1 for a TokenGen without traffic.
 * Rates and quotients are real numbers here.
 */
module CapacitySplit {
  import opened VirtualQueue
  import opened QueueTimeline

  /** round(): halves go away from zero. */
  function Round(x: real): int {
    if x >= 0.0 then (x + 0.5).Floor else -((0.5 - x).Floor)
  }

  function Abs(x: real): real { if x < 0.0 then -x else x }

  /** The nearest integer, and of two that are equally near the one further from zero. */
  lemma RoundIsNear(x: real)
    ensures x - 0.5 <= Round(x) as real <= x + 0.5
    ensures Abs(Round(x) as real - x) == 0.5 ==> Abs(Round(x) as real) > Abs(x)
  {
  }

  /** The sum of the first n rates. */
  function Total(rates: seq<real>, n: nat): real
    requires n <= |rates|
  {
    if n == 0 then 0.0 else Total(rates, n - 1) + rates[n - 1]
  }

  function Part(rate: real, sum: real, c: real): real
    requires sum != 0.0
  {
    rate / sum * c
  }

  /** The share of a TokenGen with the given rate; the quotient 1 / n of the branch without
      traffic is an integer division. */
  function Share(rate: real, sum: real, n: nat, capacity: int): int
    requires n >= 1
  {
    if sum == 0.0 then Round((1 / n * capacity) as real)
    else if rate == 0.0 then 1
    else Round(Part(rate, sum, capacity as real))
  }

  function Shares(rates: seq<real>, capacity: int): (soc: seq<int>)
    ensures |soc| == |rates|
  {
    seq(|rates|, i requires 0 <= i < |rates| => Share(rates[i], Total(rates, |rates|), |rates|, capacity))
  }

  function Active(rates: seq<real>, n: nat): nat
    requires n <= |rates|
  {
    if n == 0 then 0 else Active(rates, n - 1) + if rates[n - 1] == 0.0 then 0 else 1
  }

  lemma Distribute(a: real, b: real, s: real, c: real)
    requires s != 0.0
    ensures (a + b) / s * c == a / s * c + b / s * c
  {
    assert (a + b) / s == a / s + b / s;
  }

  /** The exact, unrounded parts. */
  function Parts(rates: seq<real>, sum: real, c: real): (parts: seq<real>)
    requires sum != 0.0
    ensures |parts| == |rates|
  {
    seq(|rates|, i requires 0 <= i < |rates| => Part(rates[i], sum, c))
  }

  lemma {:induction false} PartsTotal(rates: seq<real>, sum: real, c: real, n: nat)
    requires n <= |rates| && sum != 0.0
    ensures Total(Parts(rates, sum, c), n) == Total(rates, n) / sum * c
  {
    if n > 0 {
      PartsTotal(rates, sum, c, n - 1);
      Distribute(Total(rates, n - 1), rates[n - 1], sum, c);
    }
  }

  ghost predicate Rounded(rates: seq<real>, parts: seq<real>, soc: seq<int>) {
    && |rates| == |parts| == |soc|
    && forall i :: 0 <= i < |rates| ==>
      if rates[i] == 0.0 then parts[i] == 0.0 && soc[i] == 1 else soc[i] == Round(parts[i])
  }

  lemma SharesAreRounded(rates: seq<real>, capacity: int)
    requires Total(rates, |rates|) != 0.0
    ensures Rounded(rates, Parts(rates, Total(rates, |rates|), capacity as real), Shares(rates, capacity))
  {
    var sum, c := Total(rates, |rates|), capacity as real;
    var parts, soc := Parts(rates, sum, c), Shares(rates, capacity);
    forall i | 0 <= i < |rates|
      ensures if rates[i] == 0.0 then parts[i] == 0.0 && soc[i] == 1 else soc[i] == Round(parts[i])
    {
      if rates[i] == 0.0 { NoRateNoPart(sum, c); }
    }
  }

  lemma NoRateNoPart(sum: real, c: real)
    requires sum != 0.0
    ensures Part(0.0, sum, c) == 0.0
  {
    assert 0.0 / sum == 0.0;
  }

  /** Up to TokenGen n the shares stray from the exact split by half a request each. */
  lemma {:induction false} RoundedTotal(rates: seq<real>, parts: seq<real>, soc: seq<int>, n: nat)
    requires n <= |rates| && Rounded(rates, parts, soc)
    ensures var exact := Total(parts, n) + (n - Active(rates, n)) as real;
            var half := Active(rates, n) as real * 0.5;
            exact - half <= Sum(soc[..n]) as real <= exact + half
  {
    if n > 0 {
      RoundedTotal(rates, parts, soc, n - 1);
      SumLast(soc, n);
      RoundIsNear(parts[n - 1]);
    }
  }

  lemma WholeIsCapacity(sum: real, c: real)
    requires sum != 0.0
    ensures sum / sum * c == c
  {
  }

  lemma SplitIsNear(rates: seq<real>, capacity: int, soc: seq<int>)
    requires Total(rates, |rates|) != 0.0 && soc == Shares(rates, capacity)
    ensures var m, n := Active(rates, |rates|), |rates|;
            var exact := capacity as real + (n - m) as real;
            exact - m as real * 0.5 <= Sum(soc[..n]) as real <= exact + m as real * 0.5
  {
    var sum, c := Total(rates, |rates|), capacity as real;
    PartsTotal(rates, sum, c, |rates|);
    WholeIsCapacity(sum, c);
    SharesAreRounded(rates, capacity);
    RoundedTotal(rates, Parts(rates, sum, c), soc, |rates|);
  }

  /** With m active and k idle TokenGens the shares add up to capacity + k, give or take m / 2. */
  lemma SplitBound(rates: seq<real>, capacity: int)
    requires Total(rates, |rates|) != 0.0
    ensures var m := Active(rates, |rates|);
            var k := |rates| - m;
            2 * (capacity + k) - m <= 2 * Sum(Shares(rates, capacity)) <= 2 * (capacity + k) + m
  {
    var soc, n := Shares(rates, capacity), |rates|;
    SplitIsNear(rates, capacity, soc);
    assert soc[..n] == soc;
    Doubled(Sum(soc), capacity, n - Active(rates, n), Active(rates, n));
  }

  lemma Doubled(total: int, capacity: int, k: int, m: nat)
    requires var exact, half := capacity as real + k as real, m as real * 0.5;
             exact - half <= total as real <= exact + half
    ensures 2 * (capacity + k) - m <= 2 * total <= 2 * (capacity + k) + m
  {
  }

  /** An active TokenGen is given 0, which it will not adopt, exactly when its part of the
      capacity is below one half. */
  lemma ZeroShareIff(rates: seq<real>, capacity: nat, i: nat)
    requires i < |rates| && Total(rates, |rates|) > 0.0 && rates[i] >= 0.0
    ensures Shares(rates, capacity)[i] == 0 <==>
      rates[i] > 0.0 && 2.0 * rates[i] * capacity as real < Total(rates, |rates|)
  {
    var sum, c := Total(rates, |rates|), capacity as real;
    Proportion(rates[i], sum, c, rates[i] / sum, rates[i] / sum * c);
  }

  lemma Proportion(rate: real, sum: real, c: real, q: real, x: real)
    requires sum > 0.0 && rate >= 0.0 && c >= 0.0 && q == rate / sum && x == q * c
    ensures x >= 0.0
    ensures Round(x) == 0 <==> 2.0 * rate * c < sum
  {
    assert q >= 0.0 && q * sum == rate;
    ScaledHalf(rate, sum, c, q, x);
  }

  lemma ScaledHalf(rate: real, sum: real, c: real, q: real, x: real)
    requires sum > 0.0 && q >= 0.0 && c >= 0.0 && q * sum == rate && x == q * c
    ensures x >= 0.0
    ensures x < 0.5 <==> 2.0 * rate * c < sum
  {
    calc {
      rate * c;
      (q * sum) * c;
      x * sum;
    }
    if x < 0.5 {
      assert (0.5 - x) * sum > 0.0;
    } else {
      assert (x - 0.5) * sum >= 0.0;
    }
  }

  /** Without traffic the split is the intended one, the whole capacity handed out, only for a
      single TokenGen: for more, 1 / n is 0 and so is every share. */
  lemma {:induction false} ZeroLoadSplit(rates: seq<real>, capacity: nat, n: nat)
    requires 1 <= |rates| && Total(rates, |rates|) == 0.0 && n <= |rates|
    ensures Sum(Shares(rates, capacity)[..n]) == if |rates| == 1 then n * capacity else 0
  {
    if n > 0 {
      ZeroLoadSplit(rates, capacity, n - 1);
      SumLast(Shares(rates, capacity), n);
      assert |rates| > 1 ==> 1 / |rates| == 0;
      assert |rates| == 1 ==> 1 / |rates| == 1;
    }
  }

  lemma ZeroLoadIff(rates: seq<real>, capacity: nat)
    requires 1 <= |rates| && Total(rates, |rates|) == 0.0
    ensures Sum(Shares(rates, capacity)) == capacity <==> |rates| == 1 || capacity == 0
  {
    ZeroLoadSplit(rates, capacity, |rates|);
    assert Shares(rates, capacity)[..|rates|] == Shares(rates, capacity);
  }

  // ----- what the split means for the bookings -----

  lemma {:induction false} PeakIsShare(s: int, events: seq<Event>)
    requires s > 0 && OnlyShare(events, s)
    ensures RunOn(Fresh(s), events).peak == s == RunOn(Fresh(s), events).share
  {
    if events != [] { PeakIsShare(s, events[..|events| - 1]); }
  }

  lemma BookingsUnderShare(s: int, events: seq<Event>, i: nat)
    requires s > 0 && OnlyShare(events, s) && i < LIMIT
    ensures Slot(Run(Empty(s), events), i) <= s
  {
    PeakIsShare(s, events);
    AdmittedIsExpiredPlusBooked(s, events);
  }

  /** Bookings for one second at each of the first n TokenGens. */
  function Bookings(soc: seq<int>, runs: seq<seq<Event>>, at: seq<nat>, n: nat): int
    requires n <= |soc| == |runs| == |at| && forall i :: 0 <= i < |at| ==> at[i] < LIMIT
  {
    if n == 0 then 0 else Bookings(soc, runs, at, n - 1) + Slot(Run(Empty(soc[n - 1]), runs[n - 1]), at[n - 1])
  }

  lemma {:induction false} BookingsUnderShares(soc: seq<int>, runs: seq<seq<Event>>, at: seq<nat>, n: nat)
    requires n <= |soc| == |runs| == |at| && forall i :: 0 <= i < |at| ==> at[i] < LIMIT
    requires forall i :: 0 <= i < |soc| ==> soc[i] > 0 && OnlyShare(runs[i], soc[i])
    ensures Bookings(soc, runs, at, n) <= Sum(soc[..n])
  {
    if n > 0 {
      BookingsUnderShares(soc, runs, at, n - 1);
      SumLast(soc, n);
      BookingsUnderShare(soc[n - 1], runs[n - 1], at[n - 1]);
    }
  }

  /** If every computed share is positive and adopted, then whatever the TokenGens do, the
      bookings over one second at each of them stay within capacity + m / 2 + k. */
  lemma BookingsWithinCapacity(rates: seq<real>, capacity: int, runs: seq<seq<Event>>, at: seq<nat>)
    requires Total(rates, |rates|) != 0.0 && |runs| == |at| == |rates| && forall i :: 0 <= i < |at| ==> at[i] < LIMIT
    requires forall i :: 0 <= i < |rates| ==>
      Shares(rates, capacity)[i] > 0 && OnlyShare(runs[i], Shares(rates, capacity)[i])
    ensures var m := Active(rates, |rates|);
            2 * Bookings(Shares(rates, capacity), runs, at, |rates|) <= 2 * capacity + m + 2 * (|rates| - m)
  {
    SplitBound(rates, capacity);
    BookingsUnderShares(Shares(rates, capacity), runs, at, |rates|);
    assert Shares(rates, capacity)[..|rates|] == Shares(rates, capacity);
  }
}
