/**
 * The ring refines a timeline that never forgets: one counter for every absolute second
 * up to LIMIT seconds ahead.  On the timeline one can say what the ring is for.
 */
module QueueTimeline {
  import opened VirtualQueue

  /** `slots[t]` requests are booked for absolute second t; `peak` is the largest share seen
      and `admitted` the number of requests booked so far. */
  datatype Timeline = Timeline(now: nat, slots: seq<int>, share: int, peak: int, admitted: nat)

  predicate Formed(t: Timeline) { |t.slots| == t.now + LIMIT }

  /** The bookings i seconds ahead. */
  function Ahead(t: Timeline, i: nat): int
    requires Formed(t) && i < LIMIT
  {
    t.slots[t.now + i]
  }

  /** The first second, from i seconds ahead on, with room; LIMIT if there is none. */
  function Fit(t: Timeline, i: nat): (k: nat)
    requires Formed(t) && i <= LIMIT
    ensures i <= k <= LIMIT
    ensures forall j :: i <= j < k ==> Ahead(t, j) >= t.share
    ensures k < LIMIT ==> Ahead(t, k) < t.share
    decreases |t.slots| - t.now - i
  {
    if i == LIMIT || Ahead(t, i) < t.share then i else Fit(t, i + 1)
  }

  function Max(a: int, b: int): int { if a < b then b else a }

  function WithShare(t: Timeline, v: int): Timeline { t.(share := v, peak := Max(t.peak, v)) }

  function Ready(t: Timeline): Timeline { if t.share == 0 then WithShare(t, 1) else t }

  /** Seconds a request has to wait on the timeline. */
  function WaitOn(t: Timeline): nat
    requires Formed(t)
  {
    Fit(Ready(t), 0)
  }

  function Book(t: Timeline, k: nat): Timeline
    requires Formed(t)
  {
    if k < LIMIT then t.(slots := t.slots[t.now + k := t.slots[t.now + k] + 1], admitted := t.admitted + 1) else t
  }

  function Advance(t: Timeline, e: Event): (r: Timeline)
    requires Formed(t)
    ensures Formed(r)
  {
    match e
    case Request => Book(Ready(t), WaitOn(t))
    case Tick => t.(now := t.now + 1, slots := t.slots + [0])
    case NewShare(v) => if v != 0 then WithShare(t, v) else t
  }

  function RunOn(t: Timeline, events: seq<Event>): (r: Timeline)
    requires Formed(t)
    ensures Formed(r)
  {
    if events == [] then t else Advance(RunOn(t, events[..|events| - 1]), events[|events| - 1])
  }

  function Fresh(share: int): (t: Timeline)
    ensures Formed(t)
  {
    Timeline(0, seq(LIMIT, _ => 0), share, share, 0)
  }

  // ----- refinement -----

  /** The ring holds the next LIMIT seconds of the timeline, second T in slot T mod LIMIT. */
  ghost predicate Refines(q: Queue, t: Timeline) {
    && Shaped(q) && Formed(t) && q.share == t.share && q.cur == t.now % LIMIT
    && forall i :: 0 <= i < LIMIT ==> Slot(q, i) == Ahead(t, i)
  }

  lemma ModAdd(a: nat, b: nat)
    ensures (a % LIMIT + b) % LIMIT == (a + b) % LIMIT
  {
    var k := a / LIMIT;
    assert a + b == k * LIMIT + (a % LIMIT + b);
  }

  lemma SlotOfSecond(q: Queue, t: Timeline, second: nat)
    requires Refines(q, t) && t.now <= second < t.now + LIMIT
    ensures q.ring[second % LIMIT] == t.slots[second]
  {
    var i := second - t.now;
    ModAdd(t.now, i);
    assert Slot(q, i) == Ahead(t, i);
  }

  lemma DistinctSlots(cur: nat, i: nat, j: nat)
    requires i < LIMIT && j < LIMIT && i != j
    ensures (cur + i) % LIMIT != (cur + j) % LIMIT
  {
  }

  lemma SameFit(q: Queue, t: Timeline)
    requires Refines(q, t)
    ensures FirstFit(q, 0) == Fit(t, 0)
  {
    var k := Fit(t, 0);
    forall j | 0 <= j < k ensures Slot(q, j) >= q.share { assert Slot(q, j) == Ahead(t, j); }
    FitIsUnique(q, k);
  }

  lemma BookRefines(q: Queue, t: Timeline, k: nat)
    requires Refines(q, t) && k <= LIMIT
    ensures Refines(Booked(q, k), Book(t, k))
  {
    if k < LIMIT {
      var q', t' := Booked(q, k), Book(t, k);
      forall i | 0 <= i < LIMIT ensures Slot(q', i) == Ahead(t', i) {
        assert Slot(q, i) == Ahead(t, i);
        if i != k { DistinctSlots(q.cur, i, k); }
      }
    }
  }

  lemma TickRefines(q: Queue, t: Timeline)
    requires Refines(q, t)
    ensures Refines(Step(q, Tick), Advance(t, Tick))
  {
    var q', t' := Step(q, Tick), Advance(t, Tick);
    assert q'.cur == t'.now % LIMIT;
    forall i | 0 <= i < LIMIT ensures Slot(q', i) == Ahead(t', i) {
      assert (q'.cur + i) % LIMIT == (q.cur + (i + 1)) % LIMIT;
      if i + 1 < LIMIT {
        assert Slot(q, i + 1) == Ahead(t, i + 1);
        DistinctSlots(q.cur, 0, i + 1);
      }
    }
  }

  /** Every step of the ring is the same step of the timeline, and gives the same wait. */
  lemma StepRefines(q: Queue, t: Timeline, e: Event)
    requires Refines(q, t)
    ensures Refines(Step(q, e), Advance(t, e)) && Wait(q) == WaitOn(t)
  {
    assert Refines(Usable(q), Ready(t)) by {
      forall i | 0 <= i < LIMIT ensures Slot(Usable(q), i) == Ahead(Ready(t), i) {
        assert Slot(q, i) == Ahead(t, i);
      }
    }
    SameFit(Usable(q), Ready(t));
    match e
    case Request => BookRefines(Usable(q), Ready(t), Wait(q));
    case Tick => TickRefines(q, t);
    case NewShare(v) =>
      forall i | 0 <= i < LIMIT ensures Slot(Step(q, e), i) == Ahead(Advance(t, e), i) {
        assert Slot(q, i) == Ahead(t, i);
      }
  }

  /** After every run, slot T mod LIMIT of the ring holds the bookings for second T. */
  lemma {:induction false} RingRefinesTimeline(share: int, events: seq<Event>)
    ensures Refines(Run(Empty(share), events), RunOn(Fresh(share), events))
  {
    if events != [] {
      var n := |events| - 1;
      RingRefinesTimeline(share, events[..n]);
      StepRefines(Run(Empty(share), events[..n]), RunOn(Fresh(share), events[..n]), events[n]);
    }
  }

  // ----- conservation and the bound on each second -----

  function Sum(s: seq<int>): int {
    if s == [] then 0 else Sum(s[..|s| - 1]) + s[|s| - 1]
  }

  lemma SumLast(s: seq<int>, n: nat)
    requires 0 < n <= |s|
    ensures Sum(s[..n]) == Sum(s[..n - 1]) + s[n - 1]
  {
    assert s[..n][..n - 1] == s[..n - 1];
  }

  lemma {:induction false} SumUpdate(s: seq<int>, i: nat, v: int)
    requires i < |s|
    ensures Sum(s[i := v]) == Sum(s) + v - s[i]
  {
    var n := |s| - 1;
    if i < n {
      SumUpdate(s[..n], i, v);
      assert s[i := v][..n] == s[..n][i := v];
    } else {
      assert s[i := v][..n] == s[..n];
    }
  }

  lemma {:induction false} SumZeros(n: nat)
    ensures Sum(seq(n, _ => 0)) == 0
  {
    if n > 0 {
      SumZeros(n - 1);
      assert seq(n, _ => 0)[..n - 1] == seq(n - 1, _ => 0);
    }
  }

  lemma {:induction false} SumSplit(s: seq<int>, k: nat)
    requires k <= |s|
    ensures Sum(s) == Sum(s[..k]) + Sum(s[k..])
  {
    if k < |s| {
      var n := |s| - 1;
      SumSplit(s[..n], k);
      assert s[..n][..k] == s[..k] && s[..n][k..] == s[k..][..n - k];
    } else {
      assert s[..k] == s && s[k..] == [];
    }
  }

  /** Everything admitted is booked for some second, and no second holds more than the largest
      share there ever was. */
  ghost predicate Kept(t: Timeline) {
    && Formed(t) && Sum(t.slots) == t.admitted && t.share <= t.peak
    && forall T :: 0 <= T < |t.slots| ==> 0 <= t.slots[T] && (t.slots[T] == 0 || t.slots[T] <= t.peak)
  }

  lemma AdvanceKeeps(t: Timeline, e: Event)
    requires Kept(t)
    ensures Kept(Advance(t, e))
  {
    match e
    case Request =>
      var r, k := Ready(t), WaitOn(t);
      if k < LIMIT { SumUpdate(r.slots, r.now + k, r.slots[r.now + k] + 1); }
    case Tick =>
      assert (t.slots + [0])[..|t.slots|] == t.slots;
    case NewShare(_) =>
  }

  lemma {:induction false} RunKeeps(share: int, events: seq<Event>)
    ensures Kept(RunOn(Fresh(share), events))
  {
    if events == [] {
      SumZeros(LIMIT);
    } else {
      RunKeeps(share, events[..|events| - 1]);
      AdvanceKeeps(RunOn(Fresh(share), events[..|events| - 1]), events[|events| - 1]);
    }
  }

  /** After every run: the requests admitted are those whose second has passed plus those the
      ring still holds, and no counter of the ring exceeds the largest share seen. */
  lemma AdmittedIsExpiredPlusBooked(share: int, events: seq<Event>)
    ensures var q, t := Run(Empty(share), events), RunOn(Fresh(share), events);
            Refines(q, t) && t.admitted == Sum(t.slots[..t.now]) + Sum(t.slots[t.now..])
    ensures var q, t := Run(Empty(share), events), RunOn(Fresh(share), events);
            forall i :: 0 <= i < LIMIT ==> Slot(q, i) == 0 || 0 < Slot(q, i) <= t.peak
  {
    RunKeeps(share, events);
    RingRefinesTimeline(share, events);
    var q, t := Run(Empty(share), events), RunOn(Fresh(share), events);
    SumSplit(t.slots, t.now);
    forall i | 0 <= i < LIMIT ensures Slot(q, i) == 0 || 0 < Slot(q, i) <= t.peak {
      assert Slot(q, i) == Ahead(t, i);
    }
  }

  /** Every share message carries s, or the 0 that is ignored. */
  predicate OnlyShare(events: seq<Event>, s: int) {
    forall j :: 0 <= j < |events| && events[j].NewShare? ==> events[j].share == s || events[j].share == 0
  }

  // ----- first come, first served -----

  /** The second a request arriving now is booked for. */
  function Second(t: Timeline): nat
    requires Formed(t)
  {
    t.now + WaitOn(t)
  }

  /** Time does not go back and no booking is given up before its second has passed. */
  lemma {:induction false} BookingsStay(t: Timeline, events: seq<Event>, s: nat)
    requires Formed(t) && s < |t.slots|
    ensures t.now <= RunOn(t, events).now && t.slots[s] <= RunOn(t, events).slots[s]
  {
    if events != [] { BookingsStay(t, events[..|events| - 1], s); }
  }

  lemma FullBefore(t: Timeline, s: nat)
    requires Formed(t) && t.now <= s < Second(t)
    ensures t.slots[s] >= Ready(t).share
  {
    assert Ahead(Ready(t), s - t.now) >= Ready(t).share;
  }

  /** A request overtakes one booked earlier exactly when, under the share it finds, some second
      before that booking has room. */
  lemma OvertakesIff(t: Timeline, events: seq<Event>)
    requires Formed(t) && WaitOn(t) < LIMIT
    ensures t.now <= RunOn(t, events).now
    ensures var u := RunOn(t, events);
            Second(u) < Second(t) <==> exists s :: u.now <= s < Second(t) && u.slots[s] < Ready(u).share
  {
    var u := RunOn(t, events);
    BookingsStay(t, events, t.now);
    if Second(u) < Second(t) {
      assert Ahead(Ready(u), WaitOn(u)) < Ready(u).share;
      assert u.slots[Second(u)] < Ready(u).share;
    } else {
      forall s | u.now <= s < Second(t) ensures u.slots[s] >= Ready(u).share { FullBefore(u, s); }
    }
  }

  /** Only a larger share overtakes: whatever happened in between, a request that finds no larger
      share than an earlier one is not booked before it. */
  lemma LaterIsNotEarlier(t: Timeline, events: seq<Event>)
    requires Formed(t) && WaitOn(t) < LIMIT && Ready(RunOn(t, events)).share <= Ready(t).share
    ensures Second(t) <= Second(RunOn(t, events))
  {
    var u := RunOn(t, events);
    BookingsStay(t, events, t.now);
    OvertakesIff(t, events);
    forall s | u.now <= s < Second(t) ensures u.slots[s] >= Ready(u).share {
      FullBefore(t, s);
      BookingsStay(t, events, s);
    }
  }

  /** A run in which the third request is served a second before the second one. */
  lemma RaiseOvertakes()
    ensures Wait(Run(Empty(1), [Request])) == 1
    ensures Wait(Run(Empty(1), [Request, Request, NewShare(3)])) == 0
  {
    var q1 := Step(Empty(1), Request);
    assert Slot(Empty(1), 0) == 0 && Slot(q1, 0) == 1 && Slot(q1, 1) == 0;
    FitIsUnique(q1, 1);
    var q2 := Step(q1, Request);
    assert Slot(q2, 0) == 1;
    assert [Request][..0] == [];
    assert [Request, Request][..1] == [Request];
    assert [Request, Request, NewShare(3)][..2] == [Request, Request];
    assert Run(Empty(1), [Request]) == q1 && Run(Empty(1), [Request, Request]) == q2;
  }
}
