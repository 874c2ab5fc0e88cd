/**
 * With a constant share the whole ring is determined by one number, the backlog: it is
 * full up to some second, partly full in the next, and empty behind it.
 */
module QueueClosedForm {
  import opened VirtualQueue
  import opened QueueTimeline

  /** What a backlog of b puts into the i-th second under share s. */
  function Level(b: nat, s: nat, i: nat): int {
    if b >= (i + 1) * s then s else if b <= i * s then 0 else b - i * s
  }

  ghost predicate Filled(q: Queue, b: nat, s: nat) {
    && Shaped(q) && s >= 1 && q.share == s && b <= LIMIT * s
    && forall i :: 0 <= i < LIMIT ==> Slot(q, i) == Level(b, s, i)
  }

  /** A second is full exactly when it lies before b / s. */
  lemma FullUpTo(b: nat, s: nat, i: nat)
    requires s >= 1
    ensures Level(b, s, i) <= s
    ensures Level(b, s, i) < s <==> b / s <= i
  {
    var k, r := b / s, b % s;
    assert b == k * s + r;
    if i < k {
      assert (i + 1) * s <= k * s;
    } else {
      assert (i + 1) * s == i * s + s;
      assert k * s <= i * s;
    }
  }

  lemma TimesMonotone(a: nat, b: nat, s: nat)
    requires a <= b
    ensures a * s <= b * s
  {
    assert b * s == a * s + (b - a) * s;
  }

  lemma BacklogBound(b: nat, s: nat)
    requires s >= 1 && b <= LIMIT * s
    ensures b / s <= LIMIT && (b / s == LIMIT <==> b == LIMIT * s)
  {
    var k, r := b / s, b % s;
    assert b == k * s + r;
    assert (LIMIT + 1) * s == LIMIT * s + s;
    if k >= LIMIT { TimesMonotone(LIMIT, k, s); }
    if k > LIMIT { TimesMonotone(LIMIT + 1, k, s); }
    if k < LIMIT { TimesMonotone(k + 1, LIMIT, s); }
  }

  /** The wait is the backlog divided by the share, rounded down. */
  lemma WaitIsBacklogOverShare(q: Queue, b: nat, s: nat)
    requires Filled(q, b, s)
    ensures Wait(q) == b / s && (Wait(q) == LIMIT <==> b == LIMIT * s)
  {
    BacklogBound(b, s);
    forall j | 0 <= j < b / s ensures Slot(q, j) >= q.share { FullUpTo(b, s, j); }
    if b / s < LIMIT { FullUpTo(b, s, b / s); }
    FitIsUnique(q, b / s);
  }

  lemma LevelAfterRequest(b: nat, s: nat, i: nat)
    requires s >= 1
    ensures Level(b + 1, s, i) == Level(b, s, i) + if i == b / s then 1 else 0
  {
    var k, r := b / s, b % s;
    assert b == k * s + r;
    if i < k {
      assert (i + 1) * s <= k * s;
    } else if i == k {
      assert (i + 1) * s == k * s + s;
    } else {
      assert (k + 1) * s <= i * s && (k + 1) * s == k * s + s;
      assert (i + 1) * s == i * s + s;
    }
  }

  lemma LevelAfterTick(b: nat, s: nat, i: nat)
    requires s >= 1
    ensures Level(if b < s then 0 else b - s, s, i) == Level(b, s, i + 1)
  {
    assert (i + 2) * s == (i + 1) * s + s && (i + 1) * s == i * s + s;
  }

  /** The backlog after an event: one more, unless the ring is full; s fewer, but not below 0. */
  function Backlog(b: nat, s: nat, e: Event): nat {
    match e
    case Request => if b == LIMIT * s then b else b + 1
    case Tick => if b < s then 0 else b - s
    case NewShare(_) => b
  }

  lemma RequestKeepsFilled(q: Queue, b: nat, s: nat)
    requires Filled(q, b, s)
    ensures Filled(Step(q, Request), Backlog(b, s, Request), s)
  {
    WaitIsBacklogOverShare(q, b, s);
    var k := b / s;
    if k < LIMIT {
      var q' := Step(q, Request);
      forall i | 0 <= i < LIMIT ensures Slot(q', i) == Level(b + 1, s, i) {
        LevelAfterRequest(b, s, i);
        assert Slot(q, i) == Level(b, s, i);
        if i != k { DistinctSlots(q.cur, i, k); }
      }
    }
  }

  lemma TickKeepsFilled(q: Queue, b: nat, s: nat)
    requires Filled(q, b, s)
    ensures Filled(Step(q, Tick), Backlog(b, s, Tick), s)
  {
    var q', b' := Step(q, Tick), Backlog(b, s, Tick);
    forall i | 0 <= i < LIMIT ensures Slot(q', i) == Level(b', s, i) {
      LevelAfterTick(b, s, i);
      assert (q'.cur + i) % LIMIT == (q.cur + (i + 1)) % LIMIT;
      if i + 1 < LIMIT {
        assert Slot(q, i + 1) == Level(b, s, i + 1);
        DistinctSlots(q.cur, 0, i + 1);
      } else {
        assert (i + 1) * s == LIMIT * s;
      }
    }
  }

  function BacklogAfter(b: nat, s: nat, events: seq<Event>): nat {
    if events == [] then b else Backlog(BacklogAfter(b, s, events[..|events| - 1]), s, events[|events| - 1])
  }

  /** After every run with a constant share, from a ring that has the closed form for a backlog,
      the ring has it for the backlog the run leaves, the next request waits backlog / share
      seconds, and it is refused exactly when the backlog is LIMIT * share. */
  lemma {:induction false} ClosedForm(q: Queue, b: nat, s: nat, events: seq<Event>)
    requires Filled(q, b, s) && OnlyShare(events, s)
    ensures var r, a := Run(q, events), BacklogAfter(b, s, events);
            Filled(r, a, s) && Wait(r) == a / s && (Wait(r) == LIMIT <==> a == LIMIT * s)
  {
    if events != [] {
      var n := |events| - 1;
      ClosedForm(q, b, s, events[..n]);
      var r, a := Run(q, events[..n]), BacklogAfter(b, s, events[..n]);
      match events[n]
      case Request => RequestKeepsFilled(r, a, s);
      case Tick => TickKeepsFilled(r, a, s);
      case NewShare(v) => assert events[n].share == s || events[n].share == 0;
    }
    WaitIsBacklogOverShare(Run(q, events), BacklogAfter(b, s, events), s);
  }

  /** Nothing is booked. */
  ghost predicate Unused(q: Queue) { Shaped(q) && forall k :: 0 <= k < LIMIT ==> q.ring[k] == 0 }

  /** A share that reaches an unused ring starts the closed form. */
  lemma FirstShare(q: Queue, s: nat)
    requires Unused(q) && s >= 1
    ensures Filled(Step(q, NewShare(s)), 0, s)
  {
    var r := Step(q, NewShare(s));
    forall i | 0 <= i < LIMIT ensures Slot(r, i) == Level(0, s, i) { assert (i + 1) * s >= s; }
  }

  predicate Idle(events: seq<Event>) {
    forall j :: 0 <= j < |events| ==> !events[j].Request?
  }

  lemma {:induction false} UnusedUntilRequest(q: Queue, events: seq<Event>)
    requires Unused(q) && Idle(events)
    ensures Unused(Run(q, events))
  {
    if events != [] {
      UnusedUntilRequest(q, events[..|events| - 1]);
      assert !events[|events| - 1].Request?;
    }
  }

  /** A whole life of a TokenGen: it starts without a share, time passes, and from its first
      share after which only that one is sent, the closed form holds. */
  lemma ClosedFormFromStart(before: seq<Event>, s: nat, events: seq<Event>)
    requires s >= 1 && Idle(before) && OnlyShare(events, s)
    ensures var q := Step(Run(Empty(0), before), NewShare(s));
            var b := BacklogAfter(0, s, events);
            Filled(Run(q, events), b, s) && Wait(Run(q, events)) == b / s
  {
    UnusedUntilRequest(Empty(0), before);
    FirstShare(Run(Empty(0), before), s);
    ClosedForm(Step(Run(Empty(0), before), NewShare(s)), 0, s, events);
  }

  // ----- the backlog is what the ring holds -----

  /** The counters of the ring, the current second first. */
  function Coming(q: Queue): (s: seq<int>)
    requires Shaped(q)
    ensures |s| == LIMIT && forall i :: 0 <= i < LIMIT ==> s[i] == Slot(q, i)
  {
    seq(LIMIT, i requires 0 <= i < LIMIT => Slot(q, i))
  }

  lemma {:induction false} SumOfFilled(q: Queue, b: nat, s: nat, n: nat)
    requires Filled(q, b, s) && n <= LIMIT
    ensures Sum(Coming(q)[..n]) == if b <= n * s then b else n * s
  {
    if n > 0 {
      SumOfFilled(q, b, s, n - 1);
      SumLast(Coming(q), n);
      assert n * s == (n - 1) * s + s;
      assert Slot(q, n - 1) == Level(b, s, n - 1);
    }
  }

  lemma BacklogIsContents(q: Queue, b: nat, s: nat)
    requires Filled(q, b, s)
    ensures Sum(Coming(q)) == b
  {
    SumOfFilled(q, b, s, LIMIT);
    assert Coming(q)[..LIMIT] == Coming(q);
  }
}
