/**
 * The virtual queue of a TokenGen (TokenGen/src/proxy1.c, timer.h): a ring of LIMIT
 * counters, one per coming second.  A request is booked into the first second that still
 * has room under the current share; every second the current counter is cleared and the
 * ring advances.
 */
module VirtualQueue {

  const LIMIT: nat := 1000

  datatype Queue = Queue(ring: seq<int>, cur: nat, share: int)

  datatype Event = Request | Tick | NewShare(share: int)

  predicate Shaped(q: Queue) { |q.ring| == LIMIT && q.cur < LIMIT }

  /** The counter for the i-th second from now. */
  function Slot(q: Queue, i: nat): int
    requires Shaped(q)
  {
    q.ring[(q.cur + i) % LIMIT]
  }

  /** The first second, from i on, with room; LIMIT if there is none. */
  function FirstFit(q: Queue, i: nat): (k: nat)
    requires Shaped(q) && i <= LIMIT
    ensures i <= k <= LIMIT
    ensures forall j :: i <= j < k ==> Slot(q, j) >= q.share
    ensures k < LIMIT ==> Slot(q, k) < q.share
    decreases |q.ring| - i
  {
    if i == LIMIT || q.share - Slot(q, i) > 0 then i else FirstFit(q, i + 1)
  }

  /** A share of 0 counts as 1. */
  function Usable(q: Queue): Queue { if q.share == 0 then q.(share := 1) else q }

  /** The wait a request is given; LIMIT means it is turned away. */
  function Wait(q: Queue): nat
    requires Shaped(q)
  {
    FirstFit(Usable(q), 0)
  }

  function Booked(q: Queue, k: nat): Queue
    requires Shaped(q)
  {
    if k < LIMIT then q.(ring := q.ring[(q.cur + k) % LIMIT := Slot(q, k) + 1]) else q
  }

  function Step(q: Queue, e: Event): (r: Queue)
    requires Shaped(q)
    ensures Shaped(r)
  {
    match e
    case Request => Booked(Usable(q), Wait(q))
    case Tick => q.(ring := q.ring[q.cur := 0], cur := (q.cur + 1) % LIMIT)
    case NewShare(v) => if v != 0 then q.(share := v) else q
  }

  function Run(q: Queue, events: seq<Event>): (r: Queue)
    requires Shaped(q)
    ensures Shaped(r)
  {
    if events == [] then q else Step(Run(q, events[..|events| - 1]), events[|events| - 1])
  }

  function Empty(share: int): (q: Queue)
    ensures Shaped(q)
  {
    Queue(seq(LIMIT, _ => 0), 0, share)
  }

  /** The first second with room is the only one behind which all are full and which is not. */
  lemma FitIsUnique(q: Queue, k: nat)
    requires Shaped(q) && k <= LIMIT && (forall j :: 0 <= j < k ==> Slot(q, j) >= q.share)
    requires k < LIMIT ==> Slot(q, k) < q.share
    ensures FirstFit(q, 0) == k
  {
    var f := FirstFit(q, 0);
    assert f >= k;
  }

  /** The running process. */
  class TokenGen {
    const visitorCount: array<int>
    var currentTime: nat
    var share: int

    ghost predicate Valid()
      reads this, visitorCount
    {
      visitorCount.Length == LIMIT && currentTime < LIMIT
    }

    ghost function View(): (q: Queue)
      requires Valid()
      reads this, visitorCount
      ensures Shaped(q)
    {
      Queue(visitorCount[..], currentTime, share)
    }

    constructor ()
      ensures Valid() && View() == Empty(0) && fresh(visitorCount)
    {
      visitorCount := new int[LIMIT](_ => 0);
      currentTime, share := 0, 0;
    }

    /** The loop over the coming seconds. */
    method Search() returns (iter: nat)
      requires Valid()
      ensures iter == FirstFit(View(), 0)
    {
      ghost var q := View();
      iter := 0;
      while iter < LIMIT
        invariant iter <= LIMIT && forall j :: 0 <= j < iter ==> Slot(q, j) >= q.share
      {
        assert visitorCount[(currentTime + iter) % LIMIT] == Slot(q, iter);
        if share - visitorCount[(currentTime + iter) % LIMIT] > 0 { break; }
        iter := iter + 1;
      }
      FitIsUnique(q, iter);
    }

    /** One request: the seconds it has to wait, or LIMIT if it is turned away. */
    method Admit() returns (iter: nat)
      requires Valid()
      modifies this`share, visitorCount
      ensures Valid() && iter == Wait(old(View())) && View() == Step(old(View()), Request)
    {
      if share == 0 { share := 1; }
      iter := Search();
      Book(iter);
    }

    /** update_array: one more visitor in the chosen second. */
    method Book(iter: nat)
      requires Valid()
      modifies visitorCount
      ensures Valid() && View() == Booked(old(View()), iter)
    {
      if iter < LIMIT {
        var at := (currentTime + iter) % LIMIT;
        visitorCount[at] := visitorCount[at] + 1;
      }
    }

    /** log_data, once a second. */
    method Advance()
      requires Valid()
      modifies this`currentTime, visitorCount
      ensures Valid() && View() == Step(old(View()), Tick)
    {
      visitorCount[currentTime] := 0;
      currentTime := (currentTime + 1) % LIMIT;
    }

    /** An accepted 's' message. */
    method SetShare(v: int)
      requires Valid()
      modifies this`share
      ensures Valid() && View() == Step(old(View()), NewShare(v))
    {
      if v != 0 { share := v; }
    }
  }
}
