/**
 * What the share messages of the controllers do to a TokenGen's queue (Controller/src/proxy1.c
 * with TokenGen/src/proxy1.c): over all runs of the protocol its share is the last one it
 * accepted, and that is the share under which its virtual queue admits requests.
 */
module ShareMessages {
  import opened Failover
  import Q = VirtualQueue

  /** The event delivers a share to TokenGen k from its controller, or from the one it lost. */
  predicate Accepted(s: System, e: Event, k: nat) {
    && e.Deliver? && e.m in s.net && e.m.ShareOf? && e.m.gen == k < |s.gen|
    && (e.m.from == s.gen[k].id || (s.gen[k].id == -1 && e.m.from == s.gen[k].prevId))
  }

  /** A share of 0 is accepted but not taken. */
  predicate Takes(s: System, e: Event, k: nat) { Accepted(s, e, k) && e.m.share != 0 }

  lemma StepShares(s: System, e: Event, k: nat)
    requires |s.ctrl| == 2 && k < |s.gen|
    ensures k < |Step(s, e).gen| && Step(s, e).gen[k].share == if Takes(s, e, k) then e.m.share else s.gen[k].share
  {
  }

  ghost predicate TakesAt(s: System, events: seq<Event>, j: nat, k: nat)
    requires |s.ctrl| == 2 && j < |events|
  {
    Takes(Run(s, events[..j]), events[j], k)
  }

  /** Event j is the last one by which TokenGen k takes a share. */
  ghost predicate LastTaken(s: System, events: seq<Event>, j: nat, k: nat)
    requires |s.ctrl| == 2 && j < |events|
  {
    TakesAt(s, events, j, k) && forall i :: j < i < |events| ==> !TakesAt(s, events, i, k)
  }

  lemma LastTakenLonger(s: System, init: seq<Event>, e: Event, j: nat, k: nat)
    requires |s.ctrl| == 2 && j < |init| && LastTaken(s, init, j, k) && !Takes(Run(s, init), e, k)
    ensures LastTaken(s, init + [e], j, k) && (init + [e])[j] == init[j]
  {
    var all := init + [e];
    forall i | 0 <= i < |init| ensures TakesAt(s, all, i, k) <==> TakesAt(s, init, i, k) {
      assert all[..i] == init[..i];
    }
    assert all[..|init|] == init;
  }

  lemma NoneTakenLonger(s: System, init: seq<Event>, e: Event, k: nat)
    requires |s.ctrl| == 2 && !Takes(Run(s, init), e, k) && forall j :: 0 <= j < |init| ==> !TakesAt(s, init, j, k)
    ensures forall j :: 0 <= j < |init| + 1 ==> !TakesAt(s, init + [e], j, k)
  {
    var all := init + [e];
    forall i | 0 <= i < |init| ensures !TakesAt(s, all, i, k) {
      assert all[..i] == init[..i] && !TakesAt(s, init, i, k);
    }
    assert all[..|init|] == init;
  }

  /** The share of TokenGen k came with event j, or is the one it started with. */
  ghost predicate ShareFrom(s: System, events: seq<Event>, share: int, k: nat)
    requires |s.ctrl| == 2 && k < |s.gen|
  {
    || (exists j :: 0 <= j < |events| && LastTaken(s, events, j, k) && events[j].m.share == share)
    || ((forall j :: 0 <= j < |events| ==> !TakesAt(s, events, j, k)) && share == s.gen[k].share)
  }

  /** After every run the share of a TokenGen is the one of the last message it took. */
  lemma {:induction false} ShareIsLastTaken(s: System, events: seq<Event>, k: nat)
    requires |s.ctrl| == 2 && k < |s.gen|
    ensures k < |Run(s, events).gen| && ShareFrom(s, events, Run(s, events).gen[k].share, k)
  {
    if events != [] {
      var init, e := events[..|events| - 1], events[|events| - 1];
      assert events == init + [e];
      ShareIsLastTaken(s, init, k);
      StepShares(Run(s, init), e, k);
      if Takes(Run(s, init), e, k) {
        assert LastTaken(s, events, |init|, k);
      } else if j :| 0 <= j < |init| && LastTaken(s, init, j, k) && init[j].m.share == Run(s, init).gen[k].share {
        LastTakenLonger(s, init, e, j, k);
      } else {
        NoneTakenLonger(s, init, e, k);
      }
    }
  }

  // ----- the queue -----

  /** The share messages that TokenGen k accepts, as its queue sees them. */
  function Shares(s: System, events: seq<Event>, k: nat): seq<Q.Event>
    requires |s.ctrl| == 2
  {
    if events == [] then [] else
      var init, e := events[..|events| - 1], events[|events| - 1];
      Shares(s, init, k) + if Accepted(Run(s, init), e, k) then [Q.NewShare(e.m.share)] else []
  }

  /** The share messages among the events of a queue. */
  function SharesIn(events: seq<Q.Event>): seq<Q.Event> {
    if events == [] then [] else
      SharesIn(events[..|events| - 1]) + if events[|events| - 1].NewShare? then [events[|events| - 1]] else []
  }

  /** The last share that is not 0. */
  function LastShare(start: int, shares: seq<Q.Event>): int {
    if shares == [] then start else
      var e := shares[|shares| - 1];
      if e.NewShare? && e.share != 0 then e.share else LastShare(start, shares[..|shares| - 1])
  }

  lemma LastShareWith(start: int, shares: seq<Q.Event>, e: Q.Event)
    ensures LastShare(start, shares + [e]) == if e.NewShare? && e.share != 0 then e.share else LastShare(start, shares)
  {
    assert (shares + [e])[..|shares|] == shares;
  }

  lemma {:induction false} GenShare(s: System, events: seq<Event>, k: nat)
    requires |s.ctrl| == 2 && k < |s.gen|
    ensures k < |Run(s, events).gen| && Run(s, events).gen[k].share == LastShare(s.gen[k].share, Shares(s, events, k))
  {
    if events != [] {
      var init, e := events[..|events| - 1], events[|events| - 1];
      GenShare(s, init, k);
      StepShares(Run(s, init), e, k);
      if Accepted(Run(s, init), e, k) {
        LastShareWith(s.gen[k].share, Shares(s, init, k), Q.NewShare(e.m.share));
      } else {
        assert Shares(s, init, k) + [] == Shares(s, init, k);
      }
    }
  }

  /** A share of 0 counts as 1. */
  function AtLeastOne(share: int): int { if share == 0 then 1 else share }

  lemma {:induction false} QueueShare(q: Q.Queue, events: seq<Q.Event>)
    requires Q.Shaped(q)
    ensures AtLeastOne(Q.Run(q, events).share) == AtLeastOne(LastShare(q.share, SharesIn(events)))
  {
    if events != [] {
      var init, e := events[..|events| - 1], events[|events| - 1];
      QueueShare(q, init);
      if e.NewShare? {
        LastShareWith(q.share, SharesIn(init), e);
      } else {
        assert SharesIn(init) + [] == SharesIn(init);
      }
    }
  }

  /** However requests and ticks fall between them: if the queue of TokenGen k sees the share
      messages that it accepts, requests are admitted under the last share it took. */
  lemma AdmitsUnderShare(s: System, events: seq<Event>, k: nat, q: Q.Queue, local: seq<Q.Event>)
    requires |s.ctrl| == 2 && k < |s.gen| && Q.Shaped(q) && q.share == s.gen[k].share
    requires SharesIn(local) == Shares(s, events, k)
    ensures k < |Run(s, events).gen|
    ensures Q.Usable(Q.Run(q, local)).share == AtLeastOne(Run(s, events).gen[k].share)
  {
    GenShare(s, events, k);
    QueueShare(q, local);
  }
}
