/**
 * What the messages and flags of the failover protocol mean over whole runs: why each message
 * was sent, when a flag is up, and that nobody is taken over but by a controller that won a
 * count.
 */
module FailoverMessages {
  import opened Failover

  // ----- why a message was sent -----

  /** The event is a reason to send the message. */
  ghost predicate Reason(s: System, e: Event, m: Msg)
    requires |s.ctrl| == 2
  {
    match m
    case Heartbeat(c) => e == Beat(1 - c) && s.ctrl[1 - c].id == 1 - c
    case ShareOf(c, k, v) => e == SendShare(c, k, v) && s.ctrl[c].id == c
    case ChangeRequest(c, k) => e == Clear(c) && s.ctrl[c].phase == Clearing(|s.ctrl[c].votes|) && k < s.n
    case Vote(k, c) => e == Deliver(ChangeRequest(c, k)) && e.m in s.net && k < |s.gen| && s.gen[k].id == -1
    case Refusal(k, c) => e == Deliver(ChangeRequest(c, k)) && e.m in s.net && k < |s.gen| && s.gen[k].id != -1
    case Takeover(c, k) =>
      && e == Switch(c) && k < |s.ctrl[c].flagTG|
      && (s.ctrl[c].phase == Flagging(k) ||
          (s.ctrl[c].phase.Scanning? && s.ctrl[c].phase.next == k && s.ctrl[c].flagTG[k]))
    case PeerTakeover(c) =>
      || (e == Switch(c) && s.ctrl[c].phase == Flagging(|s.ctrl[c].flagTG|))
      || (e == Deliver(Heartbeat(c)) && e.m in s.net && s.ctrl[c].id == c && s.ctrl[c].flag)
    case Adoption(k, c) => e == Deliver(Takeover(c, k)) && e.m in s.net && k < |s.gen|
    case PeerAck(c) => e == Deliver(PeerTakeover(c)) && e.m in s.net
  }

  lemma StepSends(s: System, e: Event, m: Msg)
    requires Inv(s)
    ensures m in Step(s, e).net <==> m in s.net || Reason(s, e, m)
  {
    if e.Deliver? {
      if e.m in s.net { ReceiveSends(s, e.m, m); }
    } else if e.Switch? {
      SwitchSends(s, e.c, m);
    } else {
      OwnSends(s, e, m);
    }
  }

  lemma SwitchSends(s: System, c: Cid, m: Msg)
    requires Inv(s)
    ensures m in SwitchStep(s, c).net <==> m in s.net || Reason(s, Switch(c), m)
  {
  }

  lemma OwnSends(s: System, e: Event, m: Msg)
    requires Inv(s) && !e.Deliver? && !e.Switch?
    ensures m in Step(s, e).net <==> m in s.net || Reason(s, e, m)
  {
  }

  lemma ReceiveSends(s: System, d: Msg, m: Msg)
    requires |s.ctrl| == 2 && d in s.net
    ensures m in Receive(s, d).net <==> m in s.net || Reason(s, Deliver(d), m)
  {
  }

  ghost predicate ReasonAt(s: System, events: seq<Event>, j: nat, m: Msg)
    requires |s.ctrl| == 2 && j < |events|
  {
    Reason(Run(s, events[..j]), events[j], m)
  }

  /** In every run: a message is on its way exactly if there was a reason to send it. */
  lemma {:induction false} SentIff(id0: int, id1: int, ids: seq<int>, events: seq<Event>, m: Msg)
    ensures m in Run(Start(id0, id1, ids), events).net <==>
      exists j :: 0 <= j < |events| && ReasonAt(Start(id0, id1, ids), events, j, m)
  {
    var s := Start(id0, id1, ids);
    if events != [] {
      var n := |events| - 1;
      var init := events[..n];
      SentIff(id0, id1, ids, init, m);
      RunKeepsInv(id0, id1, ids, init);
      StepSends(Run(s, init), events[n], m);
      forall j | 0 <= j < n ensures ReasonAt(s, events, j, m) <==> ReasonAt(s, init, j, m) {
        assert events[..j] == init[..j];
      }
      assert ReasonAt(s, events, n, m) <==> Reason(Run(s, init), events[n], m);
    }
  }

  // ----- switches that are set and reset by events -----

  type Test = (System, Event) -> bool

  ghost predicate SetAt(s: System, events: seq<Event>, test: Test, j: nat)
    requires |s.ctrl| == 2 && j < |events|
  {
    test(Run(s, events[..j]), events[j])
  }

  ghost predicate NeverFrom(s: System, events: seq<Event>, test: Test, j: nat)
    requires |s.ctrl| == 2
  {
    forall i :: j <= i < |events| ==> !SetAt(s, events, test, i)
  }

  /** It was set, and not reset since; or it was on and was never reset. */
  ghost predicate OnSince(s: System, events: seq<Event>, on: bool, sets: Test, resets: Test)
    requires |s.ctrl| == 2
  {
    || (exists j :: 0 <= j < |events| && SetAt(s, events, sets, j) && NeverFrom(s, events, resets, j + 1))
    || (on && NeverFrom(s, events, resets, 0))
  }

  /** A switch that each event sets, resets or leaves alone. */
  ghost predicate Switches(value: System -> bool, sets: Test, resets: Test) {
    forall s: System, e: Event :: |s.ctrl| == 2 ==> (value(Step(s, e)) <==> sets(s, e) || (value(s) && !resets(s, e)))
  }

  lemma NeverLonger(s: System, init: seq<Event>, e: Event, test: Test, j: nat)
    requires |s.ctrl| == 2 && j <= |init|
    ensures NeverFrom(s, init + [e], test, j) <==> NeverFrom(s, init, test, j) && !test(Run(s, init), e)
  {
    var all := init + [e];
    assert all[..|init|] == init;
    forall i | 0 <= i < |init| ensures SetAt(s, all, test, i) <==> SetAt(s, init, test, i) {
      assert all[..i] == init[..i];
    }
    assert SetAt(s, all, test, |init|) <==> test(Run(s, init), e);
  }

  lemma OnLonger(s: System, init: seq<Event>, e: Event, on: bool, sets: Test, resets: Test)
    requires |s.ctrl| == 2
    ensures OnSince(s, init + [e], on, sets, resets) <==>
      sets(Run(s, init), e) || (OnSince(s, init, on, sets, resets) && !resets(Run(s, init), e))
  {
    var all := init + [e];
    assert all[..|init|] == init;
    NeverLonger(s, init, e, resets, 0);
    forall j | 0 <= j < |init|
      ensures SetAt(s, all, sets, j) && NeverFrom(s, all, resets, j + 1) <==>
              SetAt(s, init, sets, j) && NeverFrom(s, init, resets, j + 1) && !resets(Run(s, init), e)
    {
      assert all[..j] == init[..j];
      NeverLonger(s, init, e, resets, j + 1);
    }
    assert SetAt(s, all, sets, |init|) <==> sets(Run(s, init), e);
    assert NeverFrom(s, all, resets, |init| + 1);
  }

  lemma {:induction false} SwitchIff(s: System, events: seq<Event>, value: System -> bool, sets: Test, resets: Test)
    requires |s.ctrl| == 2 && Switches(value, sets, resets)
    ensures value(Run(s, events)) <==> OnSince(s, events, value(s), sets, resets)
  {
    if events != [] {
      var init, e := events[..|events| - 1], events[|events| - 1];
      assert events == init + [e];
      SwitchIff(s, init, value, sets, resets);
      OnLonger(s, init, e, value(s), sets, resets);
    }
  }

  // ----- the flags of a controller -----

  predicate RaisesPeer(c: Cid, s: System, e: Event) {
    |s.ctrl| == 2 && e == Switch(c) && s.ctrl[c].phase.Flagging? && s.ctrl[c].phase.next >= |s.ctrl[c].flagTG|
  }

  predicate PeerAnswers(c: Cid, s: System, e: Event) {
    |s.ctrl| == 2 && e == Deliver(PeerAck(c)) && e.m in s.net && s.ctrl[c].id == c
  }

  /** The peer flag is up exactly since the takeover was announced, until the peer's answer is
      delivered to c as a primary. */
  lemma PeerFlagIff(s: System, events: seq<Event>, c: Cid)
    requires |s.ctrl| == 2
    ensures Run(s, events).ctrl[c].flag <==>
      OnSince(s, events, s.ctrl[c].flag, (t, e) => RaisesPeer(c, t, e), (t, e) => PeerAnswers(c, t, e))
  {
    var value := (t: System) => |t.ctrl| == 2 && t.ctrl[c].flag;
    var sets, resets := (t, e) => RaisesPeer(c, t, e), (t, e) => PeerAnswers(c, t, e);
    forall t: System, e: Event | |t.ctrl| == 2
      ensures value(Step(t, e)) <==> sets(t, e) || (value(t) && !resets(t, e))
    {
      PeerFlagStep(t, e, c);
    }
    SwitchIff(s, events, value, sets, resets);
  }

  lemma PeerFlagStep(s: System, e: Event, c: Cid)
    requires |s.ctrl| == 2
    ensures Step(s, e).ctrl[c].flag <==> RaisesPeer(c, s, e) || (s.ctrl[c].flag && !PeerAnswers(c, s, e))
  {
    if e.Deliver? && e.m in s.net { PeerFlagReceive(s, e.m, c); }
  }

  lemma PeerFlagReceive(s: System, m: Msg, c: Cid)
    requires |s.ctrl| == 2 && m in s.net
    ensures Receive(s, m).ctrl[c].flag <==> s.ctrl[c].flag && !PeerAnswers(c, s, Deliver(m))
  {
  }

  predicate Raises(c: Cid, k: nat, s: System, e: Event) {
    |s.ctrl| == 2 && e == Switch(c) && s.ctrl[c].phase == Flagging(k) && k < |s.ctrl[c].flagTG|
  }

  predicate Answers(c: Cid, k: nat, s: System, e: Event) {
    |s.ctrl| == 2 && e == Deliver(Adoption(k, c)) && e.m in s.net && s.ctrl[c].id == c
  }

  /** So is the flag of each TokenGen. */
  lemma FlagIff(s: System, events: seq<Event>, c: Cid, k: nat)
    requires |s.ctrl| == 2 && k < |s.ctrl[c].flagTG|
    ensures k < |Run(s, events).ctrl[c].flagTG|
    ensures Run(s, events).ctrl[c].flagTG[k] <==>
      OnSince(s, events, s.ctrl[c].flagTG[k], (t, e) => Raises(c, k, t, e), (t, e) => Answers(c, k, t, e))
  {
    var value := (t: System) => |t.ctrl| == 2 && k < |t.ctrl[c].flagTG| && t.ctrl[c].flagTG[k];
    var sets, resets := (t, e) => Raises(c, k, t, e), (t, e) => Answers(c, k, t, e);
    forall t: System, e: Event | |t.ctrl| == 2
      ensures value(Step(t, e)) <==> sets(t, e) || (value(t) && !resets(t, e))
    {
      FlagStep(t, e, c, k);
    }
    SwitchIff(s, events, value, sets, resets);
    FlagsStay(s, events, c);
  }

  lemma FlagStep(s: System, e: Event, c: Cid, k: nat)
    requires |s.ctrl| == 2
    ensures |Step(s, e).ctrl[c].flagTG| == |s.ctrl[c].flagTG|
    ensures k < |s.ctrl[c].flagTG| ==>
      (Step(s, e).ctrl[c].flagTG[k] <==> Raises(c, k, s, e) || (s.ctrl[c].flagTG[k] && !Answers(c, k, s, e)))
  {
    if e.Deliver? && e.m in s.net { FlagReceive(s, e.m, c, k); }
  }

  lemma FlagReceive(s: System, m: Msg, c: Cid, k: nat)
    requires |s.ctrl| == 2 && m in s.net
    ensures |Receive(s, m).ctrl[c].flagTG| == |s.ctrl[c].flagTG|
    ensures k < |s.ctrl[c].flagTG| ==>
      (Receive(s, m).ctrl[c].flagTG[k] <==> s.ctrl[c].flagTG[k] && !Answers(c, k, s, Deliver(m)))
  {
  }

  lemma {:induction false} FlagsStay(s: System, events: seq<Event>, c: Cid)
    requires |s.ctrl| == 2
    ensures |Run(s, events).ctrl[c].flagTG| == |s.ctrl[c].flagTG|
  {
    if events != [] {
      FlagsStay(s, events[..|events| - 1], c);
      FlagStep(Run(s, events[..|events| - 1]), events[|events| - 1], c, 0);
    }
  }

  predicate Hears(c: Cid, s: System, e: Event) {
    |s.ctrl| == 2 && e == Deliver(Heartbeat(c)) && e.m in s.net && s.ctrl[c].id != c && s.ctrl[c].timeOut == 1
  }

  predicate StartsOver(c: Cid, s: System, e: Event) {
    |s.ctrl| == 2 && (GivesUp(s, e, c) || (e == Abandon(c) && s.ctrl[c].phase == Awaiting && s.ctrl[c].timeOut == 2))
  }

  /** An attempt can be abandoned exactly if a heartbeat came since contact was lost. */
  lemma HeardIff(s: System, events: seq<Event>, c: Cid)
    requires |s.ctrl| == 2
    ensures Run(s, events).ctrl[c].timeOut == 2 <==>
      OnSince(s, events, s.ctrl[c].timeOut == 2, (t, e) => Hears(c, t, e), (t, e) => StartsOver(c, t, e))
  {
    var value := (t: System) => |t.ctrl| == 2 && t.ctrl[c].timeOut == 2;
    var sets, resets := (t, e) => Hears(c, t, e), (t, e) => StartsOver(c, t, e);
    forall t: System, e: Event | |t.ctrl| == 2
      ensures value(Step(t, e)) <==> sets(t, e) || (value(t) && !resets(t, e))
    {
      HeardStep(t, e, c);
    }
    SwitchIff(s, events, value, sets, resets);
  }

  lemma HeardStep(s: System, e: Event, c: Cid)
    requires |s.ctrl| == 2
    ensures Step(s, e).ctrl[c].timeOut == 2 <==> Hears(c, s, e) || (s.ctrl[c].timeOut == 2 && !StartsOver(c, s, e))
  {
    if e.Deliver? && e.m in s.net { HeardReceive(s, e.m, c); }
  }

  lemma HeardReceive(s: System, m: Msg, c: Cid)
    requires |s.ctrl| == 2 && m in s.net
    ensures Receive(s, m).ctrl[c].timeOut == 2 <==> Hears(c, s, Deliver(m)) || s.ctrl[c].timeOut == 2
  {
  }

  // ----- takeovers -----

  /** A controller that switches, has a flag up or has sent a takeover was promoted. */
  ghost predicate Backed(s: System, c: Cid)
    requires |s.ctrl| == 2
  {
    && (Taking(s.ctrl[c]) ==> Promoted(s, c))
    && (PeerTakeover(c) in s.net ==> Promoted(s, c))
    && forall k: nat :: Takeover(c, k) in s.net ==> Promoted(s, c)
  }

  lemma StillPromoted(s: System, e: Event, c: Cid)
    requires |s.ctrl| == 2 && Promoted(s, c)
    ensures Promoted(Step(s, e), c)
  {
    PromotionsOnlyGrow(s, e);
    var i :| 0 <= i < |s.promotions| && s.promotions[i].who == c;
    assert Step(s, e).promotions[i].who == c;
  }

  /** c is about to take over. */
  predicate Taking(v: Ctrl) { v.phase.Flagging? || v.phase.Scanning? || v.flag }

  /** Only a win makes it so. */
  lemma TakingNeedsWin(s: System, e: Event, c: Cid)
    requires |s.ctrl| == 2 && !Taking(s.ctrl[c]) && Taking(Step(s, e).ctrl[c])
    ensures Wins(s, e, c) && Promoted(Step(s, e), c)
  {
    if e.Deliver? && e.m in s.net { TakingReceive(s, e.m, c); }
    assert e == CountVotes(c);
    assert Step(s, e).promotions[|s.promotions|].who == c;
  }

  lemma TakingReceive(s: System, m: Msg, c: Cid)
    requires |s.ctrl| == 2
    ensures Taking(Receive(s, m).ctrl[c]) ==> Taking(s.ctrl[c])
  {
  }

  lemma StepBacked(s: System, e: Event, c: Cid)
    requires Inv(s) && Backed(s, c)
    ensures Backed(Step(s, e), c)
  {
    var t := Step(s, e);
    if Promoted(s, c) {
      StillPromoted(s, e, c);
    } else {
      StepSends(s, e, PeerTakeover(c));
      forall k: nat ensures Takeover(c, k) !in t.net { StepSends(s, e, Takeover(c, k)); }
      if Taking(t.ctrl[c]) { TakingNeedsWin(s, e, c); }
    }
  }

  /** In every run: no TokenGen and no controller is told to change to a controller that has not
      won a count. */
  lemma {:induction false} TakeoverNeedsPromotion(id0: int, id1: int, ids: seq<int>, events: seq<Event>, c: Cid)
    ensures Backed(Run(Start(id0, id1, ids), events), c)
  {
    if events != [] {
      var n := |events| - 1;
      TakeoverNeedsPromotion(id0, id1, ids, events[..n], c);
      RunKeepsInv(id0, id1, ids, events[..n]);
      StepBacked(Run(Start(id0, id1, ids), events[..n]), events[n], c);
    }
  }

  /** Every run starts quietly: nothing sent, no flag up, no vote, no share, no contact lost. */
  lemma StartsQuietly(id0: int, id1: int, ids: seq<int>, c: Cid, k: nat)
    requires k < |ids|
    ensures var s := Start(id0, id1, ids);
            && s.net == {} && s.n == |ids| == |s.gen| && s.gen[k].share == 0 && s.gen[k].id == ids[k]
            && s.ctrl[c].timeOut == 0 && s.ctrl[c].phase == Idle && !s.ctrl[c].flag
            && !s.ctrl[c].flagTG[k] && !s.ctrl[c].votes[k] && s.ctrl[c].id == if c == 0 then id0 else id1
  {
  }

  /** A TokenGen whose stored number is -1 belongs to controller 0 before its first takeover. */
  lemma LostAtStart(id0: int, id1: int, ids: seq<int>, k: nat, from: Cid, share: int)
    requires k < |ids| && ids[k] == -1
    ensures OnShare(Start(id0, id1, ids).gen[k], from, share).id == if from == 0 then 0 else -1
  {
  }
}
