/**
 * The controller process (Controller/src/proxy1.c) and a TokenGen's dealings with it: their
 * fields, their message handlers and the loops of the controller's main thread.  Each is
 * proved to do, to the process and to the network, what its events do in any state of the
 * protocol of Failover that has this process in it.  A loop of the main thread is written
 * without the handlers that may run between two of its turns; each turn is one step of
 * Failover, where they do.
 */
module ControllerProcess {
  import opened Failover
  import opened CapacitySplit

  /** The same event n times. */
  function Again(s: System, e: Event, n: nat): (t: System)
    requires |s.ctrl| == 2
    ensures |t.ctrl| == 2
  {
    if n == 0 then s else Step(Again(s, e, n - 1), e)
  }

  /** That is a run of the protocol. */
  lemma {:induction false} AgainIsRun(s: System, events: seq<Event>, e: Event, n: nat)
    requires |s.ctrl| == 2
    ensures Again(Run(s, events), e, n) == Run(s, events + seq(n, _ => e))
  {
    if n == 0 {
      assert events + seq(n, _ => e) == events;
    } else {
      var init := events + seq(n - 1, _ => e);
      AgainIsRun(s, events, e, n - 1);
      var all := Then(s, init, e);
      assert all == events + seq(n, _ => e);
    }
  }

  /** The state s with controller c in state v, and these messages sent. */
  function At(s: System, c: Cid, v: Ctrl, sent: set<Msg>): System
    requires |s.ctrl| == 2
  {
    s.(ctrl := s.ctrl[c := v], net := s.net + sent)
  }

  lemma AtItself(s: System, c: Cid)
    requires |s.ctrl| == 2
    ensures At(s, c, s.ctrl[c], {}) == s
  {
    assert s.net + {} == s.net;
  }

  /** One turn of the clearing loop, or of a loop of switch_controller. */
  lemma ClearTurnAt(s: System, c: Cid, v: Ctrl, sent: set<Msg>)
    requires |s.ctrl| == 2
    ensures Step(At(s, c, v, sent), Clear(c)) == At(s, c, ClearVote(v), sent + ClearMsgs(s.n, c, v))
  {
    assert s.ctrl[c := v][c := ClearVote(v)] == s.ctrl[c := ClearVote(v)];
    assert (s.net + sent) + ClearMsgs(s.n, c, v) == s.net + (sent + ClearMsgs(s.n, c, v));
  }

  lemma SwitchTurnAt(s: System, c: Cid, v: Ctrl, sent: set<Msg>)
    requires |s.ctrl| == 2
    ensures var t := At(s, c, SwitchCtrl(v), sent + SwitchMsgs(c, v));
            Step(At(s, c, v, sent), Switch(c)) == if SwitchEnds(v) then t.(completed := s.completed + [c]) else t
  {
    assert s.ctrl[c := v][c := SwitchCtrl(v)] == s.ctrl[c := SwitchCtrl(v)];
    assert (s.net + sent) + SwitchMsgs(c, v) == s.net + (sent + SwitchMsgs(c, v));
  }

  /** The first k entries set to b. */
  function Filled(a: seq<bool>, k: nat, b: bool): (r: seq<bool>)
    requires k <= |a|
    ensures |r| == |a| && forall i :: 0 <= i < |a| ==> r[i] == if i < k then b else a[i]
  {
    if k == 0 then a else Filled(a, k - 1, b)[k - 1 := b]
  }

  /** The takeovers sent for the flags raised among the first k, and their number. */
  function Repeats(c: Cid, flags: seq<bool>, k: nat): set<Msg>
    requires k <= |flags|
  {
    if k == 0 then {} else Repeats(c, flags, k - 1) + if flags[k - 1] then {Takeover(c, k - 1)} else {}
  }

  function Raised(flags: seq<bool>, k: nat): (r: nat)
    requires k <= |flags|
    ensures r == 0 <==> forall i :: 0 <= i < k ==> !flags[i]
  {
    if k == 0 then 0 else Raised(flags, k - 1) + if flags[k - 1] then 1 else 0
  }

  function Takeovers(c: Cid, k: nat): set<Msg> {
    if k == 0 then {} else Takeovers(c, k - 1) + {Takeover(c, k - 1)}
  }

  /** The three loops after k turns each. */
  lemma {:induction false} AfterClears(s: System, lost: System, k: nat, c: Cid, v: Ctrl)
    requires |s.ctrl| == 2 && |lost.ctrl| == 2 && lost == At(s, c, v, {}) && v.phase == Clearing(0) && k <= |v.votes|
    ensures Again(lost, Clear(c), k) == At(s, c, v.(votes := Filled(v.votes, k, false), phase := Clearing(k)), {})
  {
    if k > 0 {
      AfterClears(s, lost, k - 1, c, v);
      ClearTurnAt(s, c, v.(votes := Filled(v.votes, k - 1, false), phase := Clearing(k - 1)), {});
      var none: set<Msg> := {};
      assert none + none == none;
    }
  }

  lemma FlagTurn(s: System, c: Cid, v: Ctrl, k: nat, sent: set<Msg>)
    requires |s.ctrl| == 2 && v.phase == Flagging(k) && k < |v.flagTG|
    ensures Step(At(s, c, v, sent), Switch(c)) ==
      At(s, c, v.(flagTG := v.flagTG[k := true], phase := Flagging(k + 1)), sent + {Takeover(c, k)})
  {
    SwitchTurnAt(s, c, v, sent);
  }

  lemma {:induction false} AfterFlags(s: System, k: nat, c: Cid, v: Ctrl)
    requires |s.ctrl| == 2 && v == s.ctrl[c] && v.phase == Flagging(0) && k <= |v.flagTG|
    ensures Again(s, Switch(c), k) ==
      At(s, c, v.(flagTG := Filled(v.flagTG, k, true), phase := Flagging(k)), Takeovers(c, k))
  {
    if k == 0 {
      AtItself(s, c);
    } else {
      AfterFlags(s, k - 1, c, v);
      FlagTurn(s, c, v.(flagTG := Filled(v.flagTG, k - 1, true), phase := Flagging(k - 1)), k - 1, Takeovers(c, k - 1));
    }
  }

  lemma ScanTurn(s: System, c: Cid, v: Ctrl, k: nat, pending: nat, sent: set<Msg>)
    requires |s.ctrl| == 2 && v.phase == Scanning(k, pending) && k < |v.flagTG|
    ensures Step(At(s, c, v, sent), Switch(c)) ==
      At(s, c, v.(phase := Scanning(k + 1, pending + if v.flagTG[k] then 1 else 0)),
         sent + if v.flagTG[k] then {Takeover(c, k)} else {})
  {
    SwitchTurnAt(s, c, v, sent);
  }

  lemma {:induction false} AfterScans(s: System, k: nat, c: Cid, v: Ctrl)
    requires |s.ctrl| == 2 && v == s.ctrl[c] && v.phase == Scanning(0, 0) && k <= |v.flagTG|
    ensures Again(s, Switch(c), k) ==
      At(s, c, v.(phase := Scanning(k, Raised(v.flagTG, k))), Repeats(c, v.flagTG, k))
  {
    if k == 0 {
      AtItself(s, c);
    } else {
      AfterScans(s, k - 1, c, v);
      var pending, sent := Raised(v.flagTG, k - 1), Repeats(c, v.flagTG, k - 1);
      ScanTurn(s, c, v.(phase := Scanning(k - 1, pending)), k - 1, pending, sent);
    }
  }

  lemma LastTurn(s: System, c: Cid, v: Ctrl, pending: nat, sent: set<Msg>)
    requires |s.ctrl| == 2 && v.phase == Scanning(|v.flagTG|, pending)
    ensures Step(At(s, c, v, sent), Switch(c)) ==
      At(s, c, v.(phase := if pending == 0 then Idle else Scanning(0, 0)), sent)
      .(completed := s.completed + if pending == 0 then [c] else [])
  {
    SwitchTurnAt(s, c, v, sent);
    assert sent + {} == sent && s.completed + [] == s.completed;
  }

  lemma LostAtOnce(s: System, c: Cid)
    requires |s.ctrl| == 2 && s.ctrl[c].phase == Idle && s.ctrl[c].id != c
    ensures Step(s, LoseContact(c)) == At(s, c, GiveUp(s.ctrl[c]), {})
  {
    assert s.net + {} == s.net;
  }

  /** A whole timeout(), up to the wait, and the whole first loop of switch_controller. */
  lemma AfterTimeout(s: System, c: Cid, v: Ctrl)
    requires |s.ctrl| == 2 && v == s.ctrl[c] && v.phase == Idle && v.id != c
    ensures Again(Step(s, LoseContact(c)), Clear(c), |v.votes| + 1) ==
      At(s, c, GiveUp(v).(votes := Filled(v.votes, |v.votes|, false), phase := Awaiting), Requests(s.n, c))
  {
    var lost, n := Step(s, LoseContact(c)), |v.votes|;
    LostAtOnce(s, c);
    AfterClears(s, lost, n, c, GiveUp(v));
    ClearTurnAt(s, c, GiveUp(v).(votes := Filled(v.votes, n, false), phase := Clearing(n)), {});
    assert {} + Requests(s.n, c) == Requests(s.n, c);
  }

  lemma AfterRaising(s: System, c: Cid, v: Ctrl)
    requires |s.ctrl| == 2 && v == s.ctrl[c] && v.phase == Flagging(0)
    ensures Again(s, Switch(c), |v.flagTG| + 1) ==
      At(s, c, v.(flagTG := Filled(v.flagTG, |v.flagTG|, true), flag := true, phase := Scanning(0, 0)),
         Takeovers(c, |v.flagTG|) + {PeerTakeover(c)})
  {
    var n := |v.flagTG|;
    AfterFlags(s, n, c, v);
    SwitchTurnAt(s, c, v.(flagTG := Filled(v.flagTG, n, true), phase := Flagging(n)), Takeovers(c, n));
  }

  class Controller {
    const me: Cid
    const n: nat
    var id: int
    var timeOut: int
    var votesRecv: int
    const votes: array<bool>
    const flagTG: array<bool>
    var flag: bool
    const capacity: int
    const incomingR: array<int>
    const incomingRate: array<real>
    var sum: real
    const soc: array<int>
    ghost var phase: Phase
    ghost var strays: set<nat>

    ghost predicate Valid() {
      && votes.Length == flagTG.Length == incomingR.Length == incomingRate.Length == soc.Length == n
      && votes != flagTG && incomingR != soc
    }

    ghost function View(): Ctrl
      reads this, votes, flagTG
    {
      Ctrl(id, timeOut, votesRecv, votes[..], flagTG[..], flag, phase, strays)
    }

    /** A state of the protocol with this process in it. */
    ghost predicate In(s: System)
      reads this, votes, flagTG
    {
      |s.ctrl| == 2 && s.n == n && s.ctrl[me] == View()
    }

    /** The same with this process as it is now, after sending these messages. */
    ghost function With(s: System, sent: set<Msg>): System
      requires |s.ctrl| == 2
      reads this, votes, flagTG
    {
      At(s, me, View(), sent)
    }

    constructor (me: Cid, stored: int, n: nat, capacity: int)
      ensures Valid() && this.me == me && this.n == n && this.capacity == capacity
      ensures forall ids: seq<int> :: |ids| == n ==> View() == Start(stored, stored, ids).ctrl[me]
    {
      this.me, this.n, this.capacity := me, n, capacity;
      id, timeOut, votesRecv, flag, sum := stored, 0, 0, false, 0.0;
      votes := new bool[n](_ => false);
      flagTG := new bool[n](_ => false);
      incomingR := new int[n](_ => 0);
      incomingRate := new real[n](_ => 0.0);
      soc := new int[n](_ => 1);
      phase, strays := Idle, {};
      new;
      assert votes[..] == seq(n, _ => false) && flagTG[..] == seq(n, _ => false);
    }

    /** 'a' */
    method HandleHeartbeat(ghost s: System) returns (sent: set<Msg>)
      requires Valid() && In(s)
      modifies `id, `timeOut
      ensures Receive(s, Heartbeat(me)) == With(s, sent)
    {
      sent := {};
      if id == me {
        if flag { sent := {PeerTakeover(me)}; }
      } else {
        if timeOut == 1 {
          id := 1 - me;
          timeOut := 2;
        }
      }
      assert s.net + {} == s.net;
    }

    /** 'p' */
    method HandleVote(gen: nat, ghost s: System)
      requires Valid() && gen < n && In(s)
      modifies `votesRecv, `strays, votes
      ensures Receive(s, Vote(gen, me)) == With(s, {})
    {
      if id != me {
        if !votes[gen] {
          if Uncleared(View(), gen) { strays := strays + {gen}; }
          votesRecv := votesRecv + 1;
          votes[gen] := true;
        }
      }
      assert View() == OnVote(me, old(View()), gen);
      assert s.net + {} == s.net;
    }

    /** 't' from the other controller. */
    method HandleTakeover(ghost s: System) returns (sent: set<Msg>)
      requires Valid() && In(s)
      modifies `id
      ensures Receive(s, PeerTakeover(1 - me)) == With(s, sent)
    {
      id := 1 - me;
      sent := {PeerAck(1 - me)};
    }

    /** 'y' */
    method HandleAdoption(gen: nat, ghost s: System)
      requires Valid() && gen < n && In(s)
      modifies flagTG
      ensures Receive(s, Adoption(gen, me)) == With(s, {})
    {
      if id == me { flagTG[gen] := false; }
      assert View() == OnAdoption(me, old(View()), gen);
      assert s.net + {} == s.net;
    }

    /** 'z' */
    method HandlePeerAck(ghost s: System)
      requires Valid() && In(s)
      modifies `flag
      ensures Receive(s, PeerAck(me)) == With(s, {})
    {
      if id == me { flag := false; }
      assert s.net + {} == s.net;
    }

    /** timeout(), up to the wait for votes: contact is lost, the votes are cleared, and all
        TokenGens are asked to change controller. */
    method Timeout(ghost s: System) returns (sent: set<Msg>)
      requires Valid() && In(s) && phase == Idle && id != me
      modifies `timeOut, `id, `votesRecv, `phase, `strays, votes
      ensures Again(Step(s, LoseContact(me)), Clear(me), n + 1) == With(s, sent)
      ensures phase == Awaiting && votesRecv == 0 && votes[..] == seq(n, _ => false)
    {
      ghost var was := votes[..];
      AfterTimeout(s, me, View());
      timeOut := 1;
      id := -1;
      votesRecv := 0;
      phase, strays := Clearing(0), {};
      for counter := 0 to n
        invariant votes[..] == Filled(was, counter, false)
        invariant timeOut == 1 && id == -1 && votesRecv == 0 && strays == {}
      {
        votes[counter] := false;
      }
      sent := AskAll();
      phase := Awaiting;
    }

    /** The requests of timeout(). */
    method AskAll() returns (sent: set<Msg>)
      ensures sent == Requests(n, me)
    {
      sent := {};
      for k := 0 to n
        invariant sent == Requests(k, me)
      {
        sent := sent + {ChangeRequest(me, k)};
      }
    }

    /** The end of timeout(). */
    method CountVotes(ghost s: System) returns (promoted: bool)
      requires Valid() && In(s) && phase == Awaiting
      modifies `id, `phase
      ensures promoted <==> votesRecv >= n / 2 + 1
      ensures Step(s, Event.CountVotes(me)) == With(s, {}).(promotions :=
        s.promotions + if promoted then [Promotion(me, Voters(votes[..]), strays)] else [])
    {
      promoted := votesRecv >= n / 2 + 1;
      if promoted {
        id := me;
        phase := Flagging(0);
      } else {
        phase := Idle;
      }
      assert s.net + {} == s.net && s.promotions + [] == s.promotions;
    }

    /** The first loop of switch_controller. */
    method RaiseFlags(ghost s: System) returns (sent: set<Msg>)
      requires Valid() && In(s) && phase == Flagging(0)
      modifies `flag, `phase, flagTG
      ensures Again(s, Switch(me), n + 1) == With(s, sent)
      ensures flag && flagTG[..] == seq(n, _ => true) && phase == Scanning(0, 0)
    {
      ghost var was := flagTG[..];
      AfterRaising(s, me, View());
      sent := {};
      for counter := 0 to n
        invariant flagTG[..] == Filled(was, counter, true) && sent == Takeovers(me, counter)
      {
        flagTG[counter] := true;
        sent := sent + {Takeover(me, counter)};
      }
      flag := true;
      sent := sent + {PeerTakeover(me)};
      phase := Scanning(0, 0);
    }

    /** One turn of the waiting loop of switch_controller: the takeover is repeated to those
        whose flag is raised, and the wait ends exactly when there is none. */
    method Scan(ghost s: System) returns (done: bool, sent: set<Msg>)
      requires Valid() && In(s) && phase == Scanning(0, 0)
      modifies `phase
      ensures Again(s, Switch(me), n + 1) ==
        With(s, sent).(completed := s.completed + if done then [me] else [])
      ensures done <==> forall k :: 0 <= k < n ==> !flagTG[k]
      ensures done <==> phase == Idle
    {
      AfterScans(s, n, me, View());
      var c := 0;
      sent := {};
      for counter := 0 to n
        invariant c == Raised(flagTG[..], counter) && sent == Repeats(me, flagTG[..], counter)
      {
        if flagTG[counter] {
          c := c + 1;
          sent := sent + {Takeover(me, counter)};
        }
      }
      LastTurn(s, me, View().(phase := Scanning(n, c)), c, sent);
      done := c == 0;
      phase := if c == 0 then Idle else Scanning(0, 0);
    }

    ghost function Rates(): seq<real>
      reads incomingR
    {
      seq(incomingR.Length, i requires 0 <= i < incomingR.Length reads incomingR => incomingR[i] as real)
    }

    /** calcSoc(): only the primary shares out the capacity. */
    method CalcSoc()
      requires Valid()
      modifies `sum, incomingRate, soc
      ensures soc[..] == if id == me then Shares(Rates(), capacity) else old(soc[..])
    {
      if id != me { return; }
      sum := 0.0;
      ghost var rates := Rates();
      for i := 0 to n
        invariant sum == 0.0 && forall k :: 0 <= k < i ==> incomingRate[k] == rates[k]
      {
        incomingRate[i] := incomingR[i] as real;
      }
      for i := 0 to n
        invariant sum == Total(rates, i) && forall k :: 0 <= k < n ==> incomingRate[k] == rates[k]
      {
        sum := sum + incomingRate[i];
      }
      Split(rates);
    }

    method Split(ghost rates: seq<real>)
      requires Valid() && rates == Rates() && sum == Total(rates, n)
      requires forall k :: 0 <= k < n ==> incomingRate[k] == rates[k]
      modifies soc
      ensures soc[..] == Shares(rates, capacity)
    {
      if sum == 0.0 {
        for i := 0 to n
          invariant forall k :: 0 <= k < i ==> soc[k] == Shares(rates, capacity)[k]
        {
          soc[i] := Round((1 / n * capacity) as real);
        }
      } else {
        for i := 0 to n
          invariant forall k :: 0 <= k < i ==> soc[k] == Shares(rates, capacity)[k]
        {
          if incomingRate[i] == 0.0 {
            soc[i] := 1;
          } else {
            soc[i] := Round(Part(incomingRate[i], sum, capacity as real));
          }
        }
      }
    }
  }

  /** What TokenGen k knows of its controller (TokenGen/src/proxy1.c). */
  class TokenGenLink {
    const k: nat
    var id: int
    var prevId: int
    var share: int

    ghost function View(): Gen
      reads this
    {
      Gen(id, prevId, share)
    }

    ghost predicate In(s: System)
      reads this
    {
      |s.ctrl| == 2 && k < |s.gen| && s.gen[k] == View()
    }

    ghost function With(s: System, sent: set<Msg>): System
      requires k < |s.gen|
      reads this
    {
      s.(gen := s.gen[k := View()], net := s.net + sent)
    }

    constructor (k: nat, stored: int)
      ensures this.k == k
      ensures forall id0: int, id1: int, ids: seq<int> :: k < |ids| && ids[k] == stored ==> In(Start(id0, id1, ids))
    {
      this.k := k;
      id, prevId, share := stored, 0, 0;
    }

    /** 'x': a vote for the controller that asks, or a refusal. */
    method HandleChangeRequest(from: Cid, ghost s: System) returns (reply: Msg)
      requires In(s)
      ensures Receive(s, ChangeRequest(from, k)) ==
        With(s, {reply}).(voted := s.voted + if reply == Vote(k, from) then {(k, from)} else {})
    {
      if id == -1 { reply := Vote(k, from); } else { reply := Refusal(k, from); }
      assert s.gen[k := View()] == s.gen && s.voted + {} == s.voted;
    }

    /** 't' */
    method HandleTakeover(from: Cid, ghost s: System) returns (reply: Msg)
      requires In(s)
      modifies `id
      ensures Receive(s, Takeover(from, k)) == With(s, {reply}).(adopted := s.adopted + {(k, from)})
    {
      id := from;
      reply := Adoption(k, from);
    }

    /** 's' */
    method HandleShare(from: Cid, value: int, ghost s: System)
      requires In(s)
      modifies `share, `id
      ensures Receive(s, ShareOf(from, k, value)) == With(s, {})
    {
      if (id == -1 && from == prevId) || from == id {
        if value != 0 { share := value; }
        if id == -1 { id := prevId; }
      }
      assert s.net + {} == s.net;
    }

    method Timeout(ghost s: System)
      requires In(s)
      modifies `prevId, `id
      ensures Step(s, GenLosesContact(k)) == With(s, {})
    {
      prevId := id;
      id := -1;
      assert s.net + {} == s.net;
    }
  }
}
