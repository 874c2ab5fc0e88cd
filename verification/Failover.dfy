/**
 * Controller failover (Controller/src/proxy1.c with TokenGen/src/proxy1.c).  Two
 * controllers and n TokenGens exchange messages that may be lost, delayed, reordered or
 * delivered again; timers may fire at any moment.  A backup that misses heartbeats asks
 * the TokenGens to change controller, and promotes itself when enough of them have lost
 * contact with their controller too.
 */
module Failover {
  import opened Counting

  type Cid = c: int | c == 0 || c == 1

  datatype Msg =
    | Heartbeat(to: Cid)                       // 'a'
    | ChangeRequest(from: Cid, gen: nat)       // 'x'
    | Vote(gen: nat, to: Cid)                  // 'p'
    | Refusal(gen: nat, to: Cid)               // 'n'
    | Takeover(from: Cid, gen: nat)            // 't' to a TokenGen
    | PeerTakeover(from: Cid)                  // 't' to the other controller
    | Adoption(gen: nat, to: Cid)              // 'y'
    | PeerAck(to: Cid)                         // 'z'
    | ShareOf(from: Cid, gen: nat, share: int) // 's'

  /** Where a controller's main thread stands. */
  datatype Phase = Idle | Clearing(next: nat) | Awaiting | Flagging(next: nat) | Scanning(next: nat, pending: nat)

  /** `strays` is bookkeeping: the TokenGens whose vote was counted in this attempt although
      timeout() had yet to clear their entry, so that they can be counted once more. */
  datatype Ctrl = Ctrl(id: int, timeOut: int, votesRecv: int, votes: seq<bool>, flagTG: seq<bool>, flag: bool,
                       phase: Phase, strays: set<nat>)

  datatype Gen = Gen(id: int, prevId: int, share: int)

  // ----- what each handler does to its own process -----

  /** 'a' at a controller: a backup that just gave up on its primary takes it back. */
  function OnHeartbeat(me: Cid, c: Ctrl): Ctrl {
    if c.id != me && c.timeOut == 1 then c.(id := 1 - me, timeOut := 2) else c
  }

  predicate Counts(me: Cid, c: Ctrl, gen: nat) {
    c.id != me && gen < |c.votes| && !c.votes[gen]
  }

  /** The entry of this TokenGen is still to be cleared. */
  predicate Uncleared(c: Ctrl, gen: nat) {
    c.phase.Clearing? && c.phase.next <= gen
  }

  /** 'p' at a controller: a TokenGen whose entry is set is not counted again. */
  function OnVote(me: Cid, c: Ctrl, gen: nat): Ctrl {
    if Counts(me, c, gen)
    then c.(votesRecv := c.votesRecv + 1, votes := c.votes[gen := true],
            strays := if Uncleared(c, gen) then c.strays + {gen} else c.strays)
    else c
  }

  function OnAdoption(me: Cid, c: Ctrl, gen: nat): Ctrl {
    if c.id == me && gen < |c.flagTG| then c.(flagTG := c.flagTG[gen := false]) else c
  }

  function OnPeerAck(me: Cid, c: Ctrl): Ctrl {
    if c.id == me then c.(flag := false) else c
  }

  /** timeout(): forget the primary and start a new count. */
  function GiveUp(c: Ctrl): Ctrl {
    c.(timeOut := 1, id := -1, votesRecv := 0, phase := Clearing(0), strays := {})
  }

  /** The loop of timeout() that forgets the votes of earlier attempts, one entry at a time;
      then the TokenGens are asked. */
  function ClearVote(c: Ctrl): Ctrl {
    if !c.phase.Clearing? then c
    else if c.phase.next < |c.votes|
    then c.(votes := c.votes[c.phase.next := false], phase := Clearing(c.phase.next + 1))
    else c.(phase := Awaiting)
  }

  function Majority(n: nat): nat { n / 2 + 1 }

  /** The end of timeout(): promote on a majority. */
  function Decide(me: Cid, c: Ctrl): Ctrl {
    if c.votesRecv >= Majority(|c.votes|) then c.(id := me, phase := Flagging(0)) else c.(phase := Idle)
  }

  /** switch_controller: raise the flag of every TokenGen, then scan the flags again and again
      until a whole scan finds none raised. */
  function SwitchCtrl(v: Ctrl): Ctrl {
    match v.phase
    case Flagging(k) =>
      if k < |v.flagTG| then v.(flagTG := v.flagTG[k := true], phase := Flagging(k + 1))
      else v.(flag := true, phase := Scanning(0, 0))
    case Scanning(k, pending) =>
      if k < |v.flagTG| then v.(phase := Scanning(k + 1, if v.flagTG[k] then pending + 1 else pending))
      else if pending == 0 then v.(phase := Idle)
      else v.(phase := Scanning(0, 0))
    case _ => v
  }

  predicate SwitchEnds(v: Ctrl) {
    v.phase.Scanning? && v.phase.next >= |v.flagTG| && v.phase.pending == 0
  }

  function SwitchMsgs(c: Cid, v: Ctrl): set<Msg> {
    match v.phase
    case Flagging(k) => if k < |v.flagTG| then {Takeover(c, k)} else {PeerTakeover(c)}
    case Scanning(k, _) => if k < |v.flagTG| && v.flagTG[k] then {Takeover(c, k)} else {}
    case _ => {}
  }

  /** timeout() at a TokenGen. */
  function GenTimeout(g: Gen): Gen { g.(prevId := g.id, id := -1) }

  /** 's' at a TokenGen. */
  function OnShare(g: Gen, from: Cid, share: int): Gen {
    if (g.id == -1 && from == g.prevId) || from == g.id then
      g.(share := if share != 0 then share else g.share, id := if g.id == -1 then g.prevId else g.id)
    else g
  }

  // ----- the system -----

  /** One promotion: the TokenGens whose entries were set, and those counted before their entry
      was cleared. */
  datatype Promotion = Promotion(who: Cid, voters: set<nat>, strays: set<nat>)

  /** `net` is every message ever sent.  `voted`, `adopted`, `promotions` and `completed`
      record what happened in the run. */
  datatype System = System(n: nat, ctrl: seq<Ctrl>, gen: seq<Gen>, net: set<Msg>,
                           voted: set<(nat, Cid)>, adopted: set<(nat, Cid)>,
                           promotions: seq<Promotion>, completed: seq<Cid>)

  datatype Event =
    | LoseContact(c: Cid)          // the backup's timer fires
    | Clear(c: Cid)                // one step of the clearing loop
    | Abandon(c: Cid)              // a heartbeat came while waiting for votes
    | CountVotes(c: Cid)           // the wait for votes ends
    | Switch(c: Cid)               // one step of switch_controller
    | Beat(c: Cid)                 // the primary sends a heartbeat
    | SendShare(c: Cid, gen: nat, share: int)
    | GenLosesContact(gen: nat)
    | Deliver(m: Msg)

  function Voters(votes: seq<bool>): set<nat> { set k: nat | k < |votes| && votes[k] }

  function SetCtrl(s: System, c: Cid, v: Ctrl): System
    requires |s.ctrl| == 2
  {
    s.(ctrl := s.ctrl[c := v])
  }

  function Send(s: System, m: Msg): System { s.(net := s.net + {m}) }

  /** One step of switch_controller. */
  function SwitchStep(s: System, c: Cid): System
    requires |s.ctrl| == 2
  {
    var v := s.ctrl[c];
    SetCtrl(s, c, SwitchCtrl(v)).(net := s.net + SwitchMsgs(c, v),
                                  completed := if SwitchEnds(v) then s.completed + [c] else s.completed)
  }

  function Receive(s: System, m: Msg): System
    requires |s.ctrl| == 2
  {
    match m
    case Heartbeat(c) =>
      var t := SetCtrl(s, c, OnHeartbeat(c, s.ctrl[c]));
      if s.ctrl[c].id == c && s.ctrl[c].flag then Send(t, PeerTakeover(c)) else t
    case Vote(k, c) => SetCtrl(s, c, OnVote(c, s.ctrl[c], k))
    case Refusal(_, _) => s
    case PeerTakeover(from) =>
      Send(SetCtrl(s, 1 - from, s.ctrl[1 - from].(id := from)), PeerAck(from))
    case Adoption(k, c) => SetCtrl(s, c, OnAdoption(c, s.ctrl[c], k))
    case PeerAck(c) => SetCtrl(s, c, OnPeerAck(c, s.ctrl[c]))
    case ChangeRequest(c, k) =>
      if k >= |s.gen| then s
      else if s.gen[k].id == -1 then Send(s, Vote(k, c)).(voted := s.voted + {(k, c)})
      else Send(s, Refusal(k, c))
    case Takeover(c, k) =>
      if k >= |s.gen| then s
      else Send(s, Adoption(k, c)).(gen := s.gen[k := s.gen[k].(id := c)], adopted := s.adopted + {(k, c)})
    case ShareOf(c, k, v) =>
      if k >= |s.gen| then s else s.(gen := s.gen[k := OnShare(s.gen[k], c, v)])
  }

  function Requests(n: nat, c: Cid): set<Msg> { set k: nat | k < n :: ChangeRequest(c, k) }

  function ClearMsgs(n: nat, c: Cid, v: Ctrl): set<Msg> {
    if v.phase.Clearing? && v.phase.next >= |v.votes| then Requests(n, c) else {}
  }

  /** One atomic step; an event that is not enabled changes nothing. */
  function Step(s: System, e: Event): (t: System)
    requires |s.ctrl| == 2
    ensures |t.ctrl| == 2
  {
    match e
    case LoseContact(c) =>
      if s.ctrl[c].phase == Idle && s.ctrl[c].id != c
      then SetCtrl(s, c, GiveUp(s.ctrl[c])) else s
    case Clear(c) =>
      SetCtrl(s, c, ClearVote(s.ctrl[c])).(net := s.net + ClearMsgs(s.n, c, s.ctrl[c]))
    case Abandon(c) =>
      if s.ctrl[c].phase == Awaiting && s.ctrl[c].timeOut == 2
      then SetCtrl(s, c, s.ctrl[c].(timeOut := 0, phase := Idle)) else s
    case CountVotes(c) =>
      if s.ctrl[c].phase == Awaiting then
        var t := SetCtrl(s, c, Decide(c, s.ctrl[c]));
        if t.ctrl[c].id == c && t.ctrl[c].phase == Flagging(0)
        then t.(promotions := s.promotions + [Promotion(c, Voters(s.ctrl[c].votes), s.ctrl[c].strays)]) else t
      else s
    case Switch(c) => SwitchStep(s, c)
    case Beat(c) => if s.ctrl[c].id == c then Send(s, Heartbeat(1 - c)) else s
    case SendShare(c, k, v) => if s.ctrl[c].id == c then Send(s, ShareOf(c, k, v)) else s
    case GenLosesContact(k) => if k < |s.gen| then s.(gen := s.gen[k := GenTimeout(s.gen[k])]) else s
    case Deliver(m) => if m in s.net then Receive(s, m) else s
  }

  /** Processes start with the controller number stored on their disk. */
  function Start(id0: int, id1: int, ids: seq<int>): System {
    var n := |ids|;
    var c := Ctrl(id0, 0, 0, seq(n, _ => false), seq(n, _ => false), false, Idle, {});
    System(n, [c, c.(id := id1)], seq(|ids|, k requires 0 <= k < |ids| => Gen(ids[k], 0, 0)), {}, {}, {}, [], [])
  }

  /** The state after a run. */
  function Run(s: System, events: seq<Event>): (r: System)
    requires |s.ctrl| == 2
    ensures |r.ctrl| == 2
  {
    if events == [] then s else Step(Run(s, events[..|events| - 1]), events[|events| - 1])
  }

  // ----- what every run keeps -----

  type Pairs = set<(nat, Cid)>

  /** How many entries belong to the current attempt. */
  function Cleared(v: Ctrl): nat {
    if v.phase.Clearing? then v.phase.next else |v.votes|
  }

  /** The books of one controller: counted votes were cast, cleared flags were answered. */
  ghost predicate BooksOk(n: nat, c: Cid, v: Ctrl, voted: Pairs, adopted: Pairs) {
    && |v.votes| == |v.flagTG| == n
    && Cleared(v) <= n && v.votesRecv == |Voters(v.votes[..Cleared(v)])| + |v.strays|
    && (forall k :: k in v.strays ==> k < n && (k, c) in voted && (Uncleared(v, k) ==> v.votes[k]))
    && (forall k: nat :: k < n && v.votes[k] ==> (k, c) in voted)
    && PhaseOk(n, c, v, adopted)
  }

  ghost predicate PhaseOk(n: nat, c: Cid, v: Ctrl, adopted: Pairs)
    requires |v.flagTG| == n
  {
    match v.phase
    case Flagging(j) => j <= n && Answered(v.flagTG, j, c, adopted)
    case Scanning(j, pending) =>
      j <= n && Answered(v.flagTG, n, c, adopted) && (pending == 0 ==> forall k: nat :: k < j ==> !v.flagTG[k])
    case _ => true
  }

  /** Among the first j TokenGens, those without a flag have adopted c. */
  ghost predicate Answered(flags: seq<bool>, j: nat, c: Cid, adopted: Pairs) {
    forall k: nat :: k < j <= |flags| && !flags[k] ==> (k, c) in adopted
  }

  /** Votes and adoptions are only ever sent by a TokenGen that means them. */
  ghost predicate NetOk(net: set<Msg>, voted: Pairs, adopted: Pairs) {
    && (forall k: nat, c: Cid :: Vote(k, c) in net ==> (k, c) in voted)
    && forall k: nat, c: Cid :: Adoption(k, c) in net ==> (k, c) in adopted
  }

  /** The distinct TokenGens behind a promotion. */
  function Supporters(p: Promotion): set<nat> { p.voters + p.strays }

  /** A promotion rests on enough counted votes, of TokenGens that had lost contact when they
      were asked. */
  ghost predicate Justified(n: nat, voted: Pairs, p: Promotion) {
    && |p.voters| + |p.strays| >= Majority(n)
    && forall k :: k in Supporters(p) ==> k < n && (k, p.who) in voted
  }

  ghost predicate HistoryOk(s: System) {
    && (forall i :: 0 <= i < |s.promotions| ==> Justified(s.n, s.voted, s.promotions[i]))
    && forall i :: 0 <= i < |s.completed| ==> AllAdopted(s, s.completed[i])
  }

  ghost predicate AllAdopted(s: System, c: Cid) {
    forall k: nat :: k < s.n ==> (k, c) in s.adopted
  }

  ghost predicate Inv(s: System) {
    && |s.ctrl| == 2
    && BooksOk(s.n, 0, s.ctrl[0], s.voted, s.adopted) && BooksOk(s.n, 1, s.ctrl[1], s.voted, s.adopted)
    && NetOk(s.net, s.voted, s.adopted) && HistoryOk(s)
  }

  // ----- each handler keeps the books -----

  lemma VoteKeepsBooks(n: nat, c: Cid, v: Ctrl, voted: Pairs, adopted: Pairs, k: nat)
    requires BooksOk(n, c, v, voted, adopted) && (k, c) in voted
    ensures BooksOk(n, c, OnVote(c, v, k), voted, adopted)
  {
    if v.id != c && k < n && !v.votes[k] {
      var j := Cleared(v);
      VotersWith(v.votes, k, j);
    }
  }

  lemma VotersWith(votes: seq<bool>, k: nat, j: nat)
    requires k < |votes| && j <= |votes| && !votes[k]
    ensures |Voters(votes[k := true][..j])| == |Voters(votes[..j])| + if k < j then 1 else 0
  {
    if k < j {
      assert Voters(votes[k := true][..j]) == Voters(votes[..j]) + {k};
    } else {
      assert votes[k := true][..j] == votes[..j];
    }
  }

  lemma AdoptionKeepsBooks(n: nat, c: Cid, v: Ctrl, voted: Pairs, adopted: Pairs, k: nat)
    requires BooksOk(n, c, v, voted, adopted) && (k, c) in adopted
    ensures BooksOk(n, c, OnAdoption(c, v, k), voted, adopted)
  {
  }

  lemma GiveUpKeepsBooks(n: nat, c: Cid, v: Ctrl, voted: Pairs, adopted: Pairs)
    requires BooksOk(n, c, v, voted, adopted)
    ensures BooksOk(n, c, GiveUp(v), voted, adopted)
  {
    assert Voters(v.votes[..0]) == {};
  }

  lemma ClearKeepsBooks(n: nat, c: Cid, v: Ctrl, voted: Pairs, adopted: Pairs)
    requires BooksOk(n, c, v, voted, adopted)
    ensures BooksOk(n, c, ClearVote(v), voted, adopted)
  {
    if v.phase.Clearing? {
      var j := v.phase.next;
      if j < n {
        assert Voters(v.votes[j := false][..j + 1]) == Voters(v.votes[..j]);
      } else {
        assert v.votes[..j] == v.votes[..|v.votes|];
      }
    }
  }

  /** A promotion is only decided on enough votes. */
  lemma DecideIsJustified(n: nat, c: Cid, v: Ctrl, voted: Pairs, adopted: Pairs)
    requires BooksOk(n, c, v, voted, adopted) && v.phase == Awaiting
    ensures BooksOk(n, c, Decide(c, v), voted, adopted)
    ensures Decide(c, v).phase == Flagging(0) ==>
      Justified(n, voted, Promotion(c, Voters(v.votes), v.strays))
  {
    assert v.votes[..|v.votes|] == v.votes;
  }

  lemma SwitchKeepsBooks(n: nat, c: Cid, v: Ctrl, voted: Pairs, adopted: Pairs)
    requires BooksOk(n, c, v, voted, adopted)
    ensures BooksOk(n, c, SwitchCtrl(v), voted, adopted)
    ensures SwitchEnds(v) ==> forall k: nat :: k < n ==> (k, c) in adopted
  {
    match v.phase
    case Flagging(k) =>
      if k < n {
        var flags := v.flagTG[k := true];
        assert Answered(flags, k + 1, c, adopted);
      }
    case _ =>
  }

  lemma BooksMonotone(n: nat, c: Cid, v: Ctrl, voted: Pairs, adopted: Pairs, voted': Pairs, adopted': Pairs)
    requires BooksOk(n, c, v, voted, adopted) && voted <= voted' && adopted <= adopted'
    ensures BooksOk(n, c, v, voted', adopted')
  {
  }

  /** A step that touches one controller and sends honest messages. */
  lemma StepFrame(s: System, t: System, c: Cid)
    requires Inv(s) && t.n == s.n && |t.ctrl| == 2 && t.ctrl[1 - c] == s.ctrl[1 - c]
    requires s.voted <= t.voted && s.adopted <= t.adopted
    requires BooksOk(t.n, c, t.ctrl[c], t.voted, t.adopted)
    requires NetOk(t.net, t.voted, t.adopted)
    requires t.promotions == s.promotions && t.completed == s.completed
    ensures Inv(t)
  {
    BooksMonotone(s.n, 1 - c, s.ctrl[1 - c], s.voted, s.adopted, t.voted, t.adopted);
    forall i | 0 <= i < |t.promotions| ensures Justified(t.n, t.voted, t.promotions[i]) {
      assert Justified(s.n, s.voted, s.promotions[i]);
    }
    forall i | 0 <= i < |t.completed| ensures AllAdopted(t, t.completed[i]) {
      assert AllAdopted(s, s.completed[i]);
    }
  }

  lemma PromotionKeepsInv(s: System, p: Promotion)
    requires Inv(s) && Justified(s.n, s.voted, p)
    ensures Inv(s.(promotions := s.promotions + [p]))
  {
    var t := s.(promotions := s.promotions + [p]);
    forall i | 0 <= i < |t.promotions| ensures Justified(t.n, t.voted, t.promotions[i]) {
      assert i < |s.promotions| ==> Justified(s.n, s.voted, s.promotions[i]);
    }
    forall i | 0 <= i < |t.completed| ensures AllAdopted(t, t.completed[i]) { assert AllAdopted(s, s.completed[i]); }
  }

  lemma CompletionKeepsInv(s: System, c: Cid)
    requires Inv(s) && AllAdopted(s, c)
    ensures Inv(s.(completed := s.completed + [c]))
  {
    var t := s.(completed := s.completed + [c]);
    forall i | 0 <= i < |t.completed| ensures AllAdopted(t, t.completed[i]) {
      assert i < |s.completed| ==> AllAdopted(s, s.completed[i]);
    }
  }

  lemma SwitchKeepsInv(s: System, c: Cid)
    requires Inv(s)
    ensures Inv(SwitchStep(s, c))
  {
    var v := s.ctrl[c];
    SwitchKeepsBooks(s.n, c, v, s.voted, s.adopted);
    var moved := SetCtrl(s, c, SwitchCtrl(v));
    StepFrame(s, moved, c);
    var sent := moved.(net := s.net + SwitchMsgs(c, v));
    SendKeepsInv(moved, SwitchMsgs(c, v));
    if SwitchEnds(v) { CompletionKeepsInv(sent, c); }
  }

  lemma CountKeepsInv(s: System, c: Cid)
    requires Inv(s)
    ensures Inv(Step(s, CountVotes(c)))
  {
    var t := Step(s, CountVotes(c));
    if s.ctrl[c].phase == Awaiting { DecideIsJustified(s.n, c, s.ctrl[c], s.voted, s.adopted); }
    StepFrame(s, t.(promotions := s.promotions), c);
    if t.promotions != s.promotions {
      PromotionKeepsInv(t.(promotions := s.promotions), Promotion(c, Voters(s.ctrl[c].votes), s.ctrl[c].strays));
    }
  }

  /** Messages to a controller. */
  lemma CtrlReceiveKeepsInv(s: System, m: Msg)
    requires Inv(s) && m in s.net && (m.Heartbeat? || m.PeerTakeover? || m.PeerAck?)
    ensures Inv(Receive(s, m))
  {
    match m
    case Heartbeat(c) =>
      OwnerChange(s, c, OnHeartbeat(c, s.ctrl[c]));
      SendKeepsInv(SetCtrl(s, c, OnHeartbeat(c, s.ctrl[c])), {PeerTakeover(c)});
    case PeerTakeover(from) =>
      OwnerChange(s, 1 - from, s.ctrl[1 - from].(id := from));
      SendKeepsInv(SetCtrl(s, 1 - from, s.ctrl[1 - from].(id := from)), {PeerAck(from)});
    case PeerAck(c) => OwnerChange(s, c, OnPeerAck(c, s.ctrl[c]));
  }

  /** Who c takes for the primary does not touch its books. */
  lemma OwnerChange(s: System, c: Cid, v: Ctrl)
    requires Inv(s) && v == s.ctrl[c].(id := v.id, timeOut := v.timeOut, flag := v.flag)
    ensures Inv(SetCtrl(s, c, v))
  {
    StepFrame(s, SetCtrl(s, c, v), c);
  }

  lemma CountedKeepsInv(s: System, m: Msg)
    requires Inv(s) && m in s.net && (m.Vote? || m.Adoption?)
    ensures Inv(Receive(s, m))
  {
    match m
    case Vote(k, c) =>
      VoteKeepsBooks(s.n, c, s.ctrl[c], s.voted, s.adopted, k);
      StepFrame(s, SetCtrl(s, c, OnVote(c, s.ctrl[c], k)), c);
    case Adoption(k, c) =>
      AdoptionKeepsBooks(s.n, c, s.ctrl[c], s.voted, s.adopted, k);
      StepFrame(s, SetCtrl(s, c, OnAdoption(c, s.ctrl[c], k)), c);
  }

  /** Messages to a TokenGen. */
  lemma GenReceiveNet(s: System, m: Msg)
    requires Inv(s) && (m.ChangeRequest? || m.Takeover? || m.ShareOf?)
    ensures var t := Receive(s, m);
            && NetOk(t.net, t.voted, t.adopted) && s.voted <= t.voted && s.adopted <= t.adopted
            && t.n == s.n && t.ctrl == s.ctrl && t.promotions == s.promotions && t.completed == s.completed
  {
  }

  lemma GenReceiveKeepsInv(s: System, m: Msg)
    requires Inv(s) && m in s.net && (m.ChangeRequest? || m.Takeover? || m.ShareOf?)
    ensures Inv(Receive(s, m))
  {
    var t := Receive(s, m);
    GenReceiveNet(s, m);
    BooksMonotone(s.n, m.from, s.ctrl[m.from], s.voted, s.adopted, t.voted, t.adopted);
    StepFrame(s, t, m.from);
  }

  lemma SendKeepsInv(s: System, msgs: set<Msg>)
    requires Inv(s) && forall m :: m in msgs ==> !m.Vote? && !m.Adoption?
    ensures Inv(s.(net := s.net + msgs))
  {
    StepFrame(s, s.(net := s.net + msgs), 0);
  }

  lemma ReceiveKeepsInv(s: System, m: Msg)
    requires Inv(s) && m in s.net
    ensures Inv(Receive(s, m))
  {
    if m.ChangeRequest? || m.Takeover? || m.ShareOf? {
      GenReceiveKeepsInv(s, m);
    } else if m.Vote? || m.Adoption? {
      CountedKeepsInv(s, m);
    } else if !m.Refusal? {
      CtrlReceiveKeepsInv(s, m);
    }
  }

  /** A step of c that keeps its books, and messages that prove nothing. */
  lemma OwnStepKeepsInv(s: System, c: Cid, v: Ctrl, msgs: set<Msg>)
    requires Inv(s) && BooksOk(s.n, c, v, s.voted, s.adopted)
    requires forall m :: m in msgs ==> !m.Vote? && !m.Adoption?
    ensures Inv(SetCtrl(s, c, v).(net := s.net + msgs))
  {
    StepFrame(s, SetCtrl(s, c, v), c);
    SendKeepsInv(SetCtrl(s, c, v), msgs);
  }

  lemma GiveUpKeepsInv(s: System, c: Cid)
    requires Inv(s)
    ensures Inv(Step(s, LoseContact(c)))
  {
    GiveUpKeepsBooks(s.n, c, s.ctrl[c], s.voted, s.adopted);
    OwnStepKeepsInv(s, c, GiveUp(s.ctrl[c]), {});
    assert s.net + {} == s.net;
  }

  lemma ClearKeepsInv(s: System, c: Cid)
    requires Inv(s)
    ensures Inv(Step(s, Clear(c)))
  {
    ClearKeepsBooks(s.n, c, s.ctrl[c], s.voted, s.adopted);
    OwnStepKeepsInv(s, c, ClearVote(s.ctrl[c]), ClearMsgs(s.n, c, s.ctrl[c]));
  }

  lemma StepKeepsInv(s: System, e: Event)
    requires Inv(s)
    ensures Inv(Step(s, e))
  {
    match e
    case LoseContact(c) => GiveUpKeepsInv(s, c);
    case Clear(c) => ClearKeepsInv(s, c);
    case Abandon(c) => StepFrame(s, Step(s, e), c);
    case CountVotes(c) => CountKeepsInv(s, c);
    case Switch(c) => SwitchKeepsInv(s, c);
    case Beat(c) => SendKeepsInv(s, {Heartbeat(1 - c)});
    case SendShare(c, k, v) => SendKeepsInv(s, {ShareOf(c, k, v)});
    case GenLosesContact(_) => StepFrame(s, Step(s, e), 0);
    case Deliver(m) => if m in s.net { ReceiveKeepsInv(s, m); }
  }

  /** The invariant holds after every run. */
  lemma {:induction false} RunKeepsInv(id0: int, id1: int, ids: seq<int>, events: seq<Event>)
    ensures Inv(Run(Start(id0, id1, ids), events))
  {
    if events == [] {
      assert Voters(seq(|ids|, _ => false)[..|ids|]) == {};
    } else {
      RunKeepsInv(id0, id1, ids, events[..|events| - 1]);
      StepKeepsInv(Run(Start(id0, id1, ids), events[..|events| - 1]), events[|events| - 1]);
    }
  }

  // ----- what that means for a run -----

  /** At some point of the run, TokenGen k received a change request from c while it had no
      controller. */
  ghost predicate AskedWhileLost(s: System, events: seq<Event>, k: nat, c: Cid)
    requires |s.ctrl| == 2
  {
    exists j: nat :: j < |events| && LostAt(s, events, j, k, c)
  }

  ghost predicate LostAt(s: System, events: seq<Event>, j: nat, k: nat, c: Cid)
    requires |s.ctrl| == 2 && j < |events|
  {
    var before := Run(s, events[..j]);
    events[j] == Deliver(ChangeRequest(c, k)) && k < |before.gen| && before.gen[k].id == -1
  }

  lemma {:induction false} VotesWereAsked(s: System, events: seq<Event>, k: nat, c: Cid)
    requires |s.ctrl| == 2 && (k, c) in Run(s, events).voted && (k, c) !in s.voted
    ensures AskedWhileLost(s, events, k, c)
  {
    var n := |events| - 1;
    var init := events[..n];
    if (k, c) in Run(s, init).voted {
      VotesWereAsked(s, init, k, c);
      var j: nat :| j < |init| && LostAt(s, init, j, k, c);
      assert events[..j] == init[..j];
      assert LostAt(s, events, j, k, c);
    } else {
      assert LostAt(s, events, n, k, c);
    }
  }

  /** At some point of the run, TokenGen k had adopted c. */
  ghost predicate AdoptedAt(s: System, events: seq<Event>, k: nat, c: Cid)
    requires |s.ctrl| == 2
  {
    exists j: nat :: j <= |events| && UnderAt(s, events, j, k, c)
  }

  ghost predicate UnderAt(s: System, events: seq<Event>, j: nat, k: nat, c: Cid)
    requires |s.ctrl| == 2 && j <= |events|
  {
    var now := Run(s, events[..j]);
    k < |now.gen| && now.gen[k].id == c
  }

  lemma {:induction false} AdoptionsHappened(s: System, events: seq<Event>, k: nat, c: Cid)
    requires |s.ctrl| == 2 && (k, c) in Run(s, events).adopted && (k, c) !in s.adopted
    ensures AdoptedAt(s, events, k, c)
  {
    var n := |events| - 1;
    var init := events[..n];
    if (k, c) in Run(s, init).adopted {
      AdoptionsHappened(s, init, k, c);
      var j: nat :| j <= |init| && UnderAt(s, init, j, k, c);
      assert events[..j] == init[..j];
      assert UnderAt(s, events, j, k, c);
    } else {
      assert events[..|events|] == events;
      assert UnderAt(s, events, |events|, k, c);
    }
  }

  ghost predicate Promoted(s: System, c: Cid) {
    exists i :: 0 <= i < |s.promotions| && s.promotions[i].who == c
  }

  lemma OnlyCountingPromotes(s: System, e: Event, c: Cid)
    requires |s.ctrl| == 2 && s.ctrl[c].id != c && Step(s, e).ctrl[c].id == c
    ensures e == CountVotes(c) && Promoted(Step(s, e), c)
  {
    assert e == CountVotes(c);
    assert Step(s, e).promotions[|s.promotions|].who == c;
  }

  lemma PromotionsOnlyGrow(s: System, e: Event)
    requires |s.ctrl| == 2
    ensures s.promotions <= Step(s, e).promotions
  {
  }

  /** A controller that has become primary has a promotion on record. */
  lemma {:induction false} PrimaryWasPromoted(s: System, events: seq<Event>, c: Cid)
    requires |s.ctrl| == 2 && s.ctrl[c].id != c && Run(s, events).ctrl[c].id == c
    ensures Promoted(Run(s, events), c)
  {
    var n := |events| - 1;
    var before, e := Run(s, events[..n]), events[n];
    var after := Run(s, events);
    if before.ctrl[c].id == c {
      PrimaryWasPromoted(s, events[..n], c);
      PromotionsOnlyGrow(before, e);
      var i :| 0 <= i < |before.promotions| && before.promotions[i].who == c;
      assert after.promotions[i].who == c;
    } else {
      OnlyCountingPromotes(before, e, c);
    }
  }

  // ----- stray votes -----

  /** The event is a vote that c counts although its entry is still to be cleared. */
  predicate Stray(s: System, e: Event, c: Cid)
    requires |s.ctrl| == 2
  {
    && e.Deliver? && e.m in s.net && e.m.Vote? && e.m.to == c
    && Counts(c, s.ctrl[c], e.m.gen) && Uncleared(s.ctrl[c], e.m.gen)
  }

  predicate GivesUp(s: System, e: Event, c: Cid)
    requires |s.ctrl| == 2
  {
    e == LoseContact(c) && s.ctrl[c].phase == Idle && s.ctrl[c].id != c
  }

  /** The TokenGens with a stray vote since c last lost contact. */
  function StraysSince(s: System, events: seq<Event>, c: Cid): set<nat>
    requires |s.ctrl| == 2
  {
    if events == [] then {} else
      var init, e := events[..|events| - 1], events[|events| - 1];
      var before := Run(s, init);
      if GivesUp(before, e, c) then {}
      else StraysSince(s, init, c) + if Stray(before, e, c) then {e.m.gen} else {}
  }

  lemma StepCountsStrays(s: System, e: Event, c: Cid)
    requires |s.ctrl| == 2
    ensures Step(s, e).ctrl[c].strays ==
      if GivesUp(s, e, c) then {} else s.ctrl[c].strays + if Stray(s, e, c) then {e.m.gen} else {}
  {
  }

  lemma {:induction false} RunCountsStrays(s: System, events: seq<Event>, c: Cid)
    requires |s.ctrl| == 2 && s.ctrl[c].strays == {}
    ensures Run(s, events).ctrl[c].strays == StraysSince(s, events, c)
  {
    if events != [] {
      var init, e := events[..|events| - 1], events[|events| - 1];
      RunCountsStrays(s, init, c);
      StepCountsStrays(Run(s, init), e, c);
    }
  }

  // ----- which votes were counted -----

  /** The event is a vote of TokenGen k that c counts, before (`early`) or after the clearing
      loop of this attempt has passed its entry. */
  predicate Accepts(s: System, e: Event, c: Cid, k: nat, early: bool)
    requires |s.ctrl| == 2
  {
    e == Deliver(Vote(k, c)) && e.m in s.net && Counts(c, s.ctrl[c], k) && Uncleared(s.ctrl[c], k) == early
  }

  ghost predicate AcceptsAt(s: System, events: seq<Event>, j: nat, c: Cid, k: nat, early: bool)
    requires |s.ctrl| == 2 && j < |events|
  {
    Accepts(Run(s, events[..j]), events[j], c, k, early)
  }

  ghost predicate GivesUpAt(s: System, events: seq<Event>, j: nat, c: Cid)
    requires |s.ctrl| == 2 && j < |events|
  {
    GivesUp(Run(s, events[..j]), events[j], c)
  }

  /** Event j is such a vote, and c has not lost contact again since. */
  ghost predicate CountedAt(s: System, events: seq<Event>, j: nat, c: Cid, k: nat, early: bool)
    requires |s.ctrl| == 2 && j < |events|
  {
    AcceptsAt(s, events, j, c, k, early) && forall i :: j < i < |events| ==> !GivesUpAt(s, events, i, c)
  }

  ghost predicate Counted(s: System, events: seq<Event>, c: Cid, k: nat, early: bool)
    requires |s.ctrl| == 2
  {
    exists j :: 0 <= j < |events| && CountedAt(s, events, j, c, k, early)
  }

  lemma CountedAtLonger(s: System, init: seq<Event>, e: Event, j: nat, c: Cid, k: nat, early: bool)
    requires |s.ctrl| == 2 && j < |init|
    ensures CountedAt(s, init + [e], j, c, k, early) <==>
      CountedAt(s, init, j, c, k, early) && !GivesUp(Run(s, init), e, c)
  {
    var all := init + [e];
    forall i | 0 <= i < |init| ensures all[..i] == init[..i] { }
    assert all[..|init|] == init;
    assert GivesUpAt(s, all, |init|, c) <==> GivesUp(Run(s, init), e, c);
    forall i | j < i < |init| ensures GivesUpAt(s, all, i, c) <==> GivesUpAt(s, init, i, c) {
      assert all[..i] == init[..i];
    }
  }

  lemma CountedLonger(s: System, init: seq<Event>, e: Event, c: Cid, k: nat, early: bool)
    requires |s.ctrl| == 2
    ensures Counted(s, init + [e], c, k, early) <==>
      !GivesUp(Run(s, init), e, c) && (Counted(s, init, c, k, early) || Accepts(Run(s, init), e, c, k, early))
  {
    var all := init + [e];
    assert all[..|init|] == init;
    assert CountedAt(s, all, |init|, c, k, early) <==> Accepts(Run(s, init), e, c, k, early);
    forall j | 0 <= j < |init|
      ensures CountedAt(s, all, j, c, k, early) <==> CountedAt(s, init, j, c, k, early) && !GivesUp(Run(s, init), e, c)
    {
      CountedAtLonger(s, init, e, j, c, k, early);
    }
  }

  /** The TokenGens with an entry of this attempt. */
  function Entered(v: Ctrl): set<nat>
    requires Cleared(v) <= |v.votes|
  {
    Voters(v.votes[..Cleared(v)])
  }

  lemma VoteEnters(v: Ctrl, c: Cid, gen: nat)
    requires Cleared(v) <= |v.votes|
    ensures Cleared(OnVote(c, v, gen)) <= |OnVote(c, v, gen).votes|
    ensures Entered(OnVote(c, v, gen)) == Entered(v) + if Counts(c, v, gen) && !Uncleared(v, gen) then {gen} else {}
  {
  }

  lemma ClearEnters(v: Ctrl)
    requires Cleared(v) <= |v.votes|
    ensures Cleared(ClearVote(v)) <= |ClearVote(v).votes| && Entered(ClearVote(v)) == Entered(v)
  {
  }

  /** No other event touches the entries. */
  lemma OthersEnter(s: System, e: Event, c: Cid)
    requires |s.ctrl| == 2 && !GivesUp(s, e, c) && e != Clear(c)
    requires !(e.Deliver? && e.m in s.net && e.m.Vote? && e.m.to == c)
    ensures Step(s, e).ctrl[c].votes == s.ctrl[c].votes && Cleared(Step(s, e).ctrl[c]) == Cleared(s.ctrl[c])
  {
    if e.Deliver? && e.m in s.net { OtherMessagesEnter(s, e.m, c); }
  }

  lemma OtherMessagesEnter(s: System, m: Msg, c: Cid)
    requires |s.ctrl| == 2 && !(m.Vote? && m.to == c)
    ensures Receive(s, m).ctrl[c].votes == s.ctrl[c].votes && Cleared(Receive(s, m).ctrl[c]) == Cleared(s.ctrl[c])
  {
  }

  lemma StepEnters(s: System, e: Event, c: Cid, k: nat)
    requires |s.ctrl| == 2 && Cleared(s.ctrl[c]) <= |s.ctrl[c].votes|
    ensures Cleared(Step(s, e).ctrl[c]) <= |Step(s, e).ctrl[c].votes|
    ensures k in Entered(Step(s, e).ctrl[c]) <==>
      !GivesUp(s, e, c) && (k in Entered(s.ctrl[c]) || Accepts(s, e, c, k, false))
  {
    var v, v' := s.ctrl[c], Step(s, e).ctrl[c];
    if GivesUp(s, e, c) {
      assert v' == GiveUp(v);
    } else if e == Clear(c) {
      assert v' == ClearVote(v);
      ClearEnters(v);
    } else if e.Deliver? && e.m in s.net && e.m.Vote? && e.m.to == c {
      assert v' == OnVote(c, v, e.m.gen);
      VoteEnters(v, c, e.m.gen);
    } else {
      OthersEnter(s, e, c);
    }
  }

  /** After every run the entries and the strays are exactly the TokenGens whose vote c counted
      in this attempt, after and before their entry was cleared. */
  lemma {:induction false} CountedIs(s: System, events: seq<Event>, c: Cid, k: nat)
    requires |s.ctrl| == 2 && Cleared(s.ctrl[c]) <= |s.ctrl[c].votes| && Entered(s.ctrl[c]) == {}
    requires s.ctrl[c].strays == {}
    ensures Cleared(Run(s, events).ctrl[c]) <= |Run(s, events).ctrl[c].votes|
    ensures k in Entered(Run(s, events).ctrl[c]) <==> Counted(s, events, c, k, false)
    ensures k in Run(s, events).ctrl[c].strays <==> Counted(s, events, c, k, true)
  {
    if events != [] {
      var init, e := events[..|events| - 1], events[|events| - 1];
      assert events == init + [e];
      CountedIs(s, init, c, k);
      StepEnters(Run(s, init), e, c, k);
      StepCountsStrays(Run(s, init), e, c);
      CountedLonger(s, init, e, c, k, false);
      CountedLonger(s, init, e, c, k, true);
    }
  }

  /** The promotion was decided after d events, on exactly the votes counted in that attempt. */
  ghost predicate DecidedAt(s: System, events: seq<Event>, p: Promotion, d: nat)
    requires |s.ctrl| == 2 && d < |events|
  {
    && events[d] == CountVotes(p.who)
    && (forall k: nat :: k in p.voters <==> Counted(s, events[..d], p.who, k, false))
    && forall k: nat :: k in p.strays <==> Counted(s, events[..d], p.who, k, true)
  }

  /** So the TokenGens counted twice for a promotion are those whose vote was delivered both
      before and after their entry was cleared. */
  lemma {:induction false} PromotionCounts(id0: int, id1: int, ids: seq<int>, events: seq<Event>, i: nat)
    returns (d: nat)
    requires i < |Run(Start(id0, id1, ids), events).promotions|
    ensures d < |events| && DecidedAt(Start(id0, id1, ids), events, Run(Start(id0, id1, ids), events).promotions[i], d)
  {
    var s := Start(id0, id1, ids);
    var n := |events| - 1;
    var init, e := events[..n], events[n];
    PromotionsOnlyGrow(Run(s, init), e);
    if i < |Run(s, init).promotions| {
      d := PromotionCounts(id0, id1, ids, init, i);
      assert init[..d] == events[..d];
    } else {
      d := n;
      LastPromotion(id0, id1, ids, init, e);
    }
  }

  lemma LastPromotion(id0: int, id1: int, ids: seq<int>, init: seq<Event>, e: Event)
    requires Step(Run(Start(id0, id1, ids), init), e).promotions != Run(Start(id0, id1, ids), init).promotions
    ensures var s := Start(id0, id1, ids);
            var before, after := Run(s, init).promotions, Step(Run(s, init), e).promotions;
            |after| == |before| + 1 && DecidedAt(s, init + [e], after[|before|], |init|)
  {
    var s := Start(id0, id1, ids);
    var t, c := Run(s, init), e.c;
    var v := t.ctrl[c];
    assert e == CountVotes(c) && v.phase == Awaiting;
    assert v.votes[..|v.votes|] == v.votes && (init + [e])[..|init|] == init;
    assert Entered(s.ctrl[c]) == {};
    forall k: nat
      ensures k in Voters(v.votes) <==> Counted(s, init, c, k, false)
      ensures k in v.strays <==> Counted(s, init, c, k, true)
    {
      CountedIs(s, init, c, k);
    }
  }

  lemma CountIs(n: nat, c: Cid, v: Ctrl, voted: Pairs, adopted: Pairs)
    requires BooksOk(n, c, v, voted, adopted) && v.phase == Awaiting
    ensures v.votesRecv == |Voters(v.votes)| + |v.strays| && |v.votes| == n
    ensures |Voters(v.votes) + v.strays| == v.votesRecv - |Voters(v.votes) * v.strays|
  {
    assert v.votes[..|v.votes|] == v.votes;
  }

  /** What the decision of c does when these entries are set and these votes are stray. */
  ghost predicate DecidesOn(before: System, c: Cid, voters: set<nat>, strays: set<nat>)
    requires |before.ctrl| == 2
  {
    var after, need := Step(before, CountVotes(c)), before.n / 2 + 1;
    var promotes := after.ctrl[c].phase == Flagging(0);
    && (promotes <==> |voters| + |strays| >= need)
    && (promotes && |voters + strays| < need <==> |voters| + |strays| - |voters * strays| < need <= |voters| + |strays|)
    && after.promotions == before.promotions + if promotes then [Promotion(c, voters, strays)] else []
  }

  lemma CountingStep(s: System, c: Cid, wins: bool)
    requires |s.ctrl| == 2 && s.ctrl[c].phase == Awaiting
    requires wins == (s.ctrl[c].votesRecv >= Majority(|s.ctrl[c].votes|))
    ensures var t := Step(s, CountVotes(c));
            && t.ctrl[c].phase == (if wins then Flagging(0) else Idle)
            && t.promotions == s.promotions +
                 if wins then [Promotion(c, Voters(s.ctrl[c].votes), s.ctrl[c].strays)] else []
  {
    assert s.promotions + [] == s.promotions;
  }

  lemma DecisionIs(s: System, c: Cid)
    requires Inv(s) && s.ctrl[c].phase == Awaiting
    ensures DecidesOn(s, c, Voters(s.ctrl[c].votes), s.ctrl[c].strays)
  {
    CountIs(s.n, c, s.ctrl[c], s.voted, s.adopted);
    CountingStep(s, c, s.ctrl[c].votesRecv >= Majority(s.n));
  }

  /** When the wait for votes ends, c promotes itself exactly when the TokenGens whose entries
      are set and those with a stray vote, each counted for itself, reach a majority; it does so
      without a majority of the TokenGens exactly when those in both are what it takes. */
  lemma PromotesIff(id0: int, id1: int, ids: seq<int>, events: seq<Event>, c: Cid)
    requires Run(Start(id0, id1, ids), events).ctrl[c].phase == Awaiting
    ensures var before := Run(Start(id0, id1, ids), events);
            var strays := StraysSince(Start(id0, id1, ids), events, c);
            before.n == |ids| && DecidesOn(before, c, Voters(before.ctrl[c].votes), strays)
  {
    RunKeepsInv(id0, id1, ids, events);
    RunSize(Start(id0, id1, ids), events);
    RunCountsStrays(Start(id0, id1, ids), events, c);
    DecisionIs(Run(Start(id0, id1, ids), events), c);
  }

  /** A majority of the TokenGens, each asked by c while it had no controller. */
  ghost predicate Elected(s: System, events: seq<Event>, c: Cid, voters: set<nat>)
    requires |s.ctrl| == 2
  {
    && |voters| >= s.n / 2 + 1
    && forall k :: k in voters ==> k < s.n && AskedWhileLost(s, events, k, c)
  }

  /** The votes counted for a promotion still make a majority when no TokenGen counts twice. */
  predicate Enough(n: nat, p: Promotion) {
    |p.voters| + |p.strays| - |p.voters * p.strays| >= n / 2 + 1
  }

  /** Each promotion of a run is an election by its supporters exactly if it has enough votes
      without those counted twice; so it is one if none was. */
  lemma PromotionIsElection(id0: int, id1: int, ids: seq<int>, events: seq<Event>, i: nat)
    requires i < |Run(Start(id0, id1, ids), events).promotions|
    ensures var p := Run(Start(id0, id1, ids), events).promotions[i];
            && (Elected(Start(id0, id1, ids), events, p.who, Supporters(p)) <==> Enough(|ids|, p))
            && (p.voters * p.strays == {} ==> Enough(|ids|, p))
            && forall k :: k in Supporters(p) ==> k < |ids| && AskedWhileLost(Start(id0, id1, ids), events, k, p.who)
  {
    var s := Start(id0, id1, ids);
    var t := Run(s, events);
    RunKeepsInv(id0, id1, ids, events);
    RunSize(s, events);
    var p := t.promotions[i];
    assert Justified(t.n, t.voted, p);
    assert |Supporters(p)| == |p.voters| + |p.strays| - |p.voters * p.strays|;
    forall k | k in Supporters(p) ensures k < |ids| && AskedWhileLost(s, events, k, p.who) {
      VotesWereAsked(s, events, k, p.who);
    }
  }

  /** Safety of promotion: a controller that was not primary at the start and is primary now had
      a promotion, and unless TokenGens counted twice made the difference, a majority of the
      TokenGens were asked by it while they had lost their controller. */
  lemma PromotionNeedsMajority(id0: int, id1: int, ids: seq<int>, events: seq<Event>, c: Cid)
    requires Start(id0, id1, ids).ctrl[c].id != c && Run(Start(id0, id1, ids), events).ctrl[c].id == c
    ensures var promotions := Run(Start(id0, id1, ids), events).promotions;
            exists i :: 0 <= i < |promotions| && promotions[i].who == c &&
              (Elected(Start(id0, id1, ids), events, c, Supporters(promotions[i])) <==> Enough(|ids|, promotions[i]))
  {
    var s := Start(id0, id1, ids);
    var t := Run(s, events);
    PrimaryWasPromoted(s, events, c);
    var i :| 0 <= i < |t.promotions| && t.promotions[i].who == c;
    PromotionIsElection(id0, id1, ids, events, i);
  }

  lemma {:induction false} RunSize(s: System, events: seq<Event>)
    requires |s.ctrl| == 2
    ensures Run(s, events).n == s.n
  {
    if events != [] { RunSize(s, events[..|events| - 1]); }
  }

  /** Any two promotions with enough votes, by the same controller or not, share a supporter. */
  lemma PromotionsShareAVoter(id0: int, id1: int, ids: seq<int>, events: seq<Event>, i: nat, j: nat)
    requires i < |Run(Start(id0, id1, ids), events).promotions| && j < |Run(Start(id0, id1, ids), events).promotions|
    requires Enough(|ids|, Run(Start(id0, id1, ids), events).promotions[i])
    requires Enough(|ids|, Run(Start(id0, id1, ids), events).promotions[j])
    ensures var p := Run(Start(id0, id1, ids), events).promotions;
            Supporters(p[i]) * Supporters(p[j]) != {}
  {
    var t := Run(Start(id0, id1, ids), events);
    var a, b := Supporters(t.promotions[i]), Supporters(t.promotions[j]);
    PromotionIsElection(id0, id1, ids, events, i);
    PromotionIsElection(id0, id1, ids, events, j);
    RunSize(Start(id0, id1, ids), events);
    BoundedSet(a + b, |ids|);
    assert |a + b| == |a| + |b| - |a * b|;
  }

  // ----- who is primary -----

  /** Delivery of the other controller's takeover. */
  predicate TakenOver(s: System, e: Event, c: Cid) {
    e == Deliver(PeerTakeover(1 - c)) && e.m in s.net
  }

  /** Nothing else makes a primary step down. */
  lemma StepsDownIff(s: System, e: Event, c: Cid)
    requires |s.ctrl| == 2 && s.ctrl[c].id == c
    ensures Step(s, e).ctrl[c].id != c <==> TakenOver(s, e, c)
  {
  }

  /** The event is a decision of c with enough votes. */
  predicate Wins(s: System, e: Event, c: Cid)
    requires |s.ctrl| == 2
  {
    e == CountVotes(c) && s.ctrl[c].phase == Awaiting && s.ctrl[c].votesRecv >= Majority(|s.ctrl[c].votes|)
  }

  lemma BecomesPrimaryIff(s: System, e: Event, c: Cid)
    requires |s.ctrl| == 2
    ensures Step(s, e).ctrl[c].id == c <==> Wins(s, e, c) || (s.ctrl[c].id == c && !TakenOver(s, e, c))
  {
  }

  /** After j events c has just been promoted, or j is 0 and c started as primary. */
  ghost predicate MadePrimary(s: System, events: seq<Event>, j: nat, c: Cid)
    requires |s.ctrl| == 2 && j <= |events|
  {
    if j == 0 then s.ctrl[c].id == c else Wins(Run(s, events[..j - 1]), events[j - 1], c)
  }

  ghost predicate TakenOverAt(s: System, events: seq<Event>, i: nat, c: Cid)
    requires |s.ctrl| == 2 && i < |events|
  {
    TakenOver(Run(s, events[..i]), events[i], c)
  }

  /** c was made primary after j events and no takeover of its peer was delivered to it since. */
  ghost predicate PrimarySince(s: System, events: seq<Event>, j: nat, c: Cid)
    requires |s.ctrl| == 2 && j <= |events|
  {
    MadePrimary(s, events, j, c) && forall i :: j <= i < |events| ==> !TakenOverAt(s, events, i, c)
  }

  lemma EarlierTakeover(s: System, init: seq<Event>, e: Event, i: nat, c: Cid)
    requires |s.ctrl| == 2 && i < |init|
    ensures TakenOverAt(s, init + [e], i, c) <==> TakenOverAt(s, init, i, c)
  {
    assert (init + [e])[..i] == init[..i];
  }

  lemma EarlierMade(s: System, init: seq<Event>, e: Event, j: nat, c: Cid)
    requires |s.ctrl| == 2 && j <= |init|
    ensures MadePrimary(s, init + [e], j, c) <==> MadePrimary(s, init, j, c)
  {
    if j > 0 { assert (init + [e])[..j - 1] == init[..j - 1]; }
  }

  lemma LastTakeover(s: System, init: seq<Event>, e: Event, c: Cid)
    requires |s.ctrl| == 2
    ensures TakenOverAt(s, init + [e], |init|, c) <==> TakenOver(Run(s, init), e, c)
  {
    assert (init + [e])[..|init|] == init;
  }

  lemma PrimarySinceLonger(s: System, init: seq<Event>, e: Event, j: nat, c: Cid)
    requires |s.ctrl| == 2 && j <= |init|
    ensures PrimarySince(s, init + [e], j, c) <==> PrimarySince(s, init, j, c) && !TakenOver(Run(s, init), e, c)
  {
    EarlierMade(s, init, e, j, c);
    LastTakeover(s, init, e, c);
    forall i | j <= i < |init| ensures TakenOverAt(s, init + [e], i, c) <==> TakenOverAt(s, init, i, c) {
      EarlierTakeover(s, init, e, i, c);
    }
  }

  lemma MadeLast(s: System, init: seq<Event>, e: Event, c: Cid)
    requires |s.ctrl| == 2
    ensures PrimarySince(s, init + [e], |init| + 1, c) <==> Wins(Run(s, init), e, c)
  {
    assert (init + [e])[..|init|] == init;
  }

  /** After every run: c is primary exactly if it was once made primary and has received no
      takeover of its peer since. */
  lemma {:induction false} PrimaryIff(s: System, events: seq<Event>, c: Cid)
    requires |s.ctrl| == 2
    ensures Run(s, events).ctrl[c].id == c <==> exists j :: 0 <= j <= |events| && PrimarySince(s, events, j, c)
  {
    if events == [] {
      assert PrimarySince(s, events, 0, c) <==> s.ctrl[c].id == c;
    } else {
      var n := |events| - 1;
      var init, e := events[..n], events[n];
      assert init + [e] == events;
      PrimaryIff(s, init, c);
      BecomesPrimaryIff(Run(s, init), e, c);
      MadeLast(s, init, e, c);
      forall j | 0 <= j <= n
        ensures PrimarySince(s, events, j, c) <==> PrimarySince(s, init, j, c) && !TakenOver(Run(s, init), e, c)
      {
        PrimarySinceLonger(s, init, e, j, c);
      }
    }
  }

  /** Two primaries at once, exactly: each was made primary and has not received the takeover
      of the other since. */
  lemma TwoPrimariesIff(s: System, events: seq<Event>)
    requires |s.ctrl| == 2
    ensures Run(s, events).ctrl[0].id == 0 && Run(s, events).ctrl[1].id == 1 <==>
      exists i, j :: 0 <= i <= |events| && 0 <= j <= |events| && PrimarySince(s, events, i, 0) &&
        PrimarySince(s, events, j, 1)
  {
    PrimaryIff(s, events, 0);
    PrimaryIff(s, events, 1);
  }

  /** switch_controller ends only after every TokenGen had adopted the new controller. */
  lemma SwitchEndsWhenAllAdopted(id0: int, id1: int, ids: seq<int>, events: seq<Event>, i: nat, k: nat)
    requires i < |Run(Start(id0, id1, ids), events).completed| && k < |ids|
    ensures AdoptedAt(Start(id0, id1, ids), events, k, Run(Start(id0, id1, ids), events).completed[i])
  {
    var s := Start(id0, id1, ids);
    RunKeepsInv(id0, id1, ids, events);
    RunSize(s, events);
    var t := Run(s, events);
    assert AllAdopted(t, t.completed[i]);
    AdoptionsHappened(s, events, k, t.completed[i]);
  }

  lemma Then(s0: System, events: seq<Event>, e: Event) returns (r: seq<Event>)
    requires |s0.ctrl| == 2
    ensures r == events + [e] && Run(s0, r) == Step(Run(s0, events), e)
  {
    r := events + [e];
    assert r[..|events|] == events;
  }

  /** The controller after the clearing loop has run to its end. */
  function Emptied(v: Ctrl): Ctrl
    requires v.phase.Clearing? && v.phase.next <= |v.votes|
  {
    v.(votes := v.votes[..v.phase.next] + seq(|v.votes| - v.phase.next, _ => false), phase := Awaiting)
  }

  lemma ClearTurn(v: Ctrl)
    requires v.phase.Clearing? && v.phase.next <= |v.votes|
    ensures if v.phase.next < |v.votes|
            then ClearVote(v).phase == Clearing(v.phase.next + 1) && |ClearVote(v).votes| == |v.votes| &&
              Emptied(ClearVote(v)) == Emptied(v)
            else ClearVote(v) == Emptied(v)
  {
    var j := v.phase.next;
    if j < |v.votes| {
      assert v.votes[j := false][..j + 1] == v.votes[..j] + [false];
      assert (v.votes[..j] + [false]) + seq(|v.votes| - j - 1, _ => false) ==
        v.votes[..j] + seq(|v.votes| - j, _ => false);
    } else {
      assert v.votes[..|v.votes|] + seq(0, _ => false) == v.votes;
    }
  }

  lemma {:induction false} ClearAll(s0: System, events: seq<Event>, s: System, c: Cid) returns (r: seq<Event>)
    requires |s0.ctrl| == 2 && Run(s0, events) == s && s.ctrl[c].phase.Clearing?
    requires s.ctrl[c].phase.next <= |s.ctrl[c].votes|
    ensures Run(s0, r) == SetCtrl(s, c, Emptied(s.ctrl[c])).(net := s.net + Requests(s.n, c))
    decreases |s.ctrl[c].votes| - s.ctrl[c].phase.next
  {
    var v := s.ctrl[c];
    ClearTurn(v);
    r := Then(s0, events, Clear(c));
    if v.phase.next < |v.votes| {
      var t := Step(s, Clear(c));
      assert t == SetCtrl(s, c, ClearVote(v)) by { assert s.net + {} == s.net; }
      r := ClearAll(s0, r, t, c);
      assert s.ctrl[c := ClearVote(v)][c := Emptied(v)] == s.ctrl[c := Emptied(v)];
    }
  }

  /** c asks for votes and TokenGen k, which has lost contact, casts one; nothing is counted. */
  lemma AskForVote(s0: System, events: seq<Event>, s: System, c: Cid, k: nat) returns (r: seq<Event>)
    requires |s0.ctrl| == 2 && Run(s0, events) == s && s.ctrl[c].phase.Clearing? && s.ctrl[c].phase.next == 0
    requires k < |s.gen| && k < s.n && s.gen[k].id == -1 && s.ctrl[c].id == -1
    ensures var t := Run(s0, r);
            && t.ctrl[c] == s.ctrl[c].(votes := seq(|s.ctrl[c].votes|, _ => false), phase := Awaiting)
            && t.ctrl[1 - c] == s.ctrl[1 - c] && t.gen == s.gen && t.n == s.n && Vote(k, c) in t.net
            && t.promotions == s.promotions
  {
    r := ClearAll(s0, events, s, c);
    assert [] + seq(|s.ctrl[c].votes|, _ => false) == seq(|s.ctrl[c].votes|, _ => false);
    assert ChangeRequest(c, k) in Run(s0, r).net;
    r := Then(s0, r, Deliver(ChangeRequest(c, k)));
  }

  /** The votes do not make the primary unique: an old primary that is only cut off stays
      primary beside the new one. */
  lemma TwoPrimariesArePossible()
    ensures exists events :: var t := Run(Start(0, 0, [0]), events); t.ctrl[0].id == 0 && t.ctrl[1].id == 1
  {
    var s0 := Start(0, 0, [0]);
    var r := Then(s0, [], GenLosesContact(0));
    r := Then(s0, r, LoseContact(1));
    r := AskForVote(s0, r, Run(s0, r), 1, 0);
    r := Then(s0, r, Deliver(Vote(0, 1)));
    r := Then(s0, r, CountVotes(1));
  }

  /** A vote of an earlier attempt that arrives during the clearing loop is counted twice: one
      TokenGen out of two is then enough for a promotion, and their majority is two. */
  lemma OneTokenGenCanPromote()
    ensures exists events :: var t := Run(Start(0, 0, [0, 0]), events);
      t.ctrl[1].id == 1 && |t.promotions| == 1 && Supporters(t.promotions[0]) == {0} && Majority(t.n) == 2
  {
    var s0 := Start(0, 0, [0, 0]);
    var r := Then(s0, [], GenLosesContact(0));
    r := Then(s0, r, LoseContact(1));
    r := AskForVote(s0, r, Run(s0, r), 1, 0);
    r := Then(s0, r, CountVotes(1));
    r := Then(s0, r, LoseContact(1));
    r := CountTwice(s0, r, Run(s0, r));
  }

  lemma CountTwice(s0: System, events: seq<Event>, s: System) returns (r: seq<Event>)
    requires |s0.ctrl| == 2 && Run(s0, events) == s && s.n == 2 && |s.gen| == 2 && s.gen[0].id == -1
    requires s.ctrl[1].id == -1 && s.ctrl[1].votes == [false, false] && s.ctrl[1].votesRecv == 0
    requires s.ctrl[1].strays == {} && s.ctrl[1].phase == Clearing(0) && Vote(0, 1) in s.net && s.promotions == []
    ensures var t := Run(s0, r);
            t.ctrl[1].id == 1 && t.n == 2 && |t.promotions| == 1 && Supporters(t.promotions[0]) == {0}
  {
    r := Then(s0, events, Deliver(Vote(0, 1)));
    r := AskForVote(s0, r, Run(s0, r), 1, 0);
    r := CountAgain(s0, r, Run(s0, r));
  }

  lemma CountAgain(s0: System, events: seq<Event>, s: System) returns (r: seq<Event>)
    requires |s0.ctrl| == 2 && Run(s0, events) == s && s.n == 2 && s.promotions == [] && Vote(0, 1) in s.net
    requires s.ctrl[1].id == -1 && s.ctrl[1].phase == Awaiting && s.ctrl[1].strays == {0}
    requires s.ctrl[1].votesRecv == 1 && s.ctrl[1].votes == seq(2, _ => false)
    ensures var t := Run(s0, r);
            t.ctrl[1].id == 1 && t.n == 2 && |t.promotions| == 1 && Supporters(t.promotions[0]) == {0}
  {
    r := Then(s0, events, Deliver(Vote(0, 1)));
    var votes := Run(s0, r).ctrl[1].votes;
    assert votes == [true, false];
    assert Voters(votes) == {0};
    r := Then(s0, r, CountVotes(1));
  }

  /** Event j of the run is one by which c ends its wait for votes. */
  ghost predicate EndsWaitAt(events: seq<Event>, j: nat, c: Cid)
    requires j < |events|
  {
    events[j] == Abandon(c) || events[j] == CountVotes(c)
  }

  /** c has heard from its peer while it waits for votes. */
  predicate Reassured(s: System, c: Cid)
    requires |s.ctrl| == 2
  {
    s.ctrl[c].phase == Awaiting && s.ctrl[c].timeOut == 2 && s.ctrl[c].id == 1 - c
  }

  /** No promotion of c since the first n. */
  ghost predicate NotPromotedSince(s: System, n: nat, c: Cid) {
    n <= |s.promotions| && forall i :: n <= i < |s.promotions| ==> s.promotions[i].who != c
  }

  lemma ReassuredStep(s: System, e: Event, n: nat, c: Cid)
    requires |s.ctrl| == 2 && Reassured(s, c) && NotPromotedSince(s, n, c) && e != Abandon(c) && e != CountVotes(c)
    ensures Reassured(Step(s, e), c) && NotPromotedSince(Step(s, e), n, c)
  {
  }

  lemma {:induction false} StaysReassured(s: System, events: seq<Event>, c: Cid)
    requires |s.ctrl| == 2 && Reassured(s, c) && forall j :: 0 <= j < |events| ==> !EndsWaitAt(events, j, c)
    ensures Reassured(Run(s, events), c) && NotPromotedSince(Run(s, events), |s.promotions|, c)
  {
    if events != [] {
      var n := |events| - 1;
      forall j | 0 <= j < n ensures !EndsWaitAt(events[..n], j, c) { assert !EndsWaitAt(events, j, c); }
      StaysReassured(s, events[..n], c);
      assert !EndsWaitAt(events, n, c);
      ReassuredStep(Run(s, events[..n]), events[n], |s.promotions|, c);
    }
  }

  /** A heartbeat that arrives during the wait for votes puts the backup under its peer again.
      Whatever happens until the loop looks, it then ends the attempt, without a promotion and
      whatever votes have been counted. */
  lemma HeartbeatEndsAttempt(s: System, events: seq<Event>, c: Cid)
    requires |s.ctrl| == 2 && Heartbeat(c) in s.net
    requires s.ctrl[c].phase == Awaiting && s.ctrl[c].timeOut == 1 && s.ctrl[c].id != c
    requires forall j :: 0 <= j < |events| ==> !EndsWaitAt(events, j, c)
    ensures AttemptOver(Step(Run(Step(s, Deliver(Heartbeat(c))), events), Abandon(c)), |s.promotions|, c)
  {
    Reassures(s, c);
    StaysReassured(Step(s, Deliver(Heartbeat(c))), events, c);
    LooksAtLast(Run(Step(s, Deliver(Heartbeat(c))), events), |s.promotions|, c);
  }

  /** c is an idle backup again and has not been promoted. */
  ghost predicate AttemptOver(s: System, n: nat, c: Cid)
    requires |s.ctrl| == 2
  {
    s.ctrl[c].id == 1 - c && s.ctrl[c].timeOut == 0 && s.ctrl[c].phase == Idle && NotPromotedSince(s, n, c)
  }

  lemma Reassures(s: System, c: Cid)
    requires |s.ctrl| == 2 && Heartbeat(c) in s.net
    requires s.ctrl[c].phase == Awaiting && s.ctrl[c].timeOut == 1 && s.ctrl[c].id != c
    ensures var t := Step(s, Deliver(Heartbeat(c))); Reassured(t, c) && t.promotions == s.promotions
  {
  }

  lemma LooksAtLast(s: System, n: nat, c: Cid)
    requires |s.ctrl| == 2 && Reassured(s, c) && NotPromotedSince(s, n, c)
    ensures AttemptOver(Step(s, Abandon(c)), n, c)
  {
  }

  // ----- TokenGens without a controller -----

  predicate Lost(s: System, k: nat) { k < |s.gen| && s.gen[k].id == -1 }

  /** A TokenGen that does not remember a controller either. */
  predicate Orphan(s: System, k: nat) { Lost(s, k) && s.gen[k].prevId == -1 }

  predicate AdoptedBy(s: System, e: Event, k: nat) {
    e.Deliver? && e.m in s.net && e.m.Takeover? && e.m.gen == k
  }

  /** Only a takeover changes an orphan. */
  lemma OrphanStep(s: System, e: Event, k: nat)
    requires |s.ctrl| == 2 && Orphan(s, k)
    ensures if AdoptedBy(s, e, k) then !Lost(Step(s, e), k) else Orphan(Step(s, e), k)
  {
  }

  ghost predicate AdoptedByAt(s: System, events: seq<Event>, j: nat, k: nat)
    requires |s.ctrl| == 2 && j < |events|
  {
    AdoptedBy(Run(s, events[..j]), events[j], k)
  }

  lemma {:induction false} OrphanUntilTakeover(s: System, events: seq<Event>, k: nat)
    requires |s.ctrl| == 2 && Orphan(s, k) && forall j :: 0 <= j < |events| ==> !AdoptedByAt(s, events, j, k)
    ensures Orphan(Run(s, events), k)
  {
    if events != [] {
      var n := |events| - 1;
      var init := events[..n];
      forall j | 0 <= j < n ensures !AdoptedByAt(s, init, j, k) {
        assert init[..j] == events[..j] && !AdoptedByAt(s, events, j, k);
      }
      OrphanUntilTakeover(s, init, k);
      assert !AdoptedByAt(s, events, n, k);
      OrphanStep(Run(s, init), events[n], k);
    }
  }

  ghost predicate LostAfter(s: System, events: seq<Event>, j: nat, k: nat)
    requires |s.ctrl| == 2 && j <= |events|
  {
    Lost(Run(s, events[..j]), k)
  }

  /** A TokenGen whose timer fires while it has no controller stays without one, whatever share
      messages and whatever else it receives, exactly until a takeover is delivered to it. */
  lemma SecondTimeoutOrphans(s: System, events: seq<Event>, k: nat)
    requires |s.ctrl| == 2 && Lost(s, k)
    ensures var t := Step(s, GenLosesContact(k));
            (forall j :: 0 <= j <= |events| ==> LostAfter(t, events, j, k)) <==>
            forall j :: 0 <= j < |events| ==> !AdoptedByAt(t, events, j, k)
  {
    var t := Step(s, GenLosesContact(k));
    if forall j :: 0 <= j < |events| ==> !AdoptedByAt(t, events, j, k) {
      forall j | 0 <= j <= |events| ensures LostAfter(t, events, j, k) { OrphanBefore(t, events, j, k); }
    } else {
      var j := FirstTakeover(t, events, k, |events|);
      OrphanBefore(t, events, j, k);
      OrphanStep(Run(t, events[..j]), events[j], k);
      assert events[..j + 1][..j] == events[..j];
      assert !LostAfter(t, events, j + 1, k);
    }
  }

  lemma OrphanBefore(s: System, events: seq<Event>, j: nat, k: nat)
    requires |s.ctrl| == 2 && Orphan(s, k) && j <= |events|
    requires forall i :: 0 <= i < j ==> !AdoptedByAt(s, events, i, k)
    ensures Orphan(Run(s, events[..j]), k)
  {
    forall i | 0 <= i < j ensures !AdoptedByAt(s, events[..j], i, k) {
      assert events[..j][..i] == events[..i] && !AdoptedByAt(s, events, i, k);
    }
    OrphanUntilTakeover(s, events[..j], k);
  }

  lemma FirstTakeover(s: System, events: seq<Event>, k: nat, n: nat) returns (j: nat)
    requires |s.ctrl| == 2 && n <= |events| && exists i :: 0 <= i < n && AdoptedByAt(s, events, i, k)
    ensures j < |events| && AdoptedByAt(s, events, j, k) && forall i :: 0 <= i < j ==> !AdoptedByAt(s, events, i, k)
  {
    if i :| 0 <= i < n - 1 && AdoptedByAt(s, events, i, k) {
      j := FirstTakeover(s, events, k, n - 1);
    } else {
      j := n - 1;
    }
  }

  /** After one timeout the next share message of its controller brings a TokenGen back. */
  lemma ShareBringsBack(g: Gen, from: Cid, share: int)
    requires g.id == 0 || g.id == 1
    ensures OnShare(GenTimeout(g), from, share).id == (if from == g.id then g.id else -1)
  {
  }
}
