/**
 * The cache of conditional blocks (configfile-glue.c, configfile.c): results are stored,
 * and a block found to apply marks the rest of its else-chain as not applying.  Queries and
 * the stages of a request are functions on the cache; what they answer is compared with the
 * uncached meaning over all runs.
 */
module CondCache {
  import opened Options
  import opened CondMeaning

  // ----- the cache -----

  /** At most one block of a chain is cached as applying: all later ones are ruled out. */
  ghost predicate RuledOut(t: seq<Config>, c: seq<Cond>)
    requires WellFormed(t) && |c| == |t|
  {
    forall j, i :: 0 <= j < |t| && 0 <= i < |t| && c[j] == TRUE && Before(t, j, i) ==> c[i] == FALSE
  }

  /** What an entry says about the meaning when inputs may have become known since. */
  ghost predicate Sound(w: World, i: nat, r: Cond)
    requires WellFormed(w.t) && i < |w.t|
  {
    && (r == FALSE ==> Meaning(w, i) == FALSE)
    && (r == TRUE ==> Meaning(w, i) != UNSET && w.t[i].comp in w.valid && w.test(i))
  }

  ghost predicate SoundCache(w: World, c: seq<Cond>)
    requires WellFormed(w.t) && |c| == |w.t|
  {
    forall i :: 0 <= i < |c| ==> Sound(w, i, c[i])
  }

  /** Below a block that does not apply. */
  ghost predicate Blocked(w: World, i: nat)
    requires WellFormed(w.t) && i < |w.t|
  {
    w.t[i].parent != 0 && Meaning(w, w.t[i].parent) == FALSE
  }

  /** Where config_patch_connection stands: `comp` became known last, and of the blocks that
      test it only those before n have been asked since; `firm` if whatever encloses a cached
      TRUE applies. */
  datatype Stage = Stage(comp: nat, n: nat, firm: bool)

  /** Between two stages. */
  function Settled(t: seq<Config>, firm: bool): Stage { Stage(0, |t|, firm) }

  /** The input of block q is known, and q is not one of those still to be asked. */
  predicate Due(w: World, q: nat, at: Stage) {
    q < |w.t| && w.t[q].comp in w.valid && (w.t[q].comp == at.comp ==> q < at.n)
  }

  /** A decided block has had the blocks before it decided, unless none of them matters. */
  ghost predicate CaughtUp(w: World, c: seq<Cond>, at: Stage)
    requires WellFormed(w.t) && |c| == |w.t|
  {
    forall q, p | 0 <= q < |c| && 0 <= p < |c| ::
      Before(w.t, q, p) && c[p] != UNSET && Due(w, q, at) && !Blocked(w, p) ==> c[q] != UNSET
  }

  ghost predicate FirmCache(w: World, c: seq<Cond>)
    requires WellFormed(w.t) && |c| == |w.t|
  {
    forall k :: 0 <= k < |c| && c[k] == TRUE ==> ParentTrue(w, k)
  }

  ghost predicate Consistent(w: World, c: seq<Cond>, at: Stage)
    requires WellFormed(w.t) && |c| == |w.t|
  {
    RuledOut(w.t, c) && SoundCache(w, c) && CaughtUp(w, c, at) && (at.firm ==> FirmCache(w, c))
  }

  /** A right answer, or one below a block that does not apply. */
  ghost predicate Right(w: World, i: nat, r: Cond, firm: bool)
    requires WellFormed(w.t) && i < |w.t|
  {
    r == Meaning(w, i) || (!firm && Blocked(w, i))
  }

  /** All blocks before i whose input is known have been decided. */
  ghost predicate EarlierAsked(w: World, c: seq<Cond>, i: nat)
    requires WellFormed(w.t) && |c| == |w.t| && i < |w.t|
  {
    forall q :: 0 <= q < |c| && Before(w.t, q, i) && w.t[q].comp in w.valid ==> c[q] != UNSET
  }

  /** What a query leaves behind. */
  ghost predicate Answered(w: World, c: seq<Cond>, i: nat, r: Cond, firm: bool)
    requires WellFormed(w.t) && |c| == |w.t| && i < |w.t|
  {
    Sound(w, i, r) && Right(w, i, r, firm) && (ParentTrue(w, i) ==> EarlierAsked(w, c, i))
  }

  /** Then an applying block anywhere before i has left its mark. */
  lemma EarlierTrueIsMarked(w: World, c: seq<Cond>, i: nat)
    requires WellFormed(w.t) && |c| == |w.t| && i < |w.t| && RuledOut(w.t, c) && SoundCache(w, c)
    requires EarlierTrue(w, i) && EarlierAsked(w, c, i)
    ensures c[i] == FALSE
  {
    var j := FindEarlierTrue(w, i);
    assert Sound(w, j, c[j]) && c[j] != UNSET;
  }

  /** A decided entry that the stage has come to is right. */
  lemma CachedIsRight(w: World, c: seq<Cond>, i: nat, at: Stage)
    requires WellFormed(w.t) && |c| == |w.t| && i < |c| && Consistent(w, c, at) && i <= at.n && c[i] != UNSET
    ensures Answered(w, c, i, c[i], at.firm)
  {
    assert Sound(w, i, c[i]);
    if ParentTrue(w, i) {
      forall q | 0 <= q < |c| && Before(w.t, q, i) && w.t[q].comp in w.valid ensures c[q] != UNSET {
        BeforeFacts(w.t, q, i);
        assert Due(w, q, at);
      }
      if EarlierTrue(w, i) { EarlierTrueIsMarked(w, c, i); }
    }
  }

  /** The cache after block i was found to be r: one that applies rules out the rest of its chain. */
  ghost function Store(t: seq<Config>, c: seq<Cond>, i: nat, r: Cond): (c': seq<Cond>)
    requires WellFormed(t) && |c| == |t| && i < |t|
    ensures |c'| == |c|
  {
    seq(|c|, k requires 0 <= k < |c| => if k == i then r else if r == TRUE && Before(t, i, k) then FALSE else c[k])
  }

  /** What must hold just before the result of block i is stored. */
  ghost predicate Ready(w: World, c: seq<Cond>, i: nat, r: Cond, at: Stage)
    requires WellFormed(w.t) && |c| == |w.t| && i < |w.t|
  {
    Consistent(w, c, at) && Answered(w, c, i, r, at.firm) && (c[i] == UNSET || (c[i] == FALSE && r == FALSE))
  }

  lemma StoreRuledOut(w: World, c: seq<Cond>, c': seq<Cond>, i: nat, r: Cond, at: Stage)
    requires WellFormed(w.t) && |c| == |c'| == |w.t| && i < |w.t|
    requires Ready(w, c, i, r, at) && c' == Store(w.t, c, i, r)
    ensures RuledOut(w.t, c')
  {
    forall j, k | 0 <= j < |c| && 0 <= k < |c| && c'[j] == TRUE && Before(w.t, j, k) ensures c'[k] == FALSE {
      BeforeFacts(w.t, j, k);
      if j != i {
        assert c[j] == TRUE && c[k] == FALSE;
      }
    }
  }

  /** A block that applies, or is ruled out itself, rules out the rest of its chain. */
  lemma LaterIsFalse(w: World, i: nat, k: nat)
    requires WellFormed(w.t) && i < |w.t| && k < |w.t| && Before(w.t, i, k)
    requires Meaning(w, i) != UNSET && w.t[i].comp in w.valid && w.test(i)
    ensures Meaning(w, k) == FALSE
  {
    BeforeFacts(w.t, i, k);
    if EarlierTrue(w, i) {
      var j := FindEarlierTrue(w, i);
      BeforeTransitive(w.t, j, i, k);
      BeforeIsEarlier(w, j, k);
    } else if Meaning(w, i) == TRUE {
      BeforeIsEarlier(w, i, k);
    }
  }

  lemma StoreSound(w: World, c: seq<Cond>, c': seq<Cond>, i: nat, r: Cond, at: Stage)
    requires WellFormed(w.t) && |c| == |c'| == |w.t| && i < |w.t|
    requires Ready(w, c, i, r, at) && c' == Store(w.t, c, i, r)
    ensures SoundCache(w, c')
  {
    forall k | 0 <= k < |c'| ensures Sound(w, k, c'[k]) {
      assert Sound(w, k, c[k]);
      if k != i && r == TRUE && Before(w.t, i, k) { LaterIsFalse(w, i, k); }
    }
  }

  /** Two applying blocks of one chain are the same block. */
  lemma OneTruePerChain(w: World, i: nat, j: nat, k: nat)
    requires WellFormed(w.t) && i < |w.t| && j < |w.t| && k < |w.t|
    requires Meaning(w, i) == TRUE && Meaning(w, j) == TRUE
    ensures !Before(w.t, i, j) && !Before(w.t, j, i)
    ensures Before(w.t, i, k) && Before(w.t, j, k) ==> i == j
  {
    if Before(w.t, i, k) && Before(w.t, j, k) { BeforeTotal(w.t, i, j, k); }
    if Before(w.t, i, j) {
      BeforeFacts(w.t, i, j);
      BeforeIsEarlier(w, i, j);
      assert false;
    }
    if Before(w.t, j, i) {
      BeforeFacts(w.t, j, i);
      BeforeIsEarlier(w, j, i);
      assert false;
    }
  }

  /** A decided block is blocked or its parent applies. */
  lemma DecidedBelow(w: World, i: nat, r: Cond)
    requires WellFormed(w.t) && i < |w.t| && Sound(w, i, r) && r != UNSET
    ensures Blocked(w, i) || ParentTrue(w, i)
  {
  }

  /** The blocks before p that a store leaves undecided do not matter. */
  lemma StoreCaughtUpAt(w: World, c: seq<Cond>, c': seq<Cond>, i: nat, r: Cond, at: Stage, q: nat, p: nat)
    requires WellFormed(w.t) && |c| == |c'| == |w.t| && i < |w.t|
    requires Ready(w, c, i, r, at) && c' == Store(w.t, c, i, r)
    requires q < |c| && p < |c| && Before(w.t, q, p) && c'[p] != UNSET && Due(w, q, at) && !Blocked(w, p)
    ensures c'[q] != UNSET
  {
    BeforeFacts(w.t, q, p);
    if c[p] == UNSET {
      DecidedBelow(w, i, r);
      if p != i {
        BeforeFacts(w.t, i, p);
        BeforeTotal(w.t, q, i, p);
      }
    }
  }

  lemma StoreConsistent(w: World, c: seq<Cond>, c': seq<Cond>, i: nat, r: Cond, at: Stage)
    requires WellFormed(w.t) && |c| == |c'| == |w.t| && i < |w.t|
    requires Ready(w, c, i, r, at) && c' == Store(w.t, c, i, r)
    ensures Consistent(w, c', at) && Answered(w, c', i, r, at.firm)
  {
    StoreRuledOut(w, c, c', i, r, at);
    StoreSound(w, c, c', i, r, at);
    forall q, p | 0 <= q < |c| && 0 <= p < |c| && Before(w.t, q, p) && c'[p] != UNSET && Due(w, q, at) && !Blocked(w, p)
      ensures c'[q] != UNSET
    {
      StoreCaughtUpAt(w, c, c', i, r, at, q, p);
    }
    if at.firm {
      forall k | 0 <= k < |c'| && c'[k] == TRUE ensures ParentTrue(w, k) { assert k != i ==> c[k] == TRUE; }
    }
    forall q | 0 <= q < |c| && Before(w.t, q, i) ensures c'[q] == c[q] || c'[q] == FALSE { BeforeFacts(w.t, q, i); }
  }

  /** Ready to return the result of an undecided or failed parent. */
  lemma ReadyFromParent(w: World, c: seq<Cond>, i: nat, r: Cond, at: Stage)
    requires WellFormed(w.t) && |c| == |w.t| && i < |w.t| && Consistent(w, c, at) && c[i] == UNSET
    requires w.t[i].parent != 0 && Answered(w, c, w.t[i].parent, r, at.firm) && r != TRUE
    ensures Ready(w, c, i, r, at)
  {
  }

  /** Ready to return what the block itself says, or the mark it has been given. */
  lemma ReadyFromSelf(w: World, c: seq<Cond>, i: nat, r: Cond, at: Stage)
    requires WellFormed(w.t) && |c| == |w.t| && i < |w.t| && Consistent(w, c, at) && (c[i] == UNSET || c[i] == FALSE)
    requires ParentTrue(w, i) || (!at.firm && Blocked(w, i))
    requires w.t[i].prev.Some? ==> Answered(w, c, w.t[i].prev.value, c[w.t[i].prev.value], at.firm)
    requires r == if c[i] == FALSE then FALSE else Compared(w, i)
    ensures Ready(w, c, i, r, at)
  {
    assert Sound(w, i, c[i]);
    if ParentTrue(w, i) {
      AskedThroughPrev(w, c, i, at.firm);
      if EarlierTrue(w, i) { EarlierTrueIsMarked(w, c, i); }
    }
  }

  lemma AskedThroughPrev(w: World, c: seq<Cond>, i: nat, firm: bool)
    requires WellFormed(w.t) && |c| == |w.t| && i < |w.t| && ParentTrue(w, i)
    requires w.t[i].prev.Some? ==> Answered(w, c, w.t[i].prev.value, c[w.t[i].prev.value], firm)
    ensures EarlierAsked(w, c, i)
  {
    forall q | 0 <= q < |c| && Before(w.t, q, i) && w.t[q].comp in w.valid ensures c[q] != UNSET {
      var p := w.t[i].prev.value;
      assert ParentTrue(w, p) && EarlierAsked(w, c, p);
    }
  }

  /** Block n has been asked, or is not of the stage. */
  lemma NextBlock(w: World, c: seq<Cond>, at: Stage)
    requires WellFormed(w.t) && |c| == |w.t| && at.n < |c| && Consistent(w, c, at)
    requires w.t[at.n].comp == at.comp ==> Right(w, at.n, c[at.n], at.firm)
    ensures Consistent(w, c, at.(n := at.n + 1))
  {
    var next := at.(n := at.n + 1);
    forall q, p | 0 <= q < |c| && 0 <= p < |c| && Before(w.t, q, p) && c[p] != UNSET &&
                  Due(w, q, next) && !Blocked(w, p)
      ensures c[q] != UNSET
    {
      BeforeFacts(w.t, q, p);
      if !Due(w, q, at) {
        assert Sound(w, p, c[p]);
        DecidedBelow(w, p, c[p]);
      }
    }
  }

  lemma StageIsOver(w: World, c: seq<Cond>, at: Stage)
    requires WellFormed(w.t) && |c| == |w.t| && at.n >= |c| && Consistent(w, c, at)
    ensures Consistent(w, c, Settled(w.t, at.firm))
  {
    forall q, p | 0 <= q < |c| && 0 <= p < |c| && Before(w.t, q, p) && c[p] != UNSET &&
                  Due(w, q, Settled(w.t, at.firm)) && !Blocked(w, p)
      ensures c[q] != UNSET
    {
      assert Due(w, q, at);
    }
  }

  /** An input became known: its blocks are still to be asked. */
  lemma GrowthConsistent(w: World, w': World, c: seq<Cond>, at: Stage, comp: nat)
    requires WellFormed(w.t) && |c| == |w.t| && Consistent(w, c, at) && at.n >= |c|
    requires w' == w.(valid := w.valid + {comp}) && (at.firm ==> FirmCache(w', c))
    ensures Consistent(w', c, Stage(comp, 1, at.firm))
  {
    var next := Stage(comp, 1, at.firm);
    forall k | 0 <= k < |c| ensures Sound(w', k, c[k]) {
      assert Sound(w, k, c[k]);
      MeaningUnderGrowth(w, w', k);
    }
    forall q, p | 0 <= q < |c| && 0 <= p < |c| && Before(w.t, q, p) && c[p] != UNSET &&
                  Due(w', q, next) && !Blocked(w', p)
      ensures c[q] != UNSET
    {
      BeforeFacts(w.t, q, p);
      assert q != 0;
      if w.t[p].parent != 0 { MeaningUnderGrowth(w, w', w.t[p].parent); }
      assert Due(w, q, at) && !Blocked(w, p);
    }
  }

  /** In a safe configuration whatever encloses a cached TRUE goes on applying. */
  lemma GrowthIsFirm(w: World, w': World, c: seq<Cond>, order: seq<nat>, n: nat)
    requires WellFormed(w.t) && |c| == |w.t| && SoundCache(w, c) && FirmCache(w, c) && Safe(w.t, order) && n < |order|
    requires w.valid == Known(order[..n]) && w' == w.(valid := w.valid + {order[n]})
    ensures FirmCache(w', c)
  {
    forall k | 0 <= k < |c| && c[k] == TRUE ensures ParentTrue(w', k) {
      assert Sound(w, k, c[k]);
      SafeParentIsFinal(w, w', order, n, k);
    }
  }

  // ----- queries -----

  datatype Result = Result(r: Cond, cache: seq<Cond>)

  /** The comparison of block i with the request. */
  function Compared(w: World, i: nat): Cond
    requires i < |w.t|
  {
    if w.t[i].comp !in w.valid then UNSET else if w.test(i) then TRUE else FALSE
  }

  /** config_check_cond_cached: the cache after a query for block i, whose entry is the answer. */
  ghost function Cached(w: World, c: seq<Cond>, i: nat): (c': seq<Cond>)
    requires WellFormed(w.t) && |c| == |w.t| && i < |w.t|
    ensures |c'| == |c|
    decreases i, 2
  {
    if c[i] != UNSET then c else
      var e := Evaluated(w, c, i);
      Store(w.t, e.cache, i, e.r)
  }

  /** config_check_cond_nocache: first the parent. */
  ghost function Evaluated(w: World, c: seq<Cond>, i: nat): (e: Result)
    requires WellFormed(w.t) && |c| == |w.t| && i < |w.t|
    ensures |e.cache| == |c|
    decreases i, 1
  {
    var p := w.t[i].parent;
    if p == 0 then EvaluatedSelf(w, c, i) else
      var c' := Cached(w, c, p);
      if c'[p] == TRUE then EvaluatedSelf(w, c', i) else Result(c'[p], c')
  }

  /** Then the block before it on its else-chain, and its own comparison. */
  ghost function EvaluatedSelf(w: World, c: seq<Cond>, i: nat): (e: Result)
    requires WellFormed(w.t) && |c| == |w.t| && i < |w.t|
    ensures |e.cache| == |c|
    decreases i, 0
  {
    match w.t[i].prev
    case None => Result(Compared(w, i), c)
    case Some(q) =>
      var c' := Cached(w, c, q);
      Result(if c'[i] == FALSE then FALSE else Compared(w, i), c')
  }

  /** What a query may change. */
  ghost predicate Touches(w: World, c: seq<Cond>, c': seq<Cond>, i: nat)
    requires WellFormed(w.t) && |c| == |c'| == |w.t| && i < |w.t|
  {
    && Keeps(w, c, c')
    && (forall k :: i < k < |c| ==> c'[k] == c[k] || c'[k] == FALSE)
    && forall k :: 0 <= k < |c| && w.t[k].parent > w.t[i].parent ==> c'[k] == c[k]
  }

  /** A cached TRUE is only lost to an earlier block of its chain. */
  ghost predicate Keeps(w: World, c: seq<Cond>, c': seq<Cond>)
    requires WellFormed(w.t) && |c| == |c'| == |w.t|
  {
    forall k :: 0 <= k < |c| && c[k] == TRUE ==> c'[k] == TRUE || Challenged(w, k)
  }

  lemma StoreTouches(w: World, c: seq<Cond>, c': seq<Cond>, i: nat, r: Cond, at: Stage)
    requires WellFormed(w.t) && |c| == |w.t| && i < |w.t| && Ready(w, c, i, r, at) && c' == Store(w.t, c, i, r)
    ensures Touches(w, c, c', i)
  {
    forall k | 0 <= k < |c| && Before(w.t, i, k) ensures w.t[k].parent == w.t[i].parent { BeforeFacts(w.t, i, k); }
  }

  lemma TouchesTwice(w: World, c: seq<Cond>, c': seq<Cond>, c'': seq<Cond>, h: nat, i: nat)
    requires WellFormed(w.t) && |c| == |c'| == |c''| == |w.t| && h <= i < |w.t| && w.t[h].parent <= w.t[i].parent
    requires Touches(w, c, c', h) && Touches(w, c', c'', i)
    ensures Touches(w, c, c'', i)
  {
  }

  /** A query for a block that the stage has come to is answered rightly, but possibly below a
      block that does not apply, and keeps the cache fit. */
  lemma {:induction false} QueryIsRight(w: World, c: seq<Cond>, i: nat, at: Stage)
    requires WellFormed(w.t) && |c| == |w.t| && i < |w.t| && i <= at.n && Consistent(w, c, at)
    ensures var c' := Cached(w, c, i);
            Consistent(w, c', at) && Answered(w, c', i, c'[i], at.firm) && Touches(w, c, c', i)
    decreases i, 2
  {
    if c[i] != UNSET {
      CachedIsRight(w, c, i, at);
    } else {
      EvaluationIsReady(w, c, i, at);
      var e := Evaluated(w, c, i);
      var c' := Store(w.t, e.cache, i, e.r);
      StoreConsistent(w, e.cache, c', i, e.r, at);
      StoreTouches(w, e.cache, c', i, e.r, at);
      TouchesTwice(w, c, e.cache, c', i, i);
    }
  }

  lemma {:induction false} EvaluationIsReady(w: World, c: seq<Cond>, i: nat, at: Stage)
    requires WellFormed(w.t) && |c| == |w.t| && i < |w.t| && i <= at.n && Consistent(w, c, at) && c[i] == UNSET
    ensures var e := Evaluated(w, c, i); Ready(w, e.cache, i, e.r, at) && Touches(w, c, e.cache, i)
    decreases i, 1
  {
    var p := w.t[i].parent;
    if p == 0 {
      SelfIsReady(w, c, i, at);
    } else {
      QueryIsRight(w, c, p, at);
      var c' := Cached(w, c, p);
      assert w.t[p].parent <= p && c'[i] == c[i];
      if c'[p] == TRUE {
        SelfIsReady(w, c', i, at);
        TouchesTwice(w, c, c', EvaluatedSelf(w, c', i).cache, p, i);
      } else {
        ReadyFromParent(w, c', i, c'[p], at);
      }
    }
  }

  lemma {:induction false} SelfIsReady(w: World, c: seq<Cond>, i: nat, at: Stage)
    requires WellFormed(w.t) && |c| == |w.t| && i < |w.t| && i <= at.n && Consistent(w, c, at) && c[i] == UNSET
    requires ParentTrue(w, i) || (!at.firm && Blocked(w, i))
    ensures var e := EvaluatedSelf(w, c, i); Ready(w, e.cache, i, e.r, at) && Touches(w, c, e.cache, i)
    decreases i, 0
  {
    var e := EvaluatedSelf(w, c, i);
    if w.t[i].prev.Some? { QueryIsRight(w, c, w.t[i].prev.value, at); }
    ReadyFromSelf(w, e.cache, i, e.r, at);
  }

  // ----- runs -----

  /** What happens to a connection: an input becomes known, or a plug-in asks for a block. */
  datatype Op = Learn(comp: nat) | Ask(block: nat)

  datatype Round = Round(answers: map<nat, Cond>, cache: seq<Cond>)

  /** config_patch_connection, up to block n: the blocks that test the input are asked in order. */
  ghost function Patched(w: World, c: seq<Cond>, comp: nat, n: nat): (p: Round)
    requires WellFormed(w.t) && |c| == |w.t| && n <= |w.t|
    ensures |p.cache| == |c|
  {
    if n <= 1 then Round(map[], c) else
      var p, i := Patched(w, c, comp, n - 1), n - 1;
      if w.t[i].comp != comp then p else
        var c' := Cached(w, p.cache, i);
        Round(p.answers[i := c'[i]], c')
  }

  function Learnt(w: World, op: Op): World {
    if op.Learn? then w.(valid := w.valid + {op.comp}) else w
  }

  /** One operation; a block that is not there is not answered. */
  ghost function Perform(w: World, c: seq<Cond>, op: Op): (p: Round)
    requires WellFormed(w.t) && |c| == |w.t|
    ensures |p.cache| == |c|
  {
    match op
    case Learn(comp) => Patched(w, c, comp, |w.t|)
    case Ask(i) =>
      if i >= |w.t| then Round(map[], c) else
        var c' := Cached(w, c, i);
        Round(map[i := c'[i]], c')
  }

  /** What is known after a run. */
  function WorldAfter(t: seq<Config>, test: nat -> bool, ops: seq<Op>): World {
    World(t, Known(Learned(ops)), test)
  }

  /** The inputs that became known, in order. */
  function Learned(ops: seq<Op>): seq<nat> {
    if ops == [] then [] else
      var op := ops[|ops| - 1];
      Learned(ops[..|ops| - 1]) + if op.Learn? then [op.comp] else []
  }

  function Blank(t: seq<Config>): seq<Cond> { seq(|t|, _ => UNSET) }

  /** The answers to the last operation of a run from an empty cache, and the cache after it. */
  ghost function After(t: seq<Config>, test: nat -> bool, ops: seq<Op>): (p: Round)
    requires WellFormed(t)
    ensures |p.cache| == |t|
  {
    if ops == [] then Round(map[], Blank(t)) else
      var n := |ops| - 1;
      Perform(WorldAfter(t, test, ops), After(t, test, ops[..n]).cache, ops[n])
  }

  ghost predicate AllRight(w: World, answers: map<nat, Cond>, firm: bool) {
    WellFormed(w.t) && forall i :: i in answers ==> i < |w.t| && Right(w, i, answers[i], firm)
  }

  /** What the loop of config_patch_connection keeps. */
  ghost predicate Patching(w: World, c: seq<Cond>, p: Round, at: Stage)
    requires WellFormed(w.t) && |c| == |w.t| == |p.cache|
  {
    Consistent(w, p.cache, at) && AllRight(w, p.answers, at.firm) && Keeps(w, c, p.cache)
  }

  lemma PatchOne(w: World, c: seq<Cond>, p: Round, p': Round, i: nat, at: Stage)
    requires WellFormed(w.t) && |c| == |p.cache| == |w.t| && 1 <= i < |w.t| && at.n == i && Patching(w, c, p, at)
    requires p' == if w.t[i].comp != at.comp then p else
                   var c' := Cached(w, p.cache, i); Round(p.answers[i := c'[i]], c')
    ensures |p'.cache| == |c| && Patching(w, c, p', at.(n := i + 1))
  {
    if w.t[i].comp == at.comp { QueryIsRight(w, p.cache, i, at); }
    NextBlock(w, p'.cache, at);
  }

  lemma {:induction false} PatchIsRight(w: World, c: seq<Cond>, comp: nat, n: nat, firm: bool)
    requires WellFormed(w.t) && |c| == |w.t| && n <= |w.t| && Consistent(w, c, Stage(comp, 1, firm))
    ensures Patching(w, c, Patched(w, c, comp, n), Stage(comp, if n <= 1 then 1 else n, firm))
  {
    if n > 1 {
      PatchIsRight(w, c, comp, n - 1, firm);
      PatchOne(w, c, Patched(w, c, comp, n - 1), Patched(w, c, comp, n), n - 1, Stage(comp, n - 1, firm));
    }
  }

  /** All blocks that test the input are asked, and no others. */
  lemma {:induction false} PatchAsksAll(w: World, c: seq<Cond>, comp: nat, n: nat, i: nat)
    requires WellFormed(w.t) && |c| == |w.t| && n <= |w.t|
    ensures i in Patched(w, c, comp, n).answers <==> 1 <= i < n && w.t[i].comp == comp
  {
    if n > 1 { PatchAsksAll(w, c, comp, n - 1, i); }
  }

  /** An operation between two stages. */
  lemma PerformIsRight(w: World, c: seq<Cond>, op: Op, firm: bool)
    requires WellFormed(w.t) && |c| == |w.t| && Consistent(w, c, Settled(w.t, firm))
    requires firm ==> FirmCache(Learnt(w, op), c)
    ensures var w', p := Learnt(w, op), Perform(Learnt(w, op), c, op);
            Consistent(w', p.cache, Settled(w.t, firm)) && AllRight(w', p.answers, firm) && Keeps(w', c, p.cache)
  {
    var w' := Learnt(w, op);
    match op
    case Learn(comp) =>
      GrowthConsistent(w, w', c, Settled(w.t, firm), comp);
      PatchIsRight(w', c, comp, |w.t|, firm);
      var n := if |w.t| <= 1 then 1 else |w.t|;
      StageIsOver(w', Patched(w', c, comp, |w.t|).cache, Stage(comp, n, firm));
    case Ask(i) => if i < |w.t| { QueryIsRight(w, c, i, Settled(w.t, firm)); }
  }

  lemma OneMore(t: seq<Config>, test: nat -> bool, ops: seq<Op>)
    requires ops != []
    ensures WorldAfter(t, test, ops) == Learnt(WorldAfter(t, test, ops[..|ops| - 1]), ops[|ops| - 1])
  {
  }

  /** Every answer of every run is the uncached meaning at that time, but possibly below a block
      that does not apply; and without exception if the configuration is safe for the order in
      which the inputs become known. */
  lemma {:induction false} RunIsRight(t: seq<Config>, test: nat -> bool, ops: seq<Op>, order: seq<nat>, firm: bool)
    requires WellFormed(t) && Learned(ops) <= order && (firm ==> Safe(t, order))
    ensures var w, p := WorldAfter(t, test, ops), After(t, test, ops);
            Consistent(w, p.cache, Settled(t, firm)) && AllRight(w, p.answers, firm)
  {
    if ops != [] {
      var n := |ops| - 1;
      var w, p, op := WorldAfter(t, test, ops[..n]), After(t, test, ops[..n]), ops[n];
      RunIsRight(t, test, ops[..n], order, firm);
      OneMore(t, test, ops);
      if firm && op.Learn? {
        var k := |Learned(ops[..n])|;
        assert order[..k] == Learned(ops[..n]) && order[k] == op.comp;
        GrowthIsFirm(w, Learnt(w, op), p.cache, order, k);
      }
      PerformIsRight(w, p.cache, op, firm);
    }
  }

  /** In every run in which the inputs become known in this order, every answer is the uncached
      meaning. */
  ghost predicate Trusted(t: seq<Config>, order: seq<nat>)
    requires WellFormed(t)
  {
    forall test: nat -> bool, ops :: Learned(ops) <= order ==>
      AllMeant(WorldAfter(t, test, ops), After(t, test, ops).answers)
  }

  ghost predicate AllMeant(w: World, answers: map<nat, Cond>)
    requires WellFormed(w.t)
  {
    forall i :: i in answers ==> i < |w.t| && answers[i] == Meaning(w, i)
  }

  lemma SafeIsTrusted(t: seq<Config>, order: seq<nat>)
    requires WellFormed(t) && Safe(t, order)
    ensures Trusted(t, order)
  {
    forall test: nat -> bool, ops | Learned(ops) <= order
      ensures AllMeant(WorldAfter(t, test, ops), After(t, test, ops).answers)
    {
      RunIsRight(t, test, ops, order, true);
    }
  }

  // ----- wrong answers -----

  function Learns(comps: seq<nat>): seq<Op> { seq(|comps|, k requires 0 <= k < |comps| => Learn(comps[k])) }

  lemma {:induction false} LearnedLearns(ops: seq<Op>, comps: seq<nat>)
    ensures Learned(ops + Learns(comps)) == Learned(ops) + comps
  {
    var all := ops + Learns(comps);
    if comps == [] {
      assert all == ops;
    } else {
      var n := |comps| - 1;
      LearnedLearns(ops, comps[..n]);
      assert all[..|all| - 1] == ops + Learns(comps[..n]);
      assert all[|all| - 1] == Learn(comps[n]);
      assert Learned(ops) + comps == Learned(ops) + comps[..n] + [comps[n]];
    }
  }

  lemma LearnedAsk(ops: seq<Op>, i: nat)
    ensures Learned(ops + [Ask(i)]) == Learned(ops)
  {
    assert (ops + [Ask(i)])[..|ops|] == ops;
  }

  lemma TrueStaysOnce(t: seq<Config>, test: nat -> bool, ops: seq<Op>, op: Op, i: nat)
    requires WellFormed(t) && i < |t| && !Challenged(WorldAfter(t, test, ops + [op]), i)
    ensures !Challenged(WorldAfter(t, test, ops), i)
    ensures After(t, test, ops).cache[i] == TRUE ==> After(t, test, ops + [op]).cache[i] == TRUE
  {
    assert (ops + [op])[..|ops|] == ops;
    OneMore(t, test, ops + [op]);
    RunIsRight(t, test, ops, Learned(ops), false);
    PerformIsRight(WorldAfter(t, test, ops), After(t, test, ops).cache, op, false);
  }

  /** A cached TRUE outlives everything but a challenge. */
  lemma {:induction false} TrueStays(t: seq<Config>, test: nat -> bool, ops: seq<Op>, comps: seq<nat>, i: nat)
    requires WellFormed(t) && i < |t| && After(t, test, ops).cache[i] == TRUE
    requires !Challenged(WorldAfter(t, test, ops + Learns(comps)), i)
    ensures After(t, test, ops + Learns(comps)).cache[i] == TRUE
  {
    if comps == [] {
      assert ops + Learns(comps) == ops;
    } else {
      var n := |comps| - 1;
      var init := ops + Learns(comps[..n]);
      assert ops + Learns(comps) == init + [Learn(comps[n])];
      TrueStaysOnce(t, test, init, Learn(comps[n]), i);
      TrueStays(t, test, ops, comps[..n], i);
    }
  }

  lemma AskedLast(t: seq<Config>, test: nat -> bool, ops: seq<Op>, i: nat)
    requires WellFormed(t) && i < |t|
    ensures var all, w := ops + [Ask(i)], WorldAfter(t, test, ops);
            && WorldAfter(t, test, all) == w
            && After(t, test, all) == Perform(w, After(t, test, ops).cache, Ask(i))
  {
    LearnedAsk(ops, i);
    assert (ops + [Ask(i)])[..|ops|] == ops;
  }

  /** A configuration that is not safe has a run with a wrong answer: the inputs of the nesting
      become known, the block is asked for, the input in front of an enclosing block becomes
      known, and the block is asked for again. */
  lemma WrongAnswer(t: seq<Config>, order: seq<nat>, i: nat, p: nat, j: nat, n: nat)
    returns (test: nat -> bool, ops: seq<Op>)
    requires WellFormed(t) && i < |t| && p < |t| && j < |t| && Above(t, p, i) && Before(t, j, p)
    requires LateAt(t, order, i, j, n)
    ensures Learned(ops) == order && i in After(t, test, ops).answers
    ensures After(t, test, ops).answers[i] == TRUE != Meaning(WorldAfter(t, test, ops), i)
  {
    var first;
    test, first := SetUp(t, order, i, p, j, n);
    FirstAnswer(t, test, first, i, p, j);
    AskedLast(t, test, first, i);
    LearnedAsk(first, i);
    ops := SecondAnswer(t, test, first + [Ask(i)], order[n..], i, p, j);
    assert order[..n] + order[n..] == order;
  }

  lemma SetUp(t: seq<Config>, order: seq<nat>, i: nat, p: nat, j: nat, n: nat)
    returns (test: nat -> bool, first: seq<Op>)
    requires WellFormed(t) && i < |t| && p < |t| && j < |t| && Above(t, p, i) && Before(t, j, p)
    requires LateAt(t, order, i, j, n)
    ensures Scenario(WorldAfter(t, test, first), i, p, j) && Learned(first) == order[..n] && t[j].comp in order[n..]
  {
    test := (x: nat) => x == j || x == i || (x < |t| && Above(t, x, i));
    first := Learns(order[..n]);
    LearnedLearns([], order[..n]);
    assert [] + first == first && [] + order[..n] == order[..n];
    assert order == order[..n] + order[n..];
  }

  lemma SecondAnswer(t: seq<Config>, test: nat -> bool, asked: seq<Op>, comps: seq<nat>, i: nat, p: nat, j: nat)
    returns (ops: seq<Op>)
    requires Scenario(WorldAfter(t, test, asked), i, p, j) && After(t, test, asked).cache[i] == TRUE
    requires t[j].comp in comps
    ensures Learned(ops) == Learned(asked) + comps && i in After(t, test, ops).answers
    ensures After(t, test, ops).answers[i] == TRUE != Meaning(WorldAfter(t, test, ops), i)
  {
    var all := asked + Learns(comps);
    LearnedLearns(asked, comps);
    ScenarioAfter(WorldAfter(t, test, asked), WorldAfter(t, test, all), i, p, j);
    TrueStays(t, test, asked, comps, i);
    ops := all + [Ask(i)];
    AskedLast(t, test, all, i);
    LearnedAsk(all, i);
  }

  lemma FirstAnswer(t: seq<Config>, test: nat -> bool, ops: seq<Op>, i: nat, p: nat, j: nat)
    requires Scenario(WorldAfter(t, test, ops), i, p, j)
    ensures After(t, test, ops + [Ask(i)]).cache[i] == TRUE
  {
    var w := WorldAfter(t, test, ops);
    ScenarioBefore(w, i, p, j);
    RunIsRight(t, test, ops, Learned(ops), false);
    QueryIsRight(w, After(t, test, ops).cache, i, Settled(t, false));
    AskedLast(t, test, ops, i);
  }

  /** The cache answers rightly in all runs with this order exactly if the configuration is safe
      for it. */
  lemma TrustedIffSafe(t: seq<Config>, order: seq<nat>)
    requires WellFormed(t)
    ensures Trusted(t, order) <==> Safe(t, order)
  {
    if Safe(t, order) {
      SafeIsTrusted(t, order);
    } else {
      var i, p, j, n :| 0 <= i < |t| && 0 <= p < |t| && 0 <= j < |t| && 0 <= n && Above(t, p, i) && Before(t, j, p) &&
        LateAt(t, order, i, j, n);
      var test, ops := WrongAnswer(t, order, i, p, j, n);
      assert !AllMeant(WorldAfter(t, test, ops), After(t, test, ops).answers);
    }
  }

  /** And in all runs whatsoever exactly if it is safe for all orders. */
  lemma AlwaysTrustedIff(t: seq<Config>)
    requires WellFormed(t)
    ensures (forall order :: Trusted(t, order)) <==> AlwaysSafe(t)
  {
    AlwaysSafeIff(t);
    forall order ensures Trusted(t, order) <==> Safe(t, order) { TrustedIffSafe(t, order); }
  }

  // ----- the order of the server -----

  const SERVER_SOCKET: nat := 1
  const URL: nat := 2
  const HOST: nat := 3
  const REFERER: nat := 4
  const USERAGENT: nat := 5
  const COOKIE: nat := 6
  const REMOTEIP: nat := 7
  const QUERYSTRING: nat := 8

  /** http_response_prepare */
  const SERVER_ORDER: seq<nat> := [SERVER_SOCKET, HOST, REMOTEIP, REFERER, USERAGENT, COOKIE, URL, QUERYSTRING]

  /** Two blocks of an else-chain, the second one with a block in it. */
  function Nested(first: nat, second: nat, inner: nat): (t: seq<Config>)
    ensures WellFormed(t)
  {
    [Config(0, None, None, 0), Config(0, None, Some(2), first),
     Config(0, Some(1), None, second), Config(2, None, None, inner)]
  }

  lemma NestedIs(t: seq<Config>, i: nat, p: nat, j: nat)
    requires WellFormed(t) && |t| == 4 && t[3].parent == 2 && t[2].parent == t[1].parent == t[0].parent == 0
    requires t[2].prev == Some(1) && t[1].prev.None? && i < 4 && p < 4
    ensures Above(t, p, i) && Before(t, j, p) <==> i == 3 && p == 2 && j == 1
    ensures Inputs(t, 3) == [t[3].comp] + [t[2].comp]
  {
    assert Above(t, p, i) <==> i == 3 && p == 2;
    assert Before(t, j, 2) <==> j == 1;
  }

  /** A chain on the host and then the URL is safe in the order of the server, though not in all
      orders; a chain on the URL and then the host, with a test of the address in it, is not. */
  lemma ServerOrderDecides()
    ensures var t := Nested(HOST, URL, QUERYSTRING); Trusted(t, SERVER_ORDER) && !AlwaysSafe(t)
    ensures !Trusted(Nested(URL, HOST, REMOTEIP), SERVER_ORDER)
  {
    HostFirst(Nested(HOST, URL, QUERYSTRING));
    var t := Nested(URL, HOST, REMOTEIP);
    NestedIs(t, 3, 2, 1);
    assert SERVER_ORDER[..3] == [SERVER_SOCKET, HOST, REMOTEIP];
    assert SERVER_ORDER[6] == URL;
    assert LateAt(t, SERVER_ORDER, 3, 1, 3);
    TrustedIffSafe(t, SERVER_ORDER);
  }

  lemma HostFirst(t: seq<Config>)
    requires t == Nested(HOST, URL, QUERYSTRING)
    ensures Trusted(t, SERVER_ORDER) && !AlwaysSafe(t)
  {
    forall i, p, j, n | 0 <= i < |t| && 0 <= p < |t| && 0 <= j < |t| && 0 <= n && Above(t, p, i) && Before(t, j, p)
      ensures !LateAt(t, SERVER_ORDER, i, j, n)
    {
      NestedIs(t, i, p, j);
      assert QUERYSTRING in Inputs(t, i) && t[j].comp == HOST;
    }
    TrustedIffSafe(t, SERVER_ORDER);
    NestedIs(t, 3, 2, 1);
  }
}
