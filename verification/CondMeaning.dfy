/**
 * Conditional configuration blocks (configfile-glue.c).  Block `i` applies when its
 * parent applies, no earlier block of its else-chain applies, and its own comparison
 * succeeds; a comparison whose input is not known yet is undecided.  What that means
 * without a cache, and how it changes as inputs become known.
 */
module CondMeaning {
  import opened Options

  datatype Cond = UNSET | FALSE | TRUE

  /** parent 0 is the global block, which always applies. */
  datatype Config = Config(parent: nat, prev: Option<nat>, next: Option<nat>, comp: nat)

  /** Blocks are numbered in the order they are opened: the parser asserts that both links
      point to smaller numbers.  An else-chain hangs below one parent, and the global block is
      on none. */
  ghost predicate WellFormed(t: seq<Config>) {
    && (t != [] ==> t[0].prev.None? && t[0].next.None?)
    && forall i :: 0 <= i < |t| ==>
      && (t[i].parent < i || t[i].parent == 0)
      && (t[i].prev.Some? ==>
            t[i].prev.value < i && t[t[i].prev.value].next == Some(i) && t[t[i].prev.value].parent == t[i].parent)
      && (t[i].next.Some? ==> i < t[i].next.value < |t| && t[t[i].next.value].prev == Some(i))
  }

  /** Everything a block's result depends on; `valid` are the inputs known so far. */
  datatype World = World(t: seq<Config>, valid: set<nat>, test: nat -> bool)

  /** The uncached meaning of a block. */
  ghost function Meaning(w: World, i: nat): Cond
    requires WellFormed(w.t) && i < |w.t|
    decreases i, 1
  {
    var p := w.t[i].parent;
    if p != 0 && Meaning(w, p) != TRUE then Meaning(w, p)
    else if EarlierTrue(w, i) then FALSE
    else if w.t[i].comp !in w.valid then UNSET
    else if w.test(i) then TRUE else FALSE
  }

  ghost predicate EarlierTrue(w: World, i: nat)
    requires WellFormed(w.t) && i < |w.t|
    decreases i, 0
  {
    match w.t[i].prev
    case None => false
    case Some(p) => Meaning(w, p) == TRUE || EarlierTrue(w, p)
  }

  /** Block j comes before block i on its else-chain. */
  ghost predicate Before(t: seq<Config>, j: nat, i: nat)
    requires WellFormed(t) && i < |t|
    decreases i
  {
    match t[i].prev
    case None => false
    case Some(p) => p == j || Before(t, j, p)
  }

  lemma {:induction false} BeforeFacts(t: seq<Config>, j: nat, i: nat)
    requires WellFormed(t) && i < |t| && Before(t, j, i)
    ensures j < i && t[j].parent == t[i].parent && t[j].next.Some?
    ensures t[j].next == Some(i) || Before(t, t[j].next.value, i)
    decreases i
  {
    var p := t[i].prev.value;
    if p != j { BeforeFacts(t, j, p); }
  }

  lemma {:induction false} BeforeTransitive(t: seq<Config>, h: nat, j: nat, i: nat)
    requires WellFormed(t) && i < |t| && j < |t| && Before(t, h, j) && Before(t, j, i)
    ensures Before(t, h, i)
    decreases i
  {
    var p := t[i].prev.value;
    if p != j { BeforeTransitive(t, h, j, p); }
  }

  lemma {:induction false} BeforeTotal(t: seq<Config>, h: nat, j: nat, i: nat)
    requires WellFormed(t) && i < |t| && Before(t, h, i) && Before(t, j, i)
    ensures h < |t| && j < |t| && (h == j || Before(t, h, j) || Before(t, j, h))
    decreases i
  {
    BeforeFacts(t, h, i);
    BeforeFacts(t, j, i);
    var p := t[i].prev.value;
    if h != p && j != p { BeforeTotal(t, h, j, p); }
  }

  lemma {:induction false} FindEarlierTrue(w: World, i: nat) returns (j: nat)
    requires WellFormed(w.t) && i < |w.t| && EarlierTrue(w, i)
    ensures j < i && Before(w.t, j, i) && Meaning(w, j) == TRUE
    decreases i
  {
    var p := w.t[i].prev.value;
    if Meaning(w, p) == TRUE { j := p; } else { j := FindEarlierTrue(w, p); }
  }

  lemma {:induction false} BeforeIsEarlier(w: World, j: nat, i: nat)
    requires WellFormed(w.t) && j < i < |w.t| && Before(w.t, j, i) && Meaning(w, j) == TRUE
    ensures EarlierTrue(w, i)
    decreases i
  {
    var p := w.t[i].prev.value;
    if p != j {
      BeforeFacts(w.t, j, p);
      BeforeIsEarlier(w, j, p);
    }
  }

  // ----- what growing knowledge can change -----

  /** What applies to block i once its parent applies. */
  ghost function Own(w: World, i: nat): Cond
    requires WellFormed(w.t) && i < |w.t|
  {
    if EarlierTrue(w, i) then FALSE
    else if w.t[i].comp !in w.valid then UNSET
    else if w.test(i) then TRUE else FALSE
  }

  ghost predicate ParentTrue(w: World, i: nat)
    requires WellFormed(w.t) && i < |w.t|
  {
    w.t[i].parent != 0 ==> Meaning(w, w.t[i].parent) == TRUE
  }

  /** FALSE is final, and a decided block never becomes undecided again. */
  lemma {:induction false} MeaningUnderGrowth(w: World, w': World, i: nat)
    requires WellFormed(w.t) && i < |w.t| && w' == w.(valid := w'.valid) && w.valid <= w'.valid
    ensures Meaning(w, i) == FALSE ==> Meaning(w', i) == FALSE
    ensures Meaning(w, i) != UNSET ==> Meaning(w', i) != UNSET
    ensures ParentTrue(w', i) && EarlierTrue(w, i) ==> EarlierTrue(w', i)
    decreases i
  {
    var p := w.t[i].parent;
    if p != 0 { MeaningUnderGrowth(w, w', p); }
    match w.t[i].prev {
      case None =>
      case Some(q) =>
        MeaningUnderGrowth(w, w', q);
        assert Meaning(w, q) == TRUE ==> w.t[q].comp in w.valid && w.test(q);
        assert ParentTrue(w', q) && Meaning(w, q) == TRUE ==> Meaning(w', q) == TRUE || EarlierTrue(w', q);
    }
    assert ParentTrue(w, i) ==> Meaning(w, i) == Own(w, i);
    assert ParentTrue(w', i) ==> Meaning(w', i) == Own(w', i);
  }

  /** Some block before i on its else-chain is known to have succeeded by itself. */
  ghost predicate Challenged(w: World, i: nat)
    requires WellFormed(w.t) && i < |w.t|
  {
    exists j :: 0 <= j < |w.t| && Before(w.t, j, i) && w.t[j].comp in w.valid && w.test(j)
  }

  /** So for the block or for one of its ancestors. */
  ghost predicate Overturned(w: World, i: nat)
    requires WellFormed(w.t) && i < |w.t|
    decreases i
  {
    Challenged(w, i) || (w.t[i].parent != 0 && Overturned(w, w.t[i].parent))
  }

  lemma ChallengedIsEarlierTrue(w: World, i: nat)
    requires WellFormed(w.t) && i < |w.t| && ParentTrue(w, i)
    ensures Challenged(w, i) <==> EarlierTrue(w, i)
  {
    if Challenged(w, i) {
      var j :| 0 <= j < |w.t| && Before(w.t, j, i) && w.t[j].comp in w.valid && w.test(j);
      BeforeFacts(w.t, j, i);
      if EarlierTrue(w, j) {
        var h := FindEarlierTrue(w, j);
        BeforeTransitive(w.t, h, j, i);
        BeforeIsEarlier(w, h, i);
      } else {
        BeforeIsEarlier(w, j, i);
      }
    }
    if EarlierTrue(w, i) {
      var j := FindEarlierTrue(w, i);
      assert w.t[j].comp in w.valid && w.test(j);
    }
  }

  /** As inputs become known, a block that applies goes on applying exactly if neither it nor
      an ancestor is challenged by an earlier block of its else-chain. */
  lemma {:induction false} TrueSurvivesIff(w: World, w': World, i: nat)
    requires WellFormed(w.t) && i < |w.t| && w' == w.(valid := w'.valid) && w.valid <= w'.valid
    requires Meaning(w, i) == TRUE
    ensures Meaning(w', i) == TRUE <==> !Overturned(w', i)
    decreases i
  {
    var p := w.t[i].parent;
    if p != 0 { TrueSurvivesIff(w, w', p); }
    if ParentTrue(w', i) { ChallengedIsEarlierTrue(w', i); }
  }

  /** TRUE is not final in general: an earlier block of the chain, undecided so far, may come
      to apply.  A cached TRUE is then out of date until the earlier block is asked for. */
  lemma GrowthCanOverturnTrue()
    ensures var t := [Config(0, None, None, 0), Config(0, None, Some(2), 1), Config(0, Some(1), None, 2)];
            var w := World(t, {2}, _ => true);
            WellFormed(t) && Meaning(w, 2) == TRUE && Meaning(w.(valid := {1, 2}), 2) == FALSE
  {
    var t := [Config(0, None, None, 0), Config(0, None, Some(2), 1), Config(0, Some(1), None, 2)];
    var w := World(t, {2}, _ => true);
    assert Meaning(w, 1) == UNSET;
    assert Meaning(w.(valid := {1, 2}), 1) == TRUE;
  }

  // ----- nesting -----

  /** Block a encloses block i. */
  predicate Above(t: seq<Config>, a: nat, i: nat)
    requires WellFormed(t) && i < |t|
    decreases i
  {
    t[i].parent != 0 && (t[i].parent == a || Above(t, a, t[i].parent))
  }

  lemma {:induction false} AboveIsSmaller(t: seq<Config>, a: nat, i: nat)
    requires WellFormed(t) && i < |t| && Above(t, a, i)
    ensures 0 < a <= t[i].parent < i
    decreases i
  {
    var p := t[i].parent;
    if p != a { AboveIsSmaller(t, a, p); }
  }

  lemma {:induction false} AboveTransitive(t: seq<Config>, b: nat, a: nat, i: nat)
    requires WellFormed(t) && i < |t| && a < |t| && Above(t, b, a) && Above(t, a, i)
    ensures Above(t, b, i) && b < a < i
    decreases i
  {
    AboveIsSmaller(t, b, a);
    AboveIsSmaller(t, a, i);
    var p := t[i].parent;
    if p != a { AboveTransitive(t, b, a, p); }
  }

  /** The inputs that block i depends on through its nesting. */
  function Inputs(t: seq<Config>, i: nat): seq<nat>
    requires WellFormed(t) && i < |t|
    decreases i
  {
    [t[i].comp] + if t[i].parent != 0 then Inputs(t, t[i].parent) else []
  }

  lemma {:induction false} InputsAre(t: seq<Config>, i: nat, a: nat)
    requires WellFormed(t) && i < |t| && a < |t| && (a == i || Above(t, a, i))
    ensures t[a].comp in Inputs(t, i)
    decreases i
  {
    if a != i { InputsAre(t, t[i].parent, a); }
  }

  /** What encloses an applying block applies, and its inputs are known. */
  lemma {:induction false} AncestorsApply(w: World, a: nat, k: nat)
    requires WellFormed(w.t) && k < |w.t| && Above(w.t, a, k) && ParentTrue(w, k)
    ensures 0 < a < k && Meaning(w, a) == TRUE
    decreases k
  {
    var p := w.t[k].parent;
    if p != a { AncestorsApply(w, a, p); }
  }

  lemma {:induction false} InputsKnown(w: World, k: nat)
    requires WellFormed(w.t) && k < |w.t| && ParentTrue(w, k) && w.t[k].comp in w.valid
    ensures forall x :: x in Inputs(w.t, k) ==> x in w.valid
    decreases k
  {
    if w.t[k].parent != 0 { InputsKnown(w, w.t[k].parent); }
  }

  // ----- the order in which inputs become known -----

  function Known(comps: seq<nat>): set<nat> { set x | x in comps }

  /** After n inputs those of the nesting of block i are known, and that of block j is to come. */
  ghost predicate LateAt(t: seq<Config>, order: seq<nat>, i: nat, j: nat, n: nat)
    requires WellFormed(t) && i < |t| && j < |t|
  {
    && n <= |order| && t[j].comp in order && t[j].comp !in order[..n]
    && forall x :: x in Inputs(t, i) ==> x in order[..n]
  }

  /** No else-chain of an enclosing block starts with a test of an input that becomes known
      after all inputs of the nesting. */
  ghost predicate Safe(t: seq<Config>, order: seq<nat>)
    requires WellFormed(t)
  {
    forall i, p, j, n | 0 <= i < |t| && 0 <= p < |t| && 0 <= j < |t| && 0 <= n :: Above(t, p, i) && Before(t, j, p) ==>
      !LateAt(t, order, i, j, n)
  }

  /** Whatever the order: it starts with inputs of the nesting only. */
  ghost predicate AlwaysSafe(t: seq<Config>)
    requires WellFormed(t)
  {
    forall i, p, j | 0 <= i < |t| && 0 <= p < |t| && 0 <= j < |t| :: Above(t, p, i) && Before(t, j, p) ==>
      t[j].comp in Inputs(t, i)
  }

  lemma AlwaysSafeIff(t: seq<Config>)
    requires WellFormed(t)
    ensures AlwaysSafe(t) <==> forall order :: Safe(t, order)
  {
    if forall order :: Safe(t, order) {
      forall i, p, j | 0 <= i < |t| && 0 <= p < |t| && 0 <= j < |t| && Above(t, p, i) && Before(t, j, p)
        ensures t[j].comp in Inputs(t, i)
      {
        var first := Inputs(t, i);
        var order := first + [t[j].comp];
        assert order[..|first|] == first && order[|first|] == t[j].comp;
        assert Safe(t, order);
        assert !LateAt(t, order, i, j, |first|);
      }
    }
  }

  /** In a safe configuration, what encloses a block whose input is known is decided for good. */
  lemma {:induction false} NotOverturned(w: World, w': World, order: seq<nat>, n: nat, k: nat, a: nat)
    requires WellFormed(w.t) && Safe(w.t, order) && k < |w.t| && w' == w.(valid := w'.valid)
    requires n <= |order| && w.valid == Known(order[..n]) && w'.valid <= Known(order)
    requires w.t[k].comp in w.valid && ParentTrue(w, k) && a < k && Above(w.t, a, k)
    ensures !Overturned(w', a)
    decreases a
  {
    AncestorsApply(w, a, k);
    InputsKnown(w, k);
    ChallengedIsEarlierTrue(w, a);
    forall j | 0 <= j < |w.t| && Before(w.t, j, a) ensures !(w.t[j].comp in w'.valid && w.test(j)) {
      assert !LateAt(w.t, order, k, j, n);
      assert w.t[j].comp in w'.valid ==> w.t[j].comp in w.valid;
    }
    var p := w.t[a].parent;
    if p != 0 {
      AboveTransitive(w.t, p, a, k);
      NotOverturned(w, w', order, n, k, p);
    }
  }

  lemma SafeParentIsFinal(w: World, w': World, order: seq<nat>, n: nat, k: nat)
    requires WellFormed(w.t) && Safe(w.t, order) && k < |w.t| && w' == w.(valid := w'.valid) && w.valid <= w'.valid
    requires n <= |order| && w.valid == Known(order[..n]) && w'.valid <= Known(order)
    requires w.t[k].comp in w.valid && ParentTrue(w, k)
    ensures ParentTrue(w', k)
  {
    var p := w.t[k].parent;
    if p != 0 {
      NotOverturned(w, w', order, n, k, p);
      TrueSurvivesIff(w, w', p);
    }
  }

  // ----- configurations that are not safe -----

  predicate OnLine(t: seq<Config>, a: nat, i: nat)
    requires WellFormed(t) && i < |t|
  {
    a == i || Above(t, a, i)
  }

  /** Of two blocks that enclose i, or are i, the smaller one encloses the other. */
  lemma {:induction false} LineIsOrdered(t: seq<Config>, x: nat, a: nat, i: nat)
    requires WellFormed(t) && i < |t| && OnLine(t, x, i) && OnLine(t, a, i) && x < a
    ensures a <= i && Above(t, x, a)
    decreases i
  {
    if a != i {
      AboveIsSmaller(t, a, i);
      LineIsOrdered(t, x, a, t[i].parent);
    }
  }

  /** So none of them is on the else-chain of another. */
  lemma LineIsNotChain(t: seq<Config>, x: nat, a: nat, i: nat)
    requires WellFormed(t) && i < |t| && OnLine(t, x, i) && OnLine(t, a, i) && a < |t|
    ensures !Before(t, x, a)
  {
    if Before(t, x, a) {
      BeforeFacts(t, x, a);
      LineIsOrdered(t, x, a, i);
      AboveIsSmaller(t, x, a);
    }
  }

  /** Everything on the line applies when only it, and blocks of unknown inputs, succeed. */
  lemma {:induction false} LineApplies(w: World, i: nat, a: nat)
    requires WellFormed(w.t) && i < |w.t| && a < |w.t| && OnLine(w.t, a, i)
    requires forall x :: 0 <= x < |w.t| && OnLine(w.t, x, i) ==> w.test(x) && w.t[x].comp in w.valid
    requires forall x :: 0 <= x < |w.t| && w.test(x) && w.t[x].comp in w.valid ==> OnLine(w.t, x, i)
    ensures Meaning(w, a) == TRUE
    decreases a
  {
    var p := w.t[a].parent;
    if p != 0 {
      if a != i { AboveTransitive(w.t, p, a, i); }
      LineApplies(w, i, p);
    }
    if EarlierTrue(w, a) {
      var x := FindEarlierTrue(w, a);
      LineIsNotChain(w.t, x, a, i);
      assert false;
    }
  }

  /** Only block j and the line of block i succeed, and the input of j is still to come. */
  ghost predicate Scenario(w: World, i: nat, p: nat, j: nat) {
    && WellFormed(w.t) && i < |w.t| && p < |w.t| && j < |w.t| && Above(w.t, p, i) && Before(w.t, j, p)
    && (forall x: nat :: w.test(x) <==> x == j || x == i || (x < |w.t| && Above(w.t, x, i)))
    && (forall x :: x in Inputs(w.t, i) ==> x in w.valid) && w.t[j].comp !in w.valid
  }

  lemma ScenarioBefore(w: World, i: nat, p: nat, j: nat)
    requires Scenario(w, i, p, j)
    ensures Meaning(w, i) == TRUE && ParentTrue(w, i)
  {
    forall x | 0 <= x < |w.t| && OnLine(w.t, x, i) ensures w.test(x) && w.t[x].comp in w.valid {
      InputsAre(w.t, i, x);
    }
    LineApplies(w, i, i);
  }

  lemma ScenarioAfter(w: World, w': World, i: nat, p: nat, j: nat)
    requires Scenario(w, i, p, j) && w' == w.(valid := w'.valid) && w.valid <= w'.valid && w.t[j].comp in w'.valid
    ensures Meaning(w', i) != TRUE && !Challenged(w', i)
  {
    ScenarioBefore(w, i, p, j);
    assert Challenged(w', p);
    OverturnedBelow(w', p, i);
    TrueSurvivesIff(w, w', i);
    BeforeFacts(w.t, j, p);
    AboveIsSmaller(w.t, p, i);
    forall x | 0 <= x < |w.t| && Before(w.t, x, i) ensures !w.test(x) {
      BeforeFacts(w.t, x, i);
      if OnLine(w.t, x, i) { LineIsNotChain(w.t, x, i, i); }
    }
  }

  lemma {:induction false} OverturnedBelow(w: World, p: nat, i: nat)
    requires WellFormed(w.t) && i < |w.t| && p < |w.t| && Above(w.t, p, i) && Overturned(w, p)
    ensures Overturned(w, i)
    decreases i
  {
    var q := w.t[i].parent;
    if q != p { OverturnedBelow(w, p, q); }
  }
}
