/**
 * CompressTables (lemon.c): the most frequent reduce of a state becomes its default
 * action.  Every move the state could make before, it still makes.
 */
module LemonCompress {
  import opened Options
  import opened MergeSort
  import opened LemonActions
  import opened LemonResolve

  datatype Move = Move(kind: Kind, arg: int)

  /** What the parser does in a state on a symbol: the action on it, else the default, which
      stands on the extra symbol `nsymbol`; None is a syntax error. */
  function MoveOn(list: seq<Action>, nsymbol: int, symbol: int): Option<Move> {
    match Find(list, symbol)
    case Some(a) => Some(Move(a.kind, a.arg))
    case None =>
      match Find(list, nsymbol)
      case Some(d) => Some(Move(d.kind, d.arg))
      case None => None
  }

  predicate Reduces(a: Action, rule: int) { a.kind == Reduce && a.arg == rule }

  /** How many symbols from index i on are reduced by the rule. */
  function Count(list: seq<Action>, rule: int, i: nat): (n: nat)
    requires i <= |list|
    decreases |list| - i
  {
    if i == |list| then 0 else (if Reduces(list[i], rule) then 1 else 0) + Count(list, rule, i + 1)
  }

  lemma {:induction false} CountSkip(list: seq<Action>, rule: int, i: nat)
    requires i <= |list|
    ensures Count(list, rule, i) <= Count(list, rule, 0)
    ensures (forall k :: 0 <= k < i ==> !Reduces(list[k], rule)) ==> Count(list, rule, i) == Count(list, rule, 0)
  {
    if i > 0 { CountSkip(list, rule, i - 1); }
  }

  lemma {:induction false} CountPositive(list: seq<Action>, rule: int, i: nat)
    requires i <= |list| && Count(list, rule, i) > 0
    ensures exists k :: i <= k < |list| && Reduces(list[k], rule)
    decreases |list| - i
  {
    if !Reduces(list[i], rule) { CountPositive(list, rule, i + 1); }
  }

  /** The inner loop: occurrences of the rule of action i, from i on. */
  method CountFrom(list: seq<Action>, i: nat, rbest: Option<int>) returns (n: nat)
    requires i < |list| && list[i].kind == Reduce && rbest != Some(list[i].arg)
    ensures n == Count(list, list[i].arg, i)
  {
    n := 1;
    var k := i + 1;
    while k < |list|
      invariant i < k <= |list| && n + Count(list, list[i].arg, k) == Count(list, list[i].arg, i)
    {
      if list[k].kind == Reduce && rbest != Some(list[k].arg) && list[k].arg == list[i].arg { n := n + 1; }
      k := k + 1;
    }
  }

  /** The rule reduced by most often, and how often; 0 if nothing is reduced. */
  method MostFrequent(list: seq<Action>) returns (rbest: Option<int>, nbest: nat)
    ensures forall rule :: Count(list, rule, 0) <= nbest
    ensures if nbest == 0 then rbest == None else rbest.Some? && Count(list, rbest.value, 0) == nbest
  {
    rbest, nbest := None, 0;
    var i := 0;
    while i < |list|
      invariant 0 <= i <= |list|
      invariant if nbest == 0 then rbest == None else rbest.Some? && Count(list, rbest.value, 0) == nbest
      invariant forall x :: 0 <= x < i && list[x].kind == Reduce ==> Count(list, list[x].arg, 0) <= nbest
    {
      if list[i].kind == Reduce && rbest != Some(list[i].arg) {
        var n := CountFrom(list, i, rbest);
        CountSkip(list, list[i].arg, i);
        if n > nbest {
          assert forall x :: 0 <= x < i ==> !Reduces(list[x], list[i].arg);
          nbest, rbest := n, Some(list[i].arg);
        }
      }
      i := i + 1;
    }
    forall rule ensures Count(list, rule, 0) <= nbest {
      if Count(list, rule, 0) > 0 { CountPositive(list, rule, 0); }
    }
  }

  function Merged(a: Action, rule: int, nsymbol: int, first: bool): Action {
    if !Reduces(a, rule) then a else if first then a.(symbol := nsymbol) else a.(kind := NotUsed)
  }

  /** The list with its reduces by `rule` merged into one default at index `first`. */
  ghost predicate Defaulted(list: seq<Action>, list': seq<Action>, rule: int, nsymbol: int, first: nat) {
    && |list'| == |list| && first < |list| && Reduces(list[first], rule)
    && forall k :: 0 <= k < |list| ==> list'[k] == Merged(list[k], rule, nsymbol, k == first)
  }

  lemma DefaultedUnambiguous(list: seq<Action>, list': seq<Action>, rule: int, nsymbol: int, first: nat)
    requires Unambiguous(list) && (forall k :: 0 <= k < |list| ==> list[k].symbol < nsymbol)
    requires Defaulted(list, list', rule, nsymbol, first)
    ensures Unambiguous(list') && Find(list', nsymbol) == Some(Action(Reduce, nsymbol, rule))
  {
    assert list'[first] == Action(Reduce, nsymbol, rule) && list'[first] in list';
    FindMember(list', Action(Reduce, nsymbol, rule));
  }

  lemma DefaultedFind(list: seq<Action>, list': seq<Action>, rule: int, nsymbol: int, first: nat, symbol: int)
    requires Unambiguous(list) && Unambiguous(list') && symbol < nsymbol
    requires Defaulted(list, list', rule, nsymbol, first)
    ensures Find(list', symbol) == match Find(list, symbol)
                                   case Some(a) => if Reduces(a, rule) then None else Some(a)
                                   case None => None
  {
    match Find(list', symbol) {
      case Some(b) =>
        var k :| 0 <= k < |list'| && list'[k] == b;
        assert list'[k] == Merged(list[k], rule, nsymbol, k == first);
        FindMember(list, b);
      case None =>
        if Find(list, symbol).Some? {
          var a := Find(list, symbol).value;
          var k :| 0 <= k < |list| && list[k] == a;
          assert list'[k] == Merged(a, rule, nsymbol, k == first) && list'[k] in list';
        }
    }
  }

  /** Merging keeps every move and turns the errors into the default. */
  lemma DefaultedMoves(list: seq<Action>, list': seq<Action>, rule: int, nsymbol: int, first: nat, symbol: int)
    requires Unambiguous(list) && (forall k :: 0 <= k < |list| ==> list[k].symbol < nsymbol)
    requires Defaulted(list, list', rule, nsymbol, first) && symbol < nsymbol
    ensures MoveOn(list', nsymbol, symbol) ==
      if MoveOn(list, nsymbol, symbol).Some? then MoveOn(list, nsymbol, symbol) else Some(Move(Reduce, rule))
  {
    DefaultedUnambiguous(list, list', rule, nsymbol, first);
    DefaultedFind(list, list', rule, nsymbol, first, symbol);
  }

  /** What compressing promises about one state. */
  ghost predicate Compressed(before: seq<Action>, after: seq<Action>, nsymbol: int, symbol: int) {
    var was, now := MoveOn(before, nsymbol, symbol), MoveOn(after, nsymbol, symbol);
    if was.Some? then now == was
    else if forall rule :: Count(before, rule, 0) < 2 then now == None
    else
      && now.Some? && now.value.kind == Reduce
      && forall rule :: Count(before, rule, 0) <= Count(before, now.value.arg, 0)
  }

  /** Compressing only moves an action to the default symbol or switches it off. */
  predicate Derived(a: Action, b: Action, nsymbol: int) {
    b.arg == a.arg && (b.symbol == a.symbol || b.symbol == nsymbol) && (b.kind == a.kind || b.kind == NotUsed)
  }

  /** Combines the reduces by one rule into a default. */
  method Combine(st: State, rule: int, nsymbol: int) returns (ghost first: nat)
    requires Count(st.ap, rule, 0) > 0
    modifies st
    ensures Defaulted(old(st.ap), st.ap, rule, nsymbol, first)
  {
    ghost var list := st.ap;
    var i := 0;
    CountPositive(st.ap, rule, 0);
    while !Reduces(st.ap[i], rule)
      invariant 0 <= i < |st.ap| && st.ap == list
      invariant exists k :: i <= k < |st.ap| && Reduces(st.ap[k], rule)
      invariant forall k :: 0 <= k < i ==> !Reduces(st.ap[k], rule)
      decreases |st.ap| - i
    {
      i := i + 1;
    }
    first := i;
    st.ap := st.ap[i := st.ap[i].(symbol := nsymbol)];
    i := i + 1;
    while i < |st.ap|
      invariant first < i <= |st.ap| == |list|
      invariant forall k :: i <= k < |list| ==> st.ap[k] == list[k]
      invariant forall k :: 0 <= k < i ==> st.ap[k] == Merged(list[k], rule, nsymbol, k == first)
    {
      if Reduces(st.ap[i], rule) { st.ap := st.ap[i := st.ap[i].(kind := NotUsed)]; }
      i := i + 1;
    }
  }

  /** CompressTables, one state. */
  method Compress(st: State, nsymbol: int)
    requires Unambiguous(st.ap) && (forall k :: 0 <= k < |st.ap| ==> st.ap[k].symbol < nsymbol) && |st.ap| < 1073741824
    modifies st
    ensures Unambiguous(st.ap)
    ensures forall symbol :: symbol < nsymbol ==> Compressed(old(st.ap), st.ap, nsymbol, symbol)
    ensures forall b :: b in st.ap ==> exists a :: a in old(st.ap) && Derived(a, b, nsymbol)
  {
    var rbest, nbest := MostFrequent(st.ap);
    ghost var list := st.ap;
    if nbest < 2 {
      assert forall b :: b in st.ap ==> Derived(b, b, nsymbol);
      return;
    }
    ghost var first := Combine(st, rbest.value, nsymbol);
    ghost var merged := st.ap;
    DefaultedUnambiguous(list, merged, rbest.value, nsymbol, first);
    SortKeepsMoves(merged);
    ActionOrder();
    SortIsPermutation(ActionLess, merged);
    st.ap := Sort(ActionLess, st.ap);
    forall b | b in st.ap ensures exists a :: a in list && Derived(a, b, nsymbol) {
      assert b in multiset(st.ap) && b in multiset(merged);
      var k :| 0 <= k < |merged| && merged[k] == b;
      assert list[k] in list && Derived(list[k], b, nsymbol);
    }
    forall symbol | symbol < nsymbol ensures Compressed(list, st.ap, nsymbol, symbol) {
      DefaultedMoves(list, merged, rbest.value, nsymbol, first, symbol);
    }
  }
}
