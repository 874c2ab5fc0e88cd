/**
 * The parser actions of one LR state (lemon.c): conflict resolution leaves at most one
 * usable action per symbol, and table compression replaces the most frequent reduce by a
 * default without changing any move the state can make.
 */
module LemonActions {
  import opened Options
  import opened MergeSort

  /** enum e_action, in order. */
  datatype Kind = Shift | Accept | Reduce | Error | Conflict | ShResolved | RdResolved | NotUsed

  /** `arg` is the new state of a shift or the rule of a reduce. */
  datatype Action = Action(kind: Kind, symbol: int, arg: int)

  function Rank(k: Kind): nat {
    match k
    case Shift => 0 case Accept => 1 case Reduce => 2 case Error => 3
    case Conflict => 4 case ShResolved => 5 case RdResolved => 6 case NotUsed => 7
  }

  predicate Usable(a: Action) { Rank(a.kind) <= 3 }

  /** actioncmp(a, b) < 0: by symbol, then kind, then rule. */
  predicate ActionLess(a: Action, b: Action) {
    a.symbol < b.symbol || (a.symbol == b.symbol &&
      (Rank(a.kind) < Rank(b.kind) || (Rank(a.kind) == Rank(b.kind) && a.arg < b.arg)))
  }

  lemma ActionOrder()
    ensures Preorder(ActionLess)
  {
  }

  // ----- what a list of actions says -----

  /** The first usable action on a symbol. */
  function Find(list: seq<Action>, symbol: int): (r: Option<Action>)
    ensures r.Some? ==> r.value in list && Usable(r.value) && r.value.symbol == symbol
    ensures r.None? ==> forall a :: a in list && Usable(a) ==> a.symbol != symbol
  {
    if list == [] then None
    else if list[0].symbol == symbol && Usable(list[0]) then Some(list[0])
    else Find(list[1..], symbol)
  }

  ghost predicate Unambiguous(list: seq<Action>) {
    forall i, j :: 0 <= i < j < |list| && Usable(list[i]) && Usable(list[j]) ==> list[i].symbol != list[j].symbol
  }

  lemma {:induction false} FindMember(list: seq<Action>, a: Action)
    requires Unambiguous(list) && a in list && Usable(a)
    ensures Find(list, a.symbol) == Some(a)
  {
    var b := Find(list, a.symbol).value;
    var i :| 0 <= i < |list| && list[i] == a;
    var j :| 0 <= j < |list| && list[j] == b;
  }

  /** In an unambiguous list the order does not matter. */
  lemma FindIgnoresOrder(l1: seq<Action>, l2: seq<Action>, symbol: int)
    requires Unambiguous(l1) && Unambiguous(l2) && multiset(l1) == multiset(l2)
    ensures Find(l1, symbol) == Find(l2, symbol)
  {
    assert forall a :: a in l1 <==> a in multiset(l1);
    assert forall a :: a in l2 <==> a in multiset(l2);
    match Find(l1, symbol)
    case Some(a) => FindMember(l2, a);
    case None =>
  }

  /** Unambiguity only depends on which actions there are, and how often. */
  lemma UnambiguousCount(list: seq<Action>)
    ensures Unambiguous(list) <==>
      forall a, b :: a in list && b in list && Usable(a) && Usable(b) && a.symbol == b.symbol ==>
        a == b && multiset(list)[a] == 1
  {
    if Unambiguous(list) {
      forall a, b | a in list && b in list && Usable(a) && Usable(b) && a.symbol == b.symbol
        ensures a == b && multiset(list)[a] == 1
      {
        FindMember(list, a);
        FindMember(list, b);
        var i :| 0 <= i < |list| && list[i] == a;
        Occurrence(list, i);
      }
    } else {
      var i, j :| 0 <= i < j < |list| && Usable(list[i]) && Usable(list[j]) && list[i].symbol == list[j].symbol;
      if list[i] == list[j] { TwoOccurrences(list, i, j); }
      assert list[i] in list && list[j] in list;
    }
  }

  lemma Occurrence(list: seq<Action>, i: nat)
    requires i < |list| && forall j :: 0 <= j < |list| && j != i ==> list[j] != list[i]
    ensures multiset(list)[list[i]] == 1
  {
    assert list == list[..i] + [list[i]] + list[i + 1..];
    assert list[i] !in list[..i] && list[i] !in list[i + 1..];
  }

  lemma TwoOccurrences(list: seq<Action>, i: nat, j: nat)
    requires i < j < |list| && list[i] == list[j]
    ensures multiset(list)[list[i]] >= 2
  {
    assert list == list[..j] + [list[j]] + list[j + 1..];
    assert list[i] in list[..j];
  }

  lemma SortKeepsMoves(list: seq<Action>)
    requires Unambiguous(list) && |list| < 1073741824
    ensures Unambiguous(Sort(ActionLess, list))
    ensures forall symbol :: Find(Sort(ActionLess, list), symbol) == Find(list, symbol)
  {
    ActionOrder();
    var s := Sort(ActionLess, list);
    SortIsPermutation(ActionLess, list);
    assert forall a :: a in list <==> a in multiset(list);
    assert forall a :: a in s <==> a in multiset(s);
    UnambiguousCount(list);
    UnambiguousCount(s);
    forall symbol ensures Find(s, symbol) == Find(list, symbol) {
      FindIgnoresOrder(s, list, symbol);
    }
  }

  // ----- conflict resolution -----

  datatype Assoc = LEFT | RIGHT | NONE

  /** A negative level means that no precedence was declared. */
  datatype Prec = Prec(level: int, assoc: Assoc)

  /** Precedence of each symbol, and of the precedence symbol of each rule that has one. */
  datatype Precedences = Precedences(symbol: int -> Prec, rule: int -> Option<Prec>)

  /** resolve_conflict: the two actions afterwards, and whether the conflict is reported. */
  function ResolveConflict(g: Precedences, x: Action, y: Action): (r: (Action, Action, bool))
    ensures r.0.symbol == x.symbol && r.0.arg == x.arg && r.1.symbol == y.symbol && r.1.arg == y.arg
    ensures Fights(x, y) ==>
      (r.0 == x && !Usable(r.1)) || (!Usable(r.0) && r.1 == y)
    ensures !Fights(x, y) ==> r.0 == x && r.1 == y
    ensures r.2 <==> r.1.kind == Conflict && Fights(x, y)
  {
    var spx := if x.kind == Shift then Some(g.symbol(x.symbol)) else g.rule(x.arg);
    var spy := g.rule(y.arg);
    if x.kind == Shift && y.kind == Reduce then
      if spy.None? || spx.value.level < 0 || spy.value.level < 0 then (x, y.(kind := Conflict), true)
      else if spx.value.level > spy.value.level then (x, y.(kind := RdResolved), false)
      else if spx.value.level < spy.value.level then (x.(kind := ShResolved), y, false)
      else if spx.value.assoc == RIGHT then (x, y.(kind := RdResolved), false)
      else if spx.value.assoc == LEFT then (x.(kind := ShResolved), y, false)
      else (x, y.(kind := Conflict), true)
    else if x.kind == Reduce && y.kind == Reduce then
      if spx.None? || spy.None? || spx.value.level < 0 || spy.value.level < 0 || spx.value.level == spy.value.level then
        (x, y.(kind := Conflict), true)
      else if spx.value.level > spy.value.level then (x, y.(kind := RdResolved), false)
      else (x.(kind := RdResolved), y, false)
    else (x, y, false)
  }

  predicate Fights(x: Action, y: Action) {
    (x.kind == Shift || x.kind == Reduce) && y.kind == Reduce
  }

  /** What the state builder produces: on one symbol, any number of reduces and at most one
      shift; the accept action stands alone on the start symbol. */
  ghost predicate Built(list: seq<Action>) {
    && (forall i :: 0 <= i < |list| ==> list[i].kind in {Shift, Accept, Reduce})
    && forall i, j :: 0 <= i < |list| && 0 <= j < |list| && i != j && list[i].symbol == list[j].symbol ==>
      Fights(list[i], list[j]) || Fights(list[j], list[i])
  }

  /** An action as it was, or one that lost. */
  predicate Weakened(old0: Action, now: Action) {
    now == old0 || (!Usable(now) && now.symbol == old0.symbol && now.arg == old0.arg)
  }

  // ----- who wins -----

  /** The declared precedence of an action: that of its symbol for a shift, that of its rule
      for a reduce. */
  function LevelOf(g: Precedences, a: Action): Option<int> {
    if a.kind == Shift then (if g.symbol(a.symbol).level < 0 then None else Some(g.symbol(a.symbol).level))
    else if g.rule(a.arg).None? || g.rule(a.arg).value.level < 0 then None
    else Some(g.rule(a.arg).value.level)
  }

  predicate Above(g: Precedences, a: Action, b: Action) {
    LevelOf(g, a).Some? && LevelOf(g, b).Some? && LevelOf(g, a).value > LevelOf(g, b).value
  }

  /** The higher precedence wins whichever action comes first.  On equal precedence of a shift
      and a reduce associativity decides; in every other case the first action stays and a
      conflict is reported. */
  lemma PrecedenceDecides(g: Precedences, x: Action, y: Action)
    requires Fights(x, y)
    ensures var r := ResolveConflict(g, x, y);
            && (Above(g, x, y) ==> r.0 == x && !r.2)
            && (Above(g, y, x) ==> r.1 == y && !r.2)
            && (!Above(g, x, y) && !Above(g, y, x) ==>
                 var tie := x.kind == Shift && LevelOf(g, x).Some? && LevelOf(g, y).Some?;
                 && (r.1 == y <==> tie && g.symbol(x.symbol).assoc == LEFT)
                 && (r.2 <==> !tie || g.symbol(x.symbol).assoc == NONE))
  {
  }

  /** The action stands above every other one on its symbol. */
  ghost predicate Champion(g: Precedences, list: seq<Action>, a: Action) {
    a in list && forall b :: b in list && b.symbol == a.symbol && b != a ==> Above(g, a, b)
  }

  /** x, which comes first, is switched off by y: y has the higher precedence, or they tie, x is
      the shift and its symbol is left associative. */
  predicate Loses(g: Precedences, x: Action, y: Action) {
    || Above(g, y, x)
    || (!Above(g, x, y) && x.kind == Shift && LevelOf(g, x).Some? && LevelOf(g, y).Some? &&
        g.symbol(x.symbol).assoc == LEFT)
  }

  /** The action left when each challenges in turn the one left so far. */
  function Standing(g: Precedences, order: seq<Action>): (a: Action)
    requires order != []
    ensures a in order
  {
    var n := |order| - 1;
    if n == 0 then order[0] else
      var x := Standing(g, order[..n]);
      if Loses(g, x, order[n]) then order[n] else x
  }

  /** The shift stands in front of the reduces, and the reduces by their rule numbers. */
  predicate InLine(x: Action, y: Action) {
    y.kind == Reduce && (x.kind != Reduce || x.arg <= y.arg)
  }

  ghost predicate Line(order: seq<Action>) {
    forall i, j :: 0 <= i < j < |order| ==> InLine(order[i], order[j])
  }

  /** The actions on a symbol in that order. */
  ghost predicate Lineup(list: seq<Action>, symbol: int, order: seq<Action>) {
    && Line(order)
    && forall a :: multiset(order)[a] == if a.symbol == symbol then multiset(list)[a] else 0
  }

  /** The action kept on a symbol is the one left standing. */
  ghost predicate Outcome(g: Precedences, before: seq<Action>, after: seq<Action>, symbol: int) {
    exists order :: order != [] && Lineup(before, symbol, order) && Find(after, symbol) == Some(Standing(g, order))
  }

  lemma LineupMembers(list: seq<Action>, symbol: int, order: seq<Action>, a: Action)
    requires Lineup(list, symbol, order)
    ensures a in order <==> a in list && a.symbol == symbol
  {
    assert a in order <==> multiset(order)[a] > 0;
    assert a in list <==> multiset(list)[a] > 0;
  }

  /** There is only one such order. */
  lemma {:induction false} LineupIsUnique(list: seq<Action>, symbol: int, p: seq<Action>, q: seq<Action>)
    requires Lineup(list, symbol, p) && Lineup(list, symbol, q)
    ensures p == q
  {
    forall a ensures multiset(p)[a] == multiset(q)[a] { }
    assert multiset(p) == multiset(q);
    forall a | a in p ensures a.symbol == symbol { LineupMembers(list, symbol, p, a); }
    SameLine(symbol, p, q);
  }

  ghost predicate AllOn(order: seq<Action>, symbol: int) { forall a :: a in order ==> a.symbol == symbol }

  lemma {:induction false} SameLine(symbol: int, p: seq<Action>, q: seq<Action>)
    requires multiset(p) == multiset(q) && AllOn(p, symbol) && Line(p) && Line(q)
    ensures p == q
  {
    assert |p| == |multiset(p)| && |q| == |multiset(q)|;
    if p != [] {
      LastInLine(p, q, symbol);
      WithoutLast(p);
      WithoutLast(q);
      SameLine(symbol, p[..|p| - 1], q[..|q| - 1]);
    }
  }

  lemma WithoutLast(p: seq<Action>)
    requires p != [] && Line(p)
    ensures Line(p[..|p| - 1])
    ensures multiset(p[..|p| - 1]) == multiset(p) - multiset{p[|p| - 1]} && p == p[..|p| - 1] + [p[|p| - 1]]
  {
    assert p == p[..|p| - 1] + [p[|p| - 1]];
  }

  lemma LastInLine(p: seq<Action>, q: seq<Action>, symbol: int)
    requires multiset(p) == multiset(q) && |p| == |q| > 0 && AllOn(p, symbol) && Line(p) && Line(q)
    ensures p[|p| - 1] == q[|q| - 1]
  {
    var n := |p| - 1;
    var a, b := p[n], q[n];
    assert a in multiset(q) && b in multiset(p);
    var i :| 0 <= i < |q| && q[i] == a;
    var j :| 0 <= j < |p| && p[j] == b;
    assert i < n ==> InLine(a, b);
    assert j < n ==> InLine(b, a);
  }

  // ----- what that means -----

  lemma {:induction false} NobodyBeats(g: Precedences, order: seq<Action>, k: nat, n: nat)
    requires k < n <= |order| && Standing(g, order[..k + 1]) == order[k]
    requires forall j :: k < j < n ==> !Loses(g, order[k], order[j])
    ensures Standing(g, order[..n]) == order[k]
    decreases n
  {
    if n > k + 1 {
      NobodyBeats(g, order, k, n - 1);
      assert order[..n][..n - 1] == order[..n - 1];
    }
  }

  /** A shift that no reduce wins against is kept. */
  lemma ShiftStays(g: Precedences, before: seq<Action>, after: seq<Action>, a: Action)
    requires Outcome(g, before, after, a.symbol) && a in before && a.kind == Shift
    requires forall b :: b in before && b.symbol == a.symbol ==> !Loses(g, a, b)
    ensures Find(after, a.symbol) == Some(a)
  {
    var order :| order != [] && Lineup(before, a.symbol, order) && Find(after, a.symbol) == Some(Standing(g, order));
    forall b ensures b in order <==> b in before && b.symbol == a.symbol { LineupMembers(before, a.symbol, order, b); }
    ShiftStands(g, order, a);
  }

  lemma ShiftStands(g: Precedences, order: seq<Action>, a: Action)
    requires Line(order) && a in order && a.kind == Shift && forall b :: b in order ==> !Loses(g, a, b)
    ensures Standing(g, order) == a
  {
    var k :| 0 <= k < |order| && order[k] == a;
    assert k > 0 ==> InLine(order[0], order[k]);
    forall j | 0 < j < |order| ensures !Loses(g, a, order[j]) { assert order[j] in order; }
    assert order[..1] == [order[0]] && order[..|order|] == order;
    NobodyBeats(g, order, 0, |order|);
  }

  /** The reduces are ordered by their rules. */
  lemma FirstReduce(order: seq<Action>, k: nat, m: nat)
    requires Line(order) && k <= 1 && k <= m < |order| && order[m].kind == Reduce
    requires k == 0 ==> order[0].kind == Reduce
    requires forall b :: b in order && b.kind == Reduce ==> order[m].arg <= b.arg
    requires AllOn(order, order[m].symbol)
    ensures order[k] == order[m]
  {
    if k < m {
      assert InLine(order[k], order[m]);
      if k == 1 { assert InLine(order[0], order[1]); }
      assert order[k] in order;
    }
  }

  /** Of reduces that precedence does not separate, the one by the rule with the smallest number
      is kept, unless there is a shift that it does not win against. */
  lemma SmallestRuleStays(g: Precedences, before: seq<Action>, after: seq<Action>, a: Action)
    requires Outcome(g, before, after, a.symbol) && a in before && a.kind == Reduce
    requires forall b :: b in before && b.symbol == a.symbol && b.kind == Reduce ==> a.arg <= b.arg && !Above(g, b, a)
    requires forall b :: b in before && b.symbol == a.symbol && b.kind != Reduce ==> Loses(g, b, a)
    ensures Find(after, a.symbol) == Some(a)
  {
    var order :| order != [] && Lineup(before, a.symbol, order) && Find(after, a.symbol) == Some(Standing(g, order));
    forall b ensures b in order <==> b in before && b.symbol == a.symbol { LineupMembers(before, a.symbol, order, b); }
    SmallestStands(g, order, a);
  }

  lemma SmallestStands(g: Precedences, order: seq<Action>, a: Action)
    requires Line(order) && AllOn(order, a.symbol) && a in order && a.kind == Reduce
    requires forall b :: b in order && b.kind == Reduce ==> a.arg <= b.arg && !Above(g, b, a)
    requires forall b :: b in order && b.kind != Reduce ==> Loses(g, b, a)
    ensures Standing(g, order) == a
  {
    var m :| 0 <= m < |order| && order[m] == a;
    var k := if order[0].kind == Reduce then 0 else 1;
    FirstReduce(order, k, m);
    assert order[..1] == [order[0]] && order[..|order|] == order;
    if k == 1 { assert order[..2][..1] == order[..1] && order[0] in order; }
    forall j | k < j < |order| ensures !Loses(g, order[k], order[j]) {
      assert InLine(order[k], order[j]) && order[j] in order;
    }
    NobodyBeats(g, order, k, |order|);
  }

  /** The champion is left standing. */
  lemma ChampionStays(g: Precedences, before: seq<Action>, after: seq<Action>, a: Action)
    requires Champion(g, before, a) && Outcome(g, before, after, a.symbol)
    ensures Find(after, a.symbol) == Some(a)
  {
    var order :| order != [] && Lineup(before, a.symbol, order) && Find(after, a.symbol) == Some(Standing(g, order));
    forall b ensures b in order <==> b in before && b.symbol == a.symbol { LineupMembers(before, a.symbol, order, b); }
    ChampionStands(g, order, a);
  }

  lemma {:induction false} ChampionStands(g: Precedences, order: seq<Action>, a: Action)
    requires a in order && forall b :: b in order && b != a ==> Above(g, a, b)
    ensures Standing(g, order) == a
  {
    var n := |order| - 1;
    if n > 0 {
      if a in order[..n] { ChampionStands(g, order[..n], a); }
      assert order == order[..n] + [order[n]];
    }
  }
}
