/**
 * Conflict resolution in the actions of one state (lemon.c, FindActions): the sorted list is
 * walked by two nested loops, and every two actions on a symbol fight.  Who is left is what a
 * line of challengers leaves standing.
 */
module LemonResolve {
  import opened Options
  import opened MergeSort
  import opened LemonActions

  /** What the state builder produces, once sorted. */
  ghost predicate Contested(list: seq<Action>) {
    && (forall i :: 0 <= i < |list| ==> list[i].kind in {Shift, Accept, Reduce})
    && (forall i, j :: 0 <= i < j < |list| ==> list[i].symbol <= list[j].symbol)
    && forall i, j :: 0 <= i < j < |list| && list[i].symbol == list[j].symbol ==> Fights(list[i], list[j])
  }

  /** The index of the action left standing among those on the symbol of action k, up to k. */
  function Stands(g: Precedences, list: seq<Action>, k: nat): (i: nat)
    requires k < |list|
    ensures i <= k && list[i].symbol == list[k].symbol
  {
    if k == 0 || list[k - 1].symbol != list[k].symbol then k else
      var i := Stands(g, list, k - 1);
      if Loses(g, list[i], list[k]) then k else i
  }

  /** Who stands later stood before. */
  lemma {:induction false} StoodBefore(g: Precedences, list: seq<Action>, j: nat, k: nat)
    requires Contested(list) && j <= k < |list| && list[j].symbol == list[k].symbol && Stands(g, list, k) <= j
    ensures Stands(g, list, j) == Stands(g, list, k)
  {
    if j < k { StoodBefore(g, list, j, k - 1); }
  }

  ghost predicate Wins(g: Precedences, list: seq<Action>, k: nat)
    requires k < |list|
  {
    forall j :: k <= j < |list| && list[j].symbol == list[k].symbol ==> Stands(g, list, j) == k
  }

  /** Action k has not been switched off when the fights before that of i and j are over. */
  ghost predicate Alive(g: Precedences, list: seq<Action>, i: nat, j: nat, k: nat)
    requires k < |list| && i < j && (i < |list| ==> j <= |list|)
  {
    if k < i then Wins(g, list, k)
    else if k == i then Stands(g, list, j - 1) == i
    else (i > 0 ==> Stands(g, list, k) != Stands(g, list, i - 1)) && (k < j ==> Stands(g, list, k) != i)
  }

  /** Action k is as it was, or has lost. */
  ghost predicate FoughtAt(g: Precedences, list0: seq<Action>, list: seq<Action>, i: nat, j: nat, k: nat)
    requires k < |list0| == |list| && i < j && (i < |list0| ==> j <= |list0|)
  {
    Weakened(list0[k], list[k]) && (Usable(list[k]) <==> Alive(g, list0, i, j, k))
  }

  /** The state of the resolution loops. */
  ghost predicate Fought(g: Precedences, list0: seq<Action>, list: seq<Action>, i: nat, j: nat) {
    && |list| == |list0| && i < j && (i < |list0| ==> j <= |list0| && list0[j - 1].symbol == list0[i].symbol)
    && forall k :: 0 <= k < |list| ==> FoughtAt(g, list0, list, i, j, k)
  }

  lemma FoughtStart(g: Precedences, list: seq<Action>)
    requires Contested(list)
    ensures Fought(g, list, list, 0, 1)
  {
    forall k | 0 <= k < |list| ensures FoughtAt(g, list, list, 0, 1, k) { }
  }

  /** A fight between two actions that are alive. */
  lemma Duel(g: Precedences, x: Action, y: Action)
    requires Fights(x, y)
    ensures var r := ResolveConflict(g, x, y);
            if Loses(g, x, y) then !Usable(r.0) && r.1 == y else r.0 == x && !Usable(r.1)
  {
    PrecedenceDecides(g, x, y);
  }

  /** An action that has been switched off does not fight. */
  lemma NoDuel(g: Precedences, x: Action, y: Action)
    requires !Usable(x) || !Usable(y)
    ensures var r := ResolveConflict(g, x, y); r.0 == x && r.1 == y
  {
  }

  /** What one fight changes. */
  lemma AliveAfter(g: Precedences, list: seq<Action>, i: nat, j: nat)
    requires Contested(list) && i < j < |list| && list[j - 1].symbol == list[i].symbol == list[j].symbol
    ensures if Stands(g, list, j - 1) == i
            then && Alive(g, list, i, j, i) && Alive(g, list, i, j, j)
                 && (Alive(g, list, i, j + 1, i) <==> !Loses(g, list[i], list[j]))
                 && (Alive(g, list, i, j + 1, j) <==> Loses(g, list[i], list[j]))
            else && !Alive(g, list, i, j, i) && !Alive(g, list, i, j + 1, i)
                 && (Alive(g, list, i, j + 1, j) <==> Alive(g, list, i, j, j))
  {
    var s, s' := Stands(g, list, j - 1), Stands(g, list, j);
    assert s' == if Loses(g, list[s], list[j]) then j else s;
    if i > 0 { assert Stands(g, list, i - 1) <= i - 1; }
  }

  lemma FightPair(g: Precedences, list0: seq<Action>, list: seq<Action>, i: nat, j: nat, r: (Action, Action, bool))
    requires Contested(list0) && |list| == |list0| && i < j < |list|
    requires list0[j - 1].symbol == list0[i].symbol == list0[j].symbol
    requires FoughtAt(g, list0, list, i, j, i) && FoughtAt(g, list0, list, i, j, j)
    requires r == ResolveConflict(g, list[i], list[j])
    ensures Weakened(list0[i], r.0) && (Usable(r.0) <==> Alive(g, list0, i, j + 1, i))
    ensures Weakened(list0[j], r.1) && (Usable(r.1) <==> Alive(g, list0, i, j + 1, j))
  {
    AliveAfter(g, list0, i, j);
    if Usable(list[i]) && Usable(list[j]) {
      assert Fights(list0[i], list0[j]);
      Duel(g, list[i], list[j]);
    } else {
      NoDuel(g, list[i], list[j]);
    }
  }

  lemma FightOne(g: Precedences, list0: seq<Action>, list: seq<Action>, i: nat, j: nat)
    requires Contested(list0) && Fought(g, list0, list, i, j) && j < |list| && list[i].symbol == list[j].symbol
    ensures var r := ResolveConflict(g, list[i], list[j]);
            Fought(g, list0, list[i := r.0][j := r.1], i, j + 1)
  {
    var r := ResolveConflict(g, list[i], list[j]);
    var list' := list[i := r.0][j := r.1];
    assert FoughtAt(g, list0, list, i, j, i) && FoughtAt(g, list0, list, i, j, j);
    FightPair(g, list0, list, i, j, r);
    var next := j + 1;
    forall k | 0 <= k < |list'| ensures FoughtAt(g, list0, list', i, next, k) {
      assert FoughtAt(g, list0, list, i, j, k);
    }
  }

  /** The row of i is over. */
  lemma FightRow(g: Precedences, list0: seq<Action>, list: seq<Action>, i: nat, j: nat)
    requires Contested(list0) && Fought(g, list0, list, i, j) && i < |list|
    requires j < |list| ==> list[j].symbol != list[i].symbol
    ensures Fought(g, list0, list, i + 1, i + 2)
  {
    assert FoughtAt(g, list0, list, i, j, i) && (j < |list| ==> FoughtAt(g, list0, list, i, j, j));
    var row, first := i + 1, i + 2;
    forall k | 0 <= k < |list| ensures FoughtAt(g, list0, list, row, first, k) {
      assert FoughtAt(g, list0, list, i, j, k);
      RowOver(g, list0, i, j, k);
    }
  }

  lemma RowOver(g: Precedences, list: seq<Action>, i: nat, j: nat, k: nat)
    requires Contested(list) && i < j <= |list| && k < |list|
    requires list[j - 1].symbol == list[i].symbol && (j < |list| ==> list[j].symbol != list[i].symbol)
    ensures Alive(g, list, i, j, k) <==> Alive(g, list, i + 1, i + 2, k)
  {
    if k == i {
      LastDecides(g, list, i, j);
    } else if k > i {
      if i > 0 { StandsAfter(g, list, i - 1, i, k); }
      StandsAfter(g, list, i, i, k);
      assert k >= j ==> list[k].symbol != list[i].symbol;
    }
  }

  /** Who stands at the end of its row has won. */
  lemma LastDecides(g: Precedences, list: seq<Action>, i: nat, j: nat)
    requires Contested(list) && i < j <= |list|
    requires list[j - 1].symbol == list[i].symbol && (j < |list| ==> list[j].symbol != list[i].symbol)
    ensures Stands(g, list, j - 1) == i <==> Wins(g, list, i)
  {
    if Stands(g, list, j - 1) == i {
      forall k | i <= k < |list| && list[k].symbol == list[i].symbol ensures Stands(g, list, k) == i {
        assert k < j;
        StoodBefore(g, list, k, j - 1);
      }
    }
  }

  /** If the one that stood at h still stands at k, it stood at i. */
  lemma StandsAfter(g: Precedences, list: seq<Action>, h: nat, i: nat, k: nat)
    requires Contested(list) && h <= i <= k < |list|
    ensures Stands(g, list, k) == Stands(g, list, h) ==> Stands(g, list, i) == Stands(g, list, h)
    ensures Stands(g, list, k) == i ==> Stands(g, list, i) == i
  {
    assert list[h].symbol <= list[i].symbol <= list[k].symbol;
    if Stands(g, list, k) == Stands(g, list, h) || Stands(g, list, k) == i { StoodBefore(g, list, i, k); }
  }

  // ----- the outcome -----

  /** When all fights are over, exactly the winners are usable. */
  lemma WinnerIsAlone(g: Precedences, list: seq<Action>, i: nat, k: nat)
    requires Contested(list) && i < |list| && k < |list| && list[i].symbol == list[k].symbol
    requires Wins(g, list, i) && Wins(g, list, k)
    ensures i == k
  {
    var m := if i < k then k else i;
    assert Stands(g, list, m) == i && Stands(g, list, m) == k;
  }

  /** The last action on the symbol of action k, and the first one. */
  lemma {:induction false} LastOn(list: seq<Action>, k: nat) returns (m: nat)
    requires Contested(list) && k < |list|
    ensures k <= m < |list| && list[m].symbol == list[k].symbol
    ensures m + 1 < |list| ==> list[m + 1].symbol != list[k].symbol
    decreases |list| - k
  {
    if k + 1 < |list| && list[k + 1].symbol == list[k].symbol { m := LastOn(list, k + 1); } else { m := k; }
  }

  lemma {:induction false} FirstOn(list: seq<Action>, k: nat) returns (m: nat)
    requires Contested(list) && k < |list|
    ensures m <= k && list[m].symbol == list[k].symbol && (m > 0 ==> list[m - 1].symbol != list[k].symbol)
  {
    if k > 0 && list[k - 1].symbol == list[k].symbol { m := FirstOn(list, k - 1); } else { m := k; }
  }

  /** Actions m to k are on the symbol. */
  ghost predicate Together(list: seq<Action>, m: nat, k: nat, symbol: int) {
    m <= k < |list| && forall i :: m <= i <= k ==> list[i].symbol == symbol
  }

  lemma StandTogether(list: seq<Action>, m: nat, k: nat)
    requires Contested(list) && m <= k < |list| && list[m].symbol == list[k].symbol
    ensures Together(list, m, k, list[k].symbol)
  {
    forall i | m <= i <= k ensures list[i].symbol == list[k].symbol {
      assert list[m].symbol <= list[i].symbol <= list[k].symbol;
    }
  }

  lemma OneChallengesMore(g: Precedences, order: seq<Action>, a: Action)
    requires order != []
    ensures var x := Standing(g, order); Standing(g, order + [a]) == if Loses(g, x, a) then a else x
  {
    assert (order + [a])[..|order|] == order;
  }

  /** Who stands is who is left standing. */
  lemma {:induction false} StandsIsStanding(g: Precedences, list: seq<Action>, m: nat, k: nat, symbol: int)
    requires Together(list, m, k, symbol) && (m > 0 ==> list[m - 1].symbol != symbol)
    ensures list[Stands(g, list, k)] == Standing(g, list[m..k + 1])
  {
    if m < k {
      StandsIsStanding(g, list, m, k - 1, symbol);
      assert list[m..k + 1] == list[m..k] + [list[k]];
      OneChallengesMore(g, list[m..k], list[k]);
    } else {
      assert list[m..k + 1] == [list[k]];
    }
  }

  lemma GroupInLine(list: seq<Action>, m: nat, k: nat, symbol: int)
    requires Contested(list) && SortedByRule(list) && Together(list, m, k, symbol)
    ensures Line(list[m..k + 1])
  {
    var order := list[m..k + 1];
    forall i, j | 0 <= i < j < |order| ensures InLine(order[i], order[j]) {
      var x, y := m + i, m + j;
      assert order[i] == list[x] && order[j] == list[y] && list[x].symbol == list[y].symbol;
      assert Fights(list[x], list[y]);
    }
  }

  /** The actions on a symbol stand together, in line. */
  lemma GroupIsLineup(list: seq<Action>, m: nat, k: nat, symbol: int)
    requires Contested(list) && SortedByRule(list) && Together(list, m, k, symbol)
    requires (m > 0 ==> list[m - 1].symbol != symbol) && (k + 1 < |list| ==> list[k + 1].symbol != symbol)
    ensures Lineup(list, symbol, list[m..k + 1])
  {
    GroupInLine(list, m, k, symbol);
    forall a ensures multiset(list[m..k + 1])[a] == if a.symbol == symbol then multiset(list)[a] else 0 {
      GroupCounts(list, m, k, symbol, a);
    }
  }

  lemma GroupCounts(list: seq<Action>, m: nat, k: nat, symbol: int, a: Action)
    requires Contested(list) && Together(list, m, k, symbol)
    requires (m > 0 ==> list[m - 1].symbol != symbol) && (k + 1 < |list| ==> list[k + 1].symbol != symbol)
    ensures multiset(list[m..k + 1])[a] == if a.symbol == symbol then multiset(list)[a] else 0
  {
    if a.symbol == symbol {
      Smaller(list, m, a);
      Larger(list, k, a);
      NowhereElse(list, m, k + 1, a);
    } else {
      NotTogether(list, m, k, symbol, a);
    }
  }

  lemma NowhereElse(list: seq<Action>, m: nat, n: nat, a: Action)
    requires m <= n <= |list| && a !in list[..m] && a !in list[n..]
    ensures multiset(list[m..n])[a] == multiset(list)[a]
  {
    assert list == list[..m] + list[m..n] + list[n..];
  }

  lemma NotTogether(list: seq<Action>, m: nat, k: nat, symbol: int, a: Action)
    requires Together(list, m, k, symbol) && a.symbol != symbol
    ensures multiset(list[m..k + 1])[a] == 0
  {
    var order := list[m..k + 1];
    forall i | 0 <= i < |order| ensures order[i] != a { assert order[i] == list[m + i]; }
    assert a !in order;
  }

  lemma Smaller(list: seq<Action>, m: nat, a: Action)
    requires Contested(list) && m < |list| && a.symbol == list[m].symbol && (m > 0 ==> list[m - 1].symbol != a.symbol)
    ensures a !in list[..m]
  {
    forall i | 0 <= i < m ensures list[i] != a { assert list[i].symbol <= list[m - 1].symbol <= list[m].symbol; }
  }

  lemma Larger(list: seq<Action>, k: nat, a: Action)
    requires Contested(list) && k < |list| && a.symbol == list[k].symbol
    requires k + 1 < |list| ==> list[k + 1].symbol != a.symbol
    ensures a !in list[k + 1..]
  {
    forall i | k < i < |list| ensures list[i] != a { assert list[k].symbol <= list[k + 1].symbol <= list[i].symbol; }
  }

  /** Reduces on one symbol stand in the order of their rules. */
  ghost predicate SortedByRule(list: seq<Action>) {
    forall i, j :: 0 <= i < j < |list| && list[i].symbol == list[j].symbol && list[i].kind == list[j].kind == Reduce ==>
      list[i].arg <= list[j].arg
  }

  /** The winner on a symbol. */
  lemma WinnerOn(g: Precedences, list0: seq<Action>, k: nat) returns (w: nat, order: seq<Action>)
    requires Contested(list0) && SortedByRule(list0) && k < |list0|
    ensures w < |list0| && list0[w].symbol == list0[k].symbol && Wins(g, list0, w)
    ensures order != [] && Lineup(list0, list0[k].symbol, order) && list0[w] == Standing(g, order)
  {
    var hi := LastOn(list0, k);
    var lo := FirstOn(list0, k);
    w := Stands(g, list0, hi);
    order := list0[lo..hi + 1];
    StandTogether(list0, lo, hi);
    StandsIsStanding(g, list0, lo, hi, list0[k].symbol);
    GroupIsLineup(list0, lo, hi, list0[k].symbol);
    LastWins(g, list0, hi);
  }

  lemma LastWins(g: Precedences, list: seq<Action>, hi: nat)
    requires Contested(list) && hi < |list| && (hi + 1 < |list| ==> list[hi + 1].symbol != list[hi].symbol)
    ensures Wins(g, list, Stands(g, list, hi))
  {
    var w := Stands(g, list, hi);
    forall j | w <= j < |list| && list[j].symbol == list[w].symbol ensures Stands(g, list, j) == w {
      assert j <= hi;
      StoodBefore(g, list, j, hi);
    }
  }

  /** What the loops leave: one action on each symbol, the one left standing. */
  ghost predicate Resolution(g: Precedences, before: seq<Action>, after: seq<Action>) {
    && Unambiguous(after) && |after| == |before|
    && (forall symbol :: Find(after, symbol).Some? <==> exists a :: a in before && a.symbol == symbol)
    && (forall symbol :: Find(after, symbol).Some? ==> Find(after, symbol).value in before)
    && (forall b :: b in after ==> exists a :: a in before && Weakened(a, b))
    && Decided(g, before, after)
  }

  ghost predicate Decided(g: Precedences, before: seq<Action>, after: seq<Action>) {
    forall a :: a in before ==> Outcome(g, before, after, a.symbol)
  }

  lemma FoughtIsUnambiguous(g: Precedences, list0: seq<Action>, list: seq<Action>)
    requires Contested(list0) && Fought(g, list0, list, |list|, |list| + 1)
    ensures Unambiguous(list)
  {
    forall i, j | 0 <= i < j < |list| && Usable(list[i]) && Usable(list[j]) ensures list[i].symbol != list[j].symbol {
      assert FoughtAt(g, list0, list, |list|, |list| + 1, i) && FoughtAt(g, list0, list, |list|, |list| + 1, j);
      assert Stands(g, list0, j) == j;
    }
  }

  /** On the symbol of any action the one left standing is found. */
  lemma FoughtFinds(g: Precedences, list0: seq<Action>, list: seq<Action>, k: nat)
    requires Contested(list0) && SortedByRule(list0) && Fought(g, list0, list, |list|, |list| + 1) && k < |list0|
    ensures Outcome(g, list0, list, list0[k].symbol) && Find(list, list0[k].symbol).value in list0
  {
    FoughtIsUnambiguous(g, list0, list);
    var w, order := WinnerOn(g, list0, k);
    assert FoughtAt(g, list0, list, |list|, |list| + 1, w);
    assert list[w] == list0[w] && list[w] in list;
    FindMember(list, list[w]);
  }

  lemma SamePieces(start: seq<Action>, list0: seq<Action>)
    requires multiset(list0) == multiset(start)
    ensures |list0| == |start| && forall a :: a in list0 <==> a in start
  {
    assert |multiset(list0)| == |multiset(start)|;
    forall a ensures a in list0 <==> a in start {
      assert a in list0 <==> a in multiset(list0);
      assert a in start <==> a in multiset(start);
    }
  }

  lemma FoughtResolves(g: Precedences, start: seq<Action>, list0: seq<Action>, list: seq<Action>)
    requires Contested(list0) && SortedByRule(list0) && Fought(g, list0, list, |list|, |list| + 1)
    requires multiset(list0) == multiset(start)
    ensures Resolution(g, start, list)
  {
    SamePieces(start, list0);
    FoughtIsUnambiguous(g, list0, list);
    forall b | b in list ensures exists a :: a in start && Weakened(a, b) {
      var k :| 0 <= k < |list| && list[k] == b;
      assert list0[k] in start && FoughtAt(g, list0, list, |list|, |list| + 1, k);
    }
    forall a | a in start ensures Outcome(g, start, list, a.symbol) && Find(list, a.symbol).value in start {
      var k :| 0 <= k < |list0| && list0[k] == a;
      FoughtFinds(g, list0, list, k);
      var order :| order != [] && Lineup(list0, a.symbol, order) && Find(list, a.symbol) == Some(Standing(g, order));
      assert Lineup(start, a.symbol, order);
    }
    forall symbol | Find(list, symbol).Some? ensures exists a :: a in start && a.symbol == symbol {
      var b := Find(list, symbol).value;
      var k :| 0 <= k < |list| && list[k] == b;
      assert FoughtAt(g, list0, list, |list|, |list| + 1, k) && list0[k] in start;
    }
  }

  lemma ChampionsStay(g: Precedences, before: seq<Action>, after: seq<Action>)
    requires Decided(g, before, after)
    ensures forall a :: Champion(g, before, a) ==> Find(after, a.symbol) == Some(a)
  {
    forall a | Champion(g, before, a) ensures Find(after, a.symbol) == Some(a) { ChampionStays(g, before, after, a); }
  }

  // ----- sorting and counting -----

  lemma {:induction false} SortedIsContested(list: seq<Action>)
    requires Built(list) && |list| < 1073741824
    ensures Contested(Sort(ActionLess, list)) && SortedByRule(Sort(ActionLess, list))
    ensures multiset(Sort(ActionLess, list)) == multiset(list)
  {
    ActionOrder();
    var s := Sort(ActionLess, list);
    SortIsPermutation(ActionLess, list);
    SortIsStable(ActionLess, list);
    forall i | 0 <= i < |s| ensures s[i].kind in {Shift, Accept, Reduce} {
      assert s[i] in multiset(list);
    }
    forall i, j | 0 <= i < j < |s|
      ensures s[i].symbol <= s[j].symbol && (s[i].symbol == s[j].symbol ==> Fights(s[i], s[j]))
    {
      assert !ActionLess(s[j], s[i]);
      if s[i].symbol == s[j].symbol {
        PairInPermutation(list, s, i, j);
      }
    }
  }

  /** Two places of a permutation come from two places of the original. */
  lemma {:induction false} PairInPermutation(list: seq<Action>, s: seq<Action>, i: nat, j: nat)
    requires i < j < |s| && multiset(s) == multiset(list)
    ensures exists a, b :: 0 <= a < |list| && 0 <= b < |list| && a != b && list[a] == s[i] && list[b] == s[j]
  {
    assert s[i] in multiset(list) && s[j] in multiset(list);
    var a :| 0 <= a < |list| && list[a] == s[i];
    if s[i] == s[j] {
      TwoOccurrences(s, i, j);
      assert list == list[..a] + [list[a]] + list[a + 1..];
      assert multiset(list)[list[a]] == multiset(list[..a])[list[a]] + 1 + multiset(list[a + 1..])[list[a]];
      if list[a] in list[..a] {
        var b :| 0 <= b < a && list[b] == list[a];
      } else {
        assert list[a] in list[a + 1..];
        var c :| 0 <= c < |list[a + 1..]| && list[a + 1..][c] == list[a];
        assert list[a + 1 + c] == list[a];
      }
    } else {
      var b :| 0 <= b < |list| && list[b] == s[j];
    }
  }

  function Conflicts(list: seq<Action>): nat {
    if list == [] then 0 else Conflicts(list[..|list| - 1]) + if list[|list| - 1].kind == Conflict then 1 else 0
  }

  lemma {:induction false} ConflictsUpdate(list: seq<Action>, k: nat, a: Action)
    requires k < |list|
    ensures Conflicts(list[k := a]) - (if a.kind == Conflict then 1 else 0) ==
            Conflicts(list) - (if list[k].kind == Conflict then 1 else 0)
  {
    var n := |list| - 1;
    if k < n {
      assert list[k := a][..n] == list[..n][k := a];
      ConflictsUpdate(list[..n], k, a);
    } else {
      assert list[k := a][..n] == list[..n];
    }
  }

  lemma {:induction false} NoConflicts(list: seq<Action>)
    requires forall i :: 0 <= i < |list| ==> list[i].kind != Conflict
    ensures Conflicts(list) == 0
  {
    if list != [] { NoConflicts(list[..|list| - 1]); }
  }

  /** A fight reports a conflict exactly if it leaves one more. */
  lemma FightConflicts(g: Precedences, list: seq<Action>, i: nat, j: nat)
    requires i < j < |list|
    ensures var r := ResolveConflict(g, list[i], list[j]);
            Conflicts(list[i := r.0][j := r.1]) == Conflicts(list) + if r.2 then 1 else 0
  {
    var r := ResolveConflict(g, list[i], list[j]);
    ConflictsUpdate(list, i, r.0);
    ConflictsUpdate(list[i := r.0], j, r.1);
  }

  /** The actions of one state. */
  class State {
    var ap: seq<Action>

    constructor (ap: seq<Action>)
      ensures this.ap == ap
    {
      this.ap := ap;
    }

    method Fight(g: Precedences, i: nat, j: nat, ghost list0: seq<Action>) returns (n: nat)
      requires i < j < |ap| && ap[j].symbol == ap[i].symbol && Contested(list0) && Fought(g, list0, ap, i, j)
      modifies this
      ensures Fought(g, list0, ap, i, j + 1) && Conflicts(ap) == Conflicts(old(ap)) + n
    {
      FightOne(g, list0, ap, i, j);
      FightConflicts(g, ap, i, j);
      var r := ResolveConflict(g, ap[i], ap[j]);
      ap := ap[i := r.0][j := r.1];
      n := if r.2 then 1 else 0;
    }

    /** The inner loop: action i against every later action on its symbol. */
    method FightAll(g: Precedences, i: nat, ghost list0: seq<Action>) returns (nconflict: nat)
      requires i < |ap| && Contested(list0) && Fought(g, list0, ap, i, i + 1)
      modifies this
      ensures Fought(g, list0, ap, i + 1, i + 2)
      ensures Conflicts(ap) == Conflicts(old(ap)) + nconflict
    {
      nconflict := 0;
      var j := i + 1;
      while j < |ap| && ap[j].symbol == ap[i].symbol
        invariant i < j <= |ap| == |list0| && Fought(g, list0, ap, i, j)
        invariant Conflicts(ap) == Conflicts(old(ap)) + nconflict
        decreases |ap| - j
      {
        var n := Fight(g, i, j, list0);
        nconflict := nconflict + n;
        j := j + 1;
      }
      FightRow(g, list0, ap, i, j);
    }

    /** The resolution part of FindActions: sort, then let every two actions on one symbol
        fight.  Exactly one action is left on each symbol, the one left standing. */
    method ResolveAll(g: Precedences) returns (nconflict: nat)
      requires Built(ap) && |ap| < 1073741824
      modifies this
      ensures Resolution(g, old(ap), ap) && nconflict == Conflicts(ap)
      ensures forall a :: Champion(g, old(ap), a) ==> Find(ap, a.symbol) == Some(a)
    {
      SortedIsContested(ap);
      ap := Sort(ActionLess, ap);
      nconflict := FightEach(g, old(ap), ap);
      ChampionsStay(g, old(ap), ap);
    }

    /** The outer loop, on the sorted list. */
    method FightEach(g: Precedences, ghost start: seq<Action>, ghost list0: seq<Action>) returns (nconflict: nat)
      requires ap == list0 && Contested(list0) && SortedByRule(list0) && multiset(list0) == multiset(start)
      modifies this
      ensures Resolution(g, start, ap) && nconflict == Conflicts(ap)
    {
      nconflict := 0;
      FoughtStart(g, list0);
      NoConflicts(ap);
      var i := 0;
      while i < |ap|
        invariant 0 <= i <= |ap| && Fought(g, list0, ap, i, i + 1) && nconflict == Conflicts(ap)
      {
        var n := FightAll(g, i, list0);
        nconflict := nconflict + n;
        i := i + 1;
      }
      FoughtResolves(g, start, list0, ap);
    }
  }
}
