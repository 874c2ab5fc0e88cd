/**
 * FindFirstSets (lemon.c): two loops run over all rules until nothing changes, first
 * for the symbols that can vanish, then for the terminals a nonterminal can begin with.
 */
module LemonFirst {
  import opened LemonSets
  import opened Derivations

  // ----- lambda -----

  /** Every marked symbol is a nonterminal that can vanish. */
  ghost predicate NullSound(g: Grammar, lambda: set<nat>) {
    forall s :: s in lambda ==> g.nterminal <= s && Vanishes(g, [s])
  }

  lemma LambdaStep(g: Grammar, lambda: set<nat>, r: nat)
    requires WellFormed(g) && r < |g.rules| && NullSound(g, lambda)
    requires forall i :: 0 <= i < |g.rules[r].rhs| ==> g.rules[r].rhs[i] in lambda
    ensures NullSound(g, lambda + {g.rules[r].lhs})
  {
    var rhs := g.rules[r].rhs;
    var n := DropPrefix(g, rhs, |rhs|);
    assert rhs[|rhs|..] == [];
    OneStep(g, r);
    Chain(g, [g.rules[r].lhs], rhs, [], 1, n);
  }

  method AllMarked(rhs: seq<nat>, lambda: array<bool>) returns (all: bool)
    requires forall i :: 0 <= i < |rhs| ==> rhs[i] < lambda.Length
    ensures all <==> forall i :: 0 <= i < |rhs| ==> rhs[i] in Elems(lambda)
  {
    for i := 0 to |rhs|
      invariant forall k :: 0 <= k < i ==> rhs[k] in Elems(lambda)
    {
      if !lambda[rhs[i]] { return false; }
    }
    all := true;
  }

  /** One sweep over the rules. */
  method MarkSweep(g: Grammar, lambda: array<bool>) returns (progress: bool)
    requires WellFormed(g) && lambda.Length == g.nsymbol && NullSound(g, Elems(lambda))
    modifies lambda
    ensures NullSound(g, Elems(lambda)) && old(Elems(lambda)) <= Elems(lambda)
    ensures if progress then old(Elems(lambda)) < Elems(lambda)
            else Elems(lambda) == old(Elems(lambda)) && NullClosed(g, Elems(lambda))
  {
    progress := false;
    for r := 0 to |g.rules|
      invariant NullSound(g, Elems(lambda)) && old(Elems(lambda)) <= Elems(lambda)
      invariant progress ==> old(Elems(lambda)) < Elems(lambda)
      invariant !progress ==> Elems(lambda) == old(Elems(lambda))
      invariant !progress ==> forall k :: 0 <= k < r ==> RuleNullClosed(g, Elems(lambda), k)
    {
      var lhs := g.rules[r].lhs;
      if !lambda[lhs] {
        var all := AllMarked(g.rules[r].rhs, lambda);
        if all {
          LambdaStep(g, Elems(lambda), r);
          ghost var before := Elems(lambda);
          lambda[lhs] := true;
          assert Elems(lambda) == before + {lhs};
          progress := true;
        }
      }
    }
    assert !progress ==> forall k :: 0 <= k < |g.rules| ==> RuleNullClosed(g, Elems(lambda), k);
  }

  /** The first loop: a symbol is marked if and only if it derives the empty string. */
  method FindLambda(g: Grammar) returns (lambda: array<bool>)
    requires WellFormed(g)
    ensures fresh(lambda) && lambda.Length == g.nsymbol && NullClosed(g, Elems(lambda)) && NullSound(g, Elems(lambda))
    ensures forall s :: 0 <= s < g.nsymbol ==> (lambda[s] <==> Vanishes(g, [s]))
  {
    lambda := new bool[g.nsymbol](_ => false);
    var progress := true;
    while progress
      invariant NullSound(g, Elems(lambda)) && fresh(lambda)
      invariant !progress ==> NullClosed(g, Elems(lambda))
      decreases Unmarked(lambda), progress
    {
      ghost var marked, unmarked := Elems(lambda), Unmarked(lambda);
      progress := MarkSweep(g, lambda);
      forall s | s in Unmarked(lambda) ensures s in unmarked { assert s !in Elems(lambda) && s !in marked; }
      if progress {
        ghost var s :| s in Elems(lambda) && s !in marked;
        assert s in unmarked && s !in Unmarked(lambda);
      } else {
        forall s | s in unmarked ensures s in Unmarked(lambda) { assert s !in marked; }
      }
    }
    forall s | 0 <= s < g.nsymbol ensures lambda[s] <==> Vanishes(g, [s]) {
      if lambda[s] { assert s in Elems(lambda); }
      if Vanishes(g, [s]) {
        var n: nat :| Derives(g, [s], [], n);
        VanishingIsClosed(g, Elems(lambda), [s], n);
        assert [s][0] in Elems(lambda);
      }
    }
  }

  ghost function Unmarked(a: array<bool>): set<nat>
    reads a
  {
    set s | 0 <= s < a.Length && !a[s]
  }

  // ----- first sets -----

  ghost function SetOf(g: Grammar, sets: seq<set<nat>>, s: nat): set<nat>
    requires |sets| == g.nsymbol - g.nterminal && g.nterminal <= s < g.nsymbol
  {
    sets[s - g.nterminal]
  }

  ghost function View(g: Grammar, sets: seq<set<nat>>): map<nat, set<nat>>
    requires WellFormed(g) && |sets| == g.nsymbol - g.nterminal
  {
    map s: nat | g.nterminal <= s < g.nsymbol :: SetOf(g, sets, s)
  }

  ghost predicate FirstSound(g: Grammar, sets: seq<set<nat>>)
    requires WellFormed(g)
  {
    && |sets| == g.nsymbol - g.nterminal
    && forall x, t :: 0 <= x < |sets| && t in sets[x] ==> t < g.nterminal && Begins(g, [x + g.nterminal], t)
  }

  /** A rule derives what is left of its right-hand side once a prefix has vanished. */
  lemma RuleSuffix(g: Grammar, lambda: set<nat>, r: nat, i: nat) returns (n: nat)
    requires r < |g.rules| && i <= |g.rules[r].rhs| && NullSound(g, lambda)
    requires forall k :: 0 <= k < i ==> g.rules[r].rhs[k] in lambda
    ensures Derives(g, [g.rules[r].lhs], g.rules[r].rhs[i..], n)
  {
    var m := DropPrefix(g, g.rules[r].rhs, i);
    OneStep(g, r);
    Chain(g, [g.rules[r].lhs], g.rules[r].rhs, g.rules[r].rhs[i..], 1, m);
    n := 1 + m;
  }

  lemma BeginsWithHead(g: Grammar, s: nat, rest: seq<nat>, t: nat)
    requires s == t || Begins(g, [s], t)
    ensures Begins(g, [s] + rest, t)
  {
    if s == t {
      assert Derives(g, [s] + rest, [t] + rest, 0);
    } else {
      var m: nat, tail: seq<nat> :| Derives(g, [s], [t] + tail, m);
      InContext(g, [], [s], [t] + tail, rest, m);
      assert [] + [s] + rest == [s] + rest;
      assert [] + ([t] + tail) + rest == [t] + (tail + rest);
    }
  }

  /** Behind symbols that vanish, whatever begins a symbol of a rule begins its left-hand side. */
  lemma BeginsThroughRule(g: Grammar, lambda: set<nat>, r: nat, i: nat, t: nat)
    requires r < |g.rules| && i < |g.rules[r].rhs| && NullSound(g, lambda)
    requires forall k :: 0 <= k < i ==> g.rules[r].rhs[k] in lambda
    requires g.rules[r].rhs[i] == t || Begins(g, [g.rules[r].rhs[i]], t)
    ensures Begins(g, [g.rules[r].lhs], t)
  {
    var rhs := g.rules[r].rhs;
    var n := RuleSuffix(g, lambda, r, i);
    assert rhs[i..] == [rhs[i]] + rhs[i + 1..];
    BeginsWithHead(g, rhs[i], rhs[i + 1..], t);
    var m: nat, tail: seq<nat> :| Derives(g, rhs[i..], [t] + tail, m);
    Chain(g, [g.rules[r].lhs], rhs[i..], [t] + tail, n, m);
  }

  /** Everything symbol s can begin with so far is in the set of x. */
  ghost predicate Covered(g: Grammar, sets: seq<set<nat>>, x: nat, s: nat)
    requires WellFormed(g) && |sets| == g.nsymbol - g.nterminal && x < |sets| && s < g.nsymbol
  {
    if s < g.nterminal then s in sets[x] else sets[s - g.nterminal] <= sets[x]
  }

  /** Rule r is covered up to position n. */
  ghost predicate CoveredTo(g: Grammar, lambda: set<nat>, sets: seq<set<nat>>, r: nat, n: nat)
    requires WellFormed(g) && |sets| == g.nsymbol - g.nterminal && r < |g.rules| && n <= |g.rules[r].rhs|
  {
    forall i :: 0 <= i < n && (forall k :: 0 <= k < i ==> g.rules[r].rhs[k] in lambda) ==>
      Covered(g, sets, g.rules[r].lhs - g.nterminal, g.rules[r].rhs[i])
  }

  lemma CoveredIsClosed(g: Grammar, lambda: set<nat>, sets: seq<set<nat>>, r: nat)
    requires WellFormed(g) && |sets| == g.nsymbol - g.nterminal && r < |g.rules|
    requires CoveredTo(g, lambda, sets, r, |g.rules[r].rhs|)
    ensures RuleClosed(g, lambda, View(g, sets), r)
  {
    forall i: nat, t: nat | t < g.nterminal && HitAt(g, lambda, View(g, sets), g.rules[r].rhs, t, i)
      ensures t in View(g, sets)[g.rules[r].lhs]
    {
      assert Covered(g, sets, g.rules[r].lhs - g.nterminal, g.rules[r].rhs[i]);
    }
  }

  /** What symbol s contributes to the set of a left-hand side. */
  ghost function Share(g: Grammar, sets: seq<set<nat>>, s: nat): set<nat>
    requires |sets| == g.nsymbol - g.nterminal && s < g.nsymbol
  {
    if s < g.nterminal then {s} else SetOf(g, sets, s)
  }

  /** The sets after the set of s1 received the share of s2. */
  ghost function Shared(g: Grammar, sets: seq<set<nat>>, s1: nat, s2: nat): (r: seq<set<nat>>)
    requires |sets| == g.nsymbol - g.nterminal && g.nterminal <= s1 < g.nsymbol && s2 < g.nsymbol
    ensures |r| == |sets|
  {
    sets[s1 - g.nterminal := sets[s1 - g.nterminal] + Share(g, sets, s2)]
  }

  /** Adding to the set of x covers symbol s and uncovers nothing. */
  lemma CoverMore(g: Grammar, lambda: set<nat>, sets: seq<set<nat>>, r: nat, n: nat)
    requires WellFormed(g) && FirstSound(g, sets) && r < |g.rules| && n < |g.rules[r].rhs|
    requires CoveredTo(g, lambda, sets, r, n) && NullSound(g, lambda)
    requires forall k :: 0 <= k < n ==> g.rules[r].rhs[k] in lambda
    ensures var sets' := Shared(g, sets, g.rules[r].lhs, g.rules[r].rhs[n]);
            FirstSound(g, sets') && CoveredTo(g, lambda, sets', r, n + 1)
  {
    var x, s := g.rules[r].lhs - g.nterminal, g.rules[r].rhs[n];
    var more := Share(g, sets, s);
    var sets' := sets[x := sets[x] + more];
    forall t | t in more ensures t < g.nterminal && Begins(g, [g.rules[r].lhs], t) {
      assert s >= g.nterminal ==> t in sets[s - g.nterminal] && s == (s - g.nterminal) + g.nterminal;
      BeginsThroughRule(g, lambda, r, n, t);
    }
    forall i | 0 <= i < n + 1 ensures Covered(g, sets', x, g.rules[r].rhs[i]) {
      assert i < n ==> Covered(g, sets, x, g.rules[r].rhs[i]);
    }
  }

  /** One symbol of a right-hand side. */
  method ScanSymbol(g: Grammar, first: seq<array<bool>>, s1: nat, s2: nat, size: nat, ghost sets: seq<set<nat>>)
    returns (change: bool)
    requires g.nterminal <= s1 < g.nsymbol && s2 < g.nsymbol && g.nterminal < size && |sets| == g.nsymbol - g.nterminal
    requires Stored(first, sets, size)
    modifies first
    ensures var sets' := Shared(g, sets, s1, s2);
            Stored(first, sets', size) && if change then Absent(sets', size) < Absent(sets, size) else sets' == sets
  {
    if s2 < g.nterminal {
      change := AddInto(first, s1 - g.nterminal, s2, size, sets);
    } else if s1 == s2 {
      change := false;
      assert sets[s1 - g.nterminal] + Share(g, sets, s2) == sets[s1 - g.nterminal];
    } else {
      change := UnionInto(first, s1 - g.nterminal, s2 - g.nterminal, size, sets);
    }
  }

  /** Nothing behind a symbol that does not vanish has to be covered. */
  lemma CoveredStops(g: Grammar, lambda: set<nat>, sets: seq<set<nat>>, r: nat, n: nat)
    requires WellFormed(g) && |sets| == g.nsymbol - g.nterminal && r < |g.rules| && 0 < n <= |g.rules[r].rhs|
    requires CoveredTo(g, lambda, sets, r, n) && g.rules[r].rhs[n - 1] !in lambda
    ensures CoveredTo(g, lambda, sets, r, |g.rules[r].rhs|)
  {
  }

  /** The sets as stored, and that everything in them is right. */
  ghost predicate Known(g: Grammar, lambda: array<bool>, marked: set<nat>, first: seq<array<bool>>, size: nat,
                        sets: seq<set<nat>>)
    requires WellFormed(g)
    reads lambda, first
  {
    && lambda.Length == g.nsymbol && Elems(lambda) == marked && NullSound(g, marked) && lambda !in first
    && size > g.nterminal && Stored(first, sets, size) && FirstSound(g, sets)
  }

  ghost predicate Reached(g: Grammar, marked: set<nat>, sets: seq<set<nat>>, r: nat, i: nat)
    requires WellFormed(g)
  {
    && r < |g.rules| && i <= |g.rules[r].rhs| && |sets| == g.nsymbol - g.nterminal
    && CoveredTo(g, marked, sets, r, i) && forall k :: 0 <= k < i ==> g.rules[r].rhs[k] in marked
  }

  /** Position i of rule r. */
  method ScanAt(g: Grammar, lambda: array<bool>, first: seq<array<bool>>, r: nat, i: nat, size: nat,
                ghost marked: set<nat>, ghost sets0: seq<set<nat>>)
    returns (change: bool, ghost sets: seq<set<nat>>)
    requires WellFormed(g) && Known(g, lambda, marked, first, size, sets0)
    requires Reached(g, marked, sets0, r, i) && i < |g.rules[r].rhs|
    modifies first
    ensures Known(g, lambda, marked, first, size, sets) && CoveredTo(g, marked, sets, r, i + 1)
    ensures if change then Absent(sets, size) < Absent(sets0, size) else sets == sets0
  {
    var s1, s2 := g.rules[r].lhs, g.rules[r].rhs[i];
    CoverMore(g, marked, sets0, r, i);
    change := ScanSymbol(g, first, s1, s2, size, sets0);
    sets := Shared(g, sets0, s1, s2);
  }

  /** Whether the scan goes on behind position i. */
  method GoesOn(g: Grammar, lambda: array<bool>, r: nat, i: nat, ghost marked: set<nat>, ghost sets: seq<set<nat>>)
    returns (more: bool)
    requires WellFormed(g) && r < |g.rules| && i < |g.rules[r].rhs| && |sets| == g.nsymbol - g.nterminal
    requires lambda.Length == g.nsymbol && Elems(lambda) == marked && NullSound(g, marked)
    requires CoveredTo(g, marked, sets, r, i + 1) && forall k :: 0 <= k < i ==> g.rules[r].rhs[k] in marked
    ensures if more then Reached(g, marked, sets, r, i + 1) else CoveredTo(g, marked, sets, r, |g.rules[r].rhs|)
  {
    var s2 := g.rules[r].rhs[i];
    more := s2 >= g.nterminal && lambda[s2];
    assert more <==> s2 in marked;
    if !more { CoveredStops(g, marked, sets, r, i + 1); }
  }

  /** The scan of one rule stops behind the first symbol that does not vanish. */
  method ScanRule(g: Grammar, lambda: array<bool>, first: seq<array<bool>>, r: nat, size: nat,
                  ghost marked: set<nat>, ghost sets0: seq<set<nat>>)
    returns (progress: bool, ghost sets: seq<set<nat>>)
    requires WellFormed(g) && Known(g, lambda, marked, first, size, sets0) && r < |g.rules|
    modifies first
    ensures Known(g, lambda, marked, first, size, sets) && CoveredTo(g, marked, sets, r, |g.rules[r].rhs|)
    ensures if progress then Absent(sets, size) < Absent(sets0, size) else sets == sets0
  {
    progress, sets := false, sets0;
    var i := 0;
    while i < |g.rules[r].rhs|
      invariant Known(g, lambda, marked, first, size, sets) && Reached(g, marked, sets, r, i)
      invariant if progress then Absent(sets, size) < Absent(sets0, size) else sets == sets0
    {
      var change;
      change, sets := ScanAt(g, lambda, first, r, i, size, marked, sets);
      progress := progress || change;
      var more := GoesOn(g, lambda, r, i, marked, sets);
      i := i + 1;
      if !more { return; }
    }
  }

  /** One sweep over the rules. */
  method FirstSweep(g: Grammar, lambda: array<bool>, first: seq<array<bool>>, size: nat,
                    ghost marked: set<nat>, ghost sets0: seq<set<nat>>)
    returns (progress: bool, ghost sets: seq<set<nat>>)
    requires WellFormed(g) && Known(g, lambda, marked, first, size, sets0)
    modifies first
    ensures Known(g, lambda, marked, first, size, sets)
    ensures if progress then Absent(sets, size) < Absent(sets0, size)
      else sets == sets0 && FirstClosed(g, marked, View(g, sets))
  {
    progress, sets := false, sets0;
    for r := 0 to |g.rules|
      invariant Known(g, lambda, marked, first, size, sets)
      invariant progress ==> Absent(sets, size) < Absent(sets0, size)
      invariant !progress ==> sets == sets0 && forall k :: 0 <= k < r ==> RuleClosed(g, marked, View(g, sets), k)
    {
      var change;
      change, sets := ScanRule(g, lambda, first, r, size, marked, sets);
      CoveredIsClosed(g, marked, sets, r);
      progress := progress || change;
    }
  }

  /** FindFirstSets: lambda and the first sets are exactly what derivations give. */
  method FindFirstSets(g: Grammar) returns (lambda: array<bool>, first: seq<array<bool>>)
    requires WellFormed(g)
    ensures lambda.Length == g.nsymbol && forall s :: 0 <= s < g.nsymbol ==> (lambda[s] <==> Vanishes(g, [s]))
    ensures |first| == g.nsymbol - g.nterminal
    ensures forall x :: 0 <= x < |first| ==> first[x].Length == g.nterminal + 1
    ensures forall x, t :: 0 <= x < |first| && 0 <= t < g.nterminal ==>
      (first[x][t] <==> Begins(g, [x + g.nterminal], t))
  {
    lambda := FindLambda(g);
    var size := g.nterminal + 1;
    first := NewSets(g.nsymbol - g.nterminal, size);
    ghost var marked := Elems(lambda);
    ghost var sets := seq(g.nsymbol - g.nterminal, _ => {});
    assert forall s :: 0 <= s < g.nsymbol ==> (s in marked <==> Vanishes(g, [s]));
    var progress := true;
    while progress
      invariant Known(g, lambda, marked, first, size, sets) && fresh(first) && fresh(lambda)
      invariant !progress ==> FirstClosed(g, marked, View(g, sets))
      decreases Absent(sets, size), progress
    {
      progress, sets := FirstSweep(g, lambda, first, size, marked, sets);
    }
    assert forall s :: 0 <= s < g.nsymbol ==> (lambda[s] <==> s in Elems(lambda));
    forall x, t | 0 <= x < |first| && 0 <= t < g.nterminal ensures first[x][t] <==> Begins(g, [x + g.nterminal], t) {
      assert first[x][t] <==> t in Elems(first[x]);
      FirstExact(g, marked, sets, x, t);
    }
  }

  lemma FirstExact(g: Grammar, lambda: set<nat>, sets: seq<set<nat>>, x: nat, t: nat)
    requires WellFormed(g) && FirstSound(g, sets) && x < |sets| && t < g.nterminal
    requires NullClosed(g, lambda) && FirstClosed(g, lambda, View(g, sets))
    ensures t in sets[x] <==> Begins(g, [x + g.nterminal], t)
  {
    if Begins(g, [x + g.nterminal], t) {
      var n: nat, tail: seq<nat> :| Derives(g, [x + g.nterminal], [t] + tail, n);
      var at := BeginningIsClosed(g, lambda, View(g, sets), [x + g.nterminal], t, tail, n);
    }
  }
}
