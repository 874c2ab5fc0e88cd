/**
 * How large the parse trees of a text can be.  In a grammar without cycles, in which no
 * symbol derives itself, the trees of a text are bounded by its length: on a path that keeps
 * the whole text no symbol can occur twice.
 */
module ForestSize {
  import opened Counting
  import opened Derivations
  import opened ParseForest

  ghost predicate Reach(g: Grammar, a: seq<nat>, b: seq<nat>) {
    exists n: nat :: n > 0 && Derives(g, a, b, n)
  }

  /** Some symbol derives itself in one step or more. */
  ghost predicate Cyclic(g: Grammar) {
    exists x: nat :: Reach(g, [x], [x])
  }

  lemma ReachMore(g: Grammar, a: seq<nat>, b: seq<nat>, c: seq<nat>, m: nat)
    requires Reach(g, a, b) && Derives(g, b, c, m)
    ensures Reach(g, a, c)
  {
    var n: nat :| n > 0 && Derives(g, a, b, n);
    Chain(g, a, b, c, n, m);
  }

  lemma FrontVanishes(g: Grammar, front: seq<nat>, rest: seq<nat>, n: nat)
    requires Derives(g, front, [], n)
    ensures Derives(g, front + rest, rest, n)
  {
    InContext(g, [], front, [], rest, n);
    assert [] + front + rest == front + rest;
    assert [] + [] + rest == rest;
  }

  lemma BackVanishes(g: Grammar, rest: seq<nat>, back: seq<nat>, n: nat)
    requires Derives(g, back, [], n)
    ensures Derives(g, rest + back, rest, n)
  {
    InContext(g, rest, back, [], [], n);
    assert rest + back + [] == rest + back;
    assert rest + [] + [] == rest;
  }

  /** What is left of a row of which only x keeps its text. */
  lemma OnlyOneLeft(g: Grammar, a: seq<nat>, front: seq<nat>, x: nat, back: seq<nat>, n: nat, m: nat)
    requires Reach(g, a, front + [x] + back) && Derives(g, front, [], n) && Derives(g, back, [], m)
    ensures Reach(g, a, [x])
  {
    Regroup(front, [x], back);
    FrontVanishes(g, front, [x] + back, n);
    BackVanishes(g, [x], back, m);
    ReachMore(g, a, front + ([x] + back), [x] + back, n);
    ReachMore(g, a, [x] + back, [x], m);
  }

  // ----- depth -----

  /** The longest path of nodes. */
  function Depth(f: Forest): nat {
    match f
    case Nil => 0
    case Leaf(_, next) => Depth(next)
    case Node(_, kids, next) => Max(1 + Depth(kids), Depth(next))
  }

  /** Symbol x, whose whole text has m tokens, and the symbols above it with the same text. */
  ghost predicate Below(g: Grammar, seen: set<nat>, x: nat) {
    x < g.nsymbol && forall y :: y in seen ==> y < g.nsymbol && Reach(g, [y], [x])
  }

  lemma NotSeen(g: Grammar, seen: set<nat>, x: nat)
    requires !Cyclic(g) && Below(g, seen, x)
    ensures x !in seen && |seen| + 1 <= g.nsymbol
  {
    BoundedSet(seen + {x}, g.nsymbol);
  }

  /** A child takes all of the text or less. */
  lemma BelowChild(g: Grammar, seen: set<nat>, x: nat, front: seq<nat>, y: nat, back: seq<nat>, n: nat, m: nat)
    requires Below(g, seen, x) && Reach(g, [x], front + [y] + back) && y < g.nsymbol
    requires Derives(g, front, [], n) && Derives(g, back, [], m)
    ensures Below(g, seen + {x}, y)
  {
    OnlyOneLeft(g, [x], front, y, back, n, m);
    forall z | z in seen + {x} ensures z < g.nsymbol && Reach(g, [z], [y]) {
      if z != x {
        var k: nat :| k > 0 && Derives(g, [x], [y], k);
        ReachMore(g, [z], [x], [y], k);
      }
    }
  }

  /** n symbols, and n + 1 more for each token. */
  function Bound(n: nat, m: nat): nat { if m == 0 then n else Bound(n, m - 1) + n + 1 }

  lemma {:induction false} BoundGrows(n: nat, k: nat, m: nat)
    requires k <= m
    ensures n <= Bound(n, k) <= Bound(n, m)
    ensures k < m ==> Bound(n, k) + n + 1 <= Bound(n, m)
  {
    if k < m { BoundGrows(n, k, m - 1); }
    if m > 0 { BoundGrows(n, 0, m - 1); }
  }

  /** What is known of the rest of a row of children of x: `front` is what came before it. */
  ghost predicate Among(g: Grammar, x: nat, front: seq<nat>, text: seq<nat>, row: Forest) {
    Fits(g, row) && Reach(g, [x], front + Roots(g, row)) && exists n: nat :: Derives(g, front, text, n)
  }

  lemma HeadDerives(g: Grammar, row: Forest) returns (n: nat)
    requires Fits(g, row) && row != Nil
    ensures |Roots(g, row)| > 0 && Derives(g, [Roots(g, row)[0]], HeadText(row), n)
    ensures Roots(g, row) == [Roots(g, row)[0]] + Roots(g, row.next)
  {
    PutIs(g, row, row.next);
    PutIs(g, row, Nil);
    n := ForestDerives(g, Put(row, Nil));
    assert HeadText(row) + [] == HeadText(row) && [Roots(g, row)[0]] + [] == [Roots(g, row)[0]];
  }

  lemma FrontDerives(g: Grammar, front: seq<nat>, text: seq<nat>, y: nat, read: seq<nat>, k: nat)
    requires (exists n: nat :: Derives(g, front, text, n)) && Derives(g, [y], read, k)
    ensures exists n: nat :: Derives(g, front + [y], text + read, n)
  {
    var n: nat :| Derives(g, front, text, n);
    SideBySide(g, front, text, [y], read, n, k);
  }

  lemma AmongNext(g: Grammar, x: nat, front: seq<nat>, text: seq<nat>, row: Forest)
    requires Among(g, x, front, text, row) && row != Nil
    ensures |Roots(g, row)| > 0
    ensures Among(g, x, front + [Roots(g, row)[0]], text + HeadText(row), row.next)
  {
    var k := HeadDerives(g, row);
    var y, tail, read := Roots(g, row)[0], Roots(g, row.next), HeadText(row);
    FrontDerives(g, front, text, y, read, k);
    Regroup(front, [y], tail);
  }

  lemma AmongKids(g: Grammar, r: nat, kids: Forest)
    requires Fits(g, kids) && r < |g.rules| && Roots(g, kids) == g.rules[r].rhs
    ensures Among(g, g.rules[r].lhs, [], [], kids)
  {
    OneStep(g, r);
    assert [] + Roots(g, kids) == g.rules[r].rhs;
    assert Derives(g, [], [], 0);
  }

  /** The only child with text. */
  lemma WholeText(g: Grammar, seen: set<nat>, x: nat, front: seq<nat>, row: Forest)
    requires WellFormed(g) && Below(g, seen, x) && Among(g, x, front, [], row) && row.Node? && Text(row.next) == []
    ensures Below(g, seen + {x}, g.rules[row.rule].lhs)
  {
    var n: nat :| Derives(g, front, [], n);
    var m := ForestDerives(g, row.next);
    var y := g.rules[row.rule].lhs;
    assert front + Roots(g, row) == front + [y] + Roots(g, row.next);
    BelowChild(g, seen, x, front, y, Roots(g, row.next), n, m);
  }

  lemma {:induction false} RowDepth(g: Grammar, x: nat, front: seq<nat>, text: seq<nat>, row: Forest, m: nat,
                                    seen: set<nat>)
    requires WellFormed(g) && !Cyclic(g) && Below(g, seen, x) && Among(g, x, front, text, row)
    requires |text| + |Text(row)| == m
    ensures Depth(row) + |seen| + 1 <= Bound(g.nsymbol, m)
    decreases row
  {
    NotSeen(g, seen, x);
    BoundGrows(g.nsymbol, 0, m);
    if row != Nil {
      AmongNext(g, x, front, text, row);
      RowDepth(g, x, front + [Roots(g, row)[0]], text + HeadText(row), row.next, m, seen);
      if row.Node? { KidsDepth(g, x, front, text, row, m, seen); }
    }
  }

  lemma {:induction false} KidsDepth(g: Grammar, x: nat, front: seq<nat>, text: seq<nat>, row: Forest, m: nat,
                                     seen: set<nat>)
    requires WellFormed(g) && !Cyclic(g) && Below(g, seen, x) && Among(g, x, front, text, row)
    requires |text| + |Text(row)| == m && row.Node?
    ensures 1 + Depth(row.kids) + |seen| + 1 <= Bound(g.nsymbol, m)
    decreases row, 0
  {
    NotSeen(g, seen, x);
    var y, k := g.rules[row.rule].lhs, |Text(row.kids)|;
    AmongKids(g, row.rule, row.kids);
    if k == m {
      WholeText(g, seen, x, front, row);
      RowDepth(g, y, [], [], row.kids, k, seen + {x});
    } else {
      RowDepth(g, y, [], [], row.kids, k, {});
      BoundGrows(g.nsymbol, k, m);
    }
  }

  lemma {:induction false} ForestDepth(g: Grammar, f: Forest, m: nat)
    requires WellFormed(g) && !Cyclic(g) && Fits(g, f) && |Text(f)| <= m
    ensures Depth(f) <= Bound(g.nsymbol, m)
  {
    if f != Nil {
      ForestDepth(g, f.next, m);
      if f.Node? {
        var k := |Text(f.kids)|;
        AmongKids(g, f.rule, f.kids);
        RowDepth(g, g.rules[f.rule].lhs, [], [], f.kids, k, {});
        BoundGrows(g.nsymbol, k, m);
      }
    }
  }

  // ----- nodes -----

  function Width(rules: seq<Rule>): (w: nat)
    ensures forall r :: 0 <= r < |rules| ==> |rules[r].rhs| <= w
  {
    if rules == [] then 0 else Max(Width(rules[..|rules| - 1]), |rules[|rules| - 1].rhs|)
  }

  function Times(k: nat, s: nat): nat { if k == 0 then 0 else Times(k - 1, s) + s }

  lemma {:induction false} TimesGrows(j: nat, k: nat, s: nat)
    requires j <= k
    ensures Times(j, s) <= Times(k, s)
  {
    if j < k { TimesGrows(j, k - 1, s); }
  }

  /** The nodes of a tree of depth d in which every node has w children. */
  function Full(w: nat, d: nat): nat { if d == 0 then 0 else 1 + Times(w, Full(w, d - 1)) }

  lemma {:induction false} NodesBound(g: Grammar, f: Forest, d: nat)
    requires Fits(g, f) && Depth(f) <= d
    ensures Nodes(f) <= Times(|Roots(g, f)|, Full(Width(g.rules), d))
  {
    var w := Width(g.rules);
    if f != Nil {
      NodesBound(g, f.next, d);
      assert |Roots(g, f)| == |Roots(g, f.next)| + 1;
      if f.Node? {
        NodesBound(g, f.kids, d - 1);
        TimesGrows(|g.rules[f.rule].rhs|, w, Full(w, d - 1));
      }
    }
  }

  /** The nodes of a row of k trees over a text of m tokens. */
  function Largest(g: Grammar, k: nat, m: nat): nat { Times(k, Full(Width(g.rules), Bound(g.nsymbol, m))) }

  lemma ForestSizeBound(g: Grammar, f: Forest, k: nat, m: nat)
    requires WellFormed(g) && !Cyclic(g) && Fits(g, f) && |Roots(g, f)| <= k && |Text(f)| <= m
    ensures Nodes(f) <= Largest(g, k, m)
  {
    ForestDepth(g, f, m);
    NodesBound(g, f, Bound(g.nsymbol, m));
    TimesGrows(|Roots(g, f)|, k, Full(Width(g.rules), Bound(g.nsymbol, m)));
  }
}
