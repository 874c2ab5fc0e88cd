/** Context-free derivations, and what nullable and FIRST mean in terms of them. */
module Derivations {

  datatype Rule = Rule(lhs: nat, rhs: seq<nat>)

  /** Symbols below `nterminal` are terminals. */
  datatype Grammar = Grammar(rules: seq<Rule>, nterminal: nat, nsymbol: nat)

  ghost predicate WellFormed(g: Grammar) {
    && g.nterminal <= g.nsymbol
    && forall r :: 0 <= r < |g.rules| ==>
      && g.nterminal <= g.rules[r].lhs < g.nsymbol
      && forall i :: 0 <= i < |g.rules[r].rhs| ==> g.rules[r].rhs[i] < g.nsymbol
  }

  /** The sentential form with the symbol at i replaced by the right-hand side of rule r. */
  function Rewrite(g: Grammar, form: seq<nat>, i: nat, r: nat): seq<nat>
    requires i < |form| && r < |g.rules|
  {
    form[..i] + g.rules[r].rhs + form[i + 1..]
  }

  predicate Applies(g: Grammar, form: seq<nat>, i: nat, r: nat) {
    i < |form| && r < |g.rules| && form[i] == g.rules[r].lhs
  }

  /** `a` derives `b` in n steps. */
  ghost predicate Derives(g: Grammar, a: seq<nat>, b: seq<nat>, n: nat)
    decreases n
  {
    if n == 0 then a == b
    else exists i: nat, r: nat :: Applies(g, a, i, r) && Derives(g, Rewrite(g, a, i, r), b, n - 1)
  }

  ghost predicate Vanishes(g: Grammar, form: seq<nat>) {
    exists n: nat :: Derives(g, form, [], n)
  }

  /** t begins some sentential form derived from `form`. */
  ghost predicate Begins(g: Grammar, form: seq<nat>, t: nat) {
    exists n: nat, tail: seq<nat> :: Derives(g, form, [t] + tail, n)
  }

  lemma {:induction false} InContext(g: Grammar, u: seq<nat>, a: seq<nat>, b: seq<nat>, v: seq<nat>, n: nat)
    requires Derives(g, a, b, n)
    ensures Derives(g, u + a + v, u + b + v, n)
    decreases n
  {
    if n > 0 {
      var i: nat, r: nat :| Applies(g, a, i, r) && Derives(g, Rewrite(g, a, i, r), b, n - 1);
      InContext(g, u, Rewrite(g, a, i, r), b, v, n - 1);
      var form := u + a + v;
      assert form[|u| + i] == a[i];
      assert form[..|u| + i] == u + a[..i];
      assert form[|u| + i + 1..] == a[i + 1..] + v;
      assert Rewrite(g, form, |u| + i, r) == u + Rewrite(g, a, i, r) + v;
      assert Applies(g, form, |u| + i, r);
    }
  }

  lemma {:induction false} Chain(g: Grammar, a: seq<nat>, b: seq<nat>, c: seq<nat>, n: nat, m: nat)
    requires Derives(g, a, b, n) && Derives(g, b, c, m)
    ensures Derives(g, a, c, n + m)
    decreases n
  {
    if n > 0 {
      var i: nat, r: nat :| Applies(g, a, i, r) && Derives(g, Rewrite(g, a, i, r), b, n - 1);
      Chain(g, Rewrite(g, a, i, r), b, c, n - 1, m);
    }
  }

  lemma OneStep(g: Grammar, r: nat)
    requires r < |g.rules|
    ensures Derives(g, [g.rules[r].lhs], g.rules[r].rhs, 1)
  {
    var a := [g.rules[r].lhs];
    assert Rewrite(g, a, 0, r) == g.rules[r].rhs;
    assert Applies(g, a, 0, r) && Derives(g, Rewrite(g, a, 0, r), g.rules[r].rhs, 0);
  }

  lemma HeadVanishes(g: Grammar, x: nat, rest: seq<nat>, n: nat)
    requires Derives(g, [x], [], n)
    ensures Derives(g, [x] + rest, rest, n)
  {
    InContext(g, [], [x], [], rest, n);
    assert [] + [x] + rest == [x] + rest;
    assert [] + [] + rest == rest;
  }

  /** A form whose first k symbols vanish derives the rest. */
  lemma {:induction false} DropPrefix(g: Grammar, form: seq<nat>, k: nat) returns (n: nat)
    requires k <= |form| && forall i :: 0 <= i < k ==> Vanishes(g, [form[i]])
    ensures Derives(g, form, form[k..], n)
  {
    n := 0;
    if k > 0 {
      var n' := DropPrefix(g, form, k - 1);
      var m := DropHead(g, form[k - 1..]);
      assert form[k - 1..][1..] == form[k..];
      Chain(g, form, form[k - 1..], form[k..], n', m);
      n := n' + m;
    }
  }

  lemma DropHead(g: Grammar, form: seq<nat>) returns (m: nat)
    requires form != [] && Vanishes(g, [form[0]])
    ensures Derives(g, form, form[1..], m)
  {
    m :| Derives(g, [form[0]], [], m);
    assert form == [form[0]] + form[1..];
    HeadVanishes(g, form[0], form[1..], m);
  }

  // ----- the two closure conditions, and what they entail -----

  /** A set of symbols closed under "all of a right-hand side, hence the left-hand side". */
  ghost predicate NullClosed(g: Grammar, lambda: set<nat>) {
    forall r :: 0 <= r < |g.rules| ==> RuleNullClosed(g, lambda, r)
  }

  ghost predicate RuleNullClosed(g: Grammar, lambda: set<nat>, r: nat)
    requires r < |g.rules|
  {
    (forall i :: 0 <= i < |g.rules[r].rhs| ==> g.rules[r].rhs[i] in lambda) ==> g.rules[r].lhs in lambda
  }

  /** Whatever vanishes consists of closed symbols. */
  lemma {:induction false} VanishingIsClosed(g: Grammar, lambda: set<nat>, form: seq<nat>, n: nat)
    requires NullClosed(g, lambda) && Derives(g, form, [], n)
    ensures forall i :: 0 <= i < |form| ==> form[i] in lambda
    decreases n
  {
    if n > 0 {
      var i: nat, r: nat :| Applies(g, form, i, r) && Derives(g, Rewrite(g, form, i, r), [], n - 1);
      var next, rhs := Rewrite(g, form, i, r), g.rules[r].rhs;
      VanishingIsClosed(g, lambda, next, n - 1);
      assert forall k :: 0 <= k < |rhs| ==> next[i + k] == rhs[k];
      assert forall k :: 0 <= k < i ==> next[k] == form[k];
      assert forall k :: i < k < |form| ==> next[k - 1 + |rhs|] == form[k];
      assert RuleNullClosed(g, lambda, r);
    }
  }

  /** t is in the sets at position i: it is the symbol there, or in the set of that symbol. */
  ghost predicate Hits(g: Grammar, first: map<nat, set<nat>>, s: nat, t: nat) {
    s == t || (s in first && t in first[s])
  }

  /** Some position of the form hits t and everything before it is in lambda. */
  ghost predicate HitAt(g: Grammar, lambda: set<nat>, first: map<nat, set<nat>>, form: seq<nat>, t: nat, i: nat) {
    i < |form| && Hits(g, first, form[i], t) && forall k :: 0 <= k < i ==> form[k] in lambda
  }

  ghost predicate FirstClosed(g: Grammar, lambda: set<nat>, first: map<nat, set<nat>>) {
    forall r :: 0 <= r < |g.rules| ==> RuleClosed(g, lambda, first, r)
  }

  ghost predicate RuleClosed(g: Grammar, lambda: set<nat>, first: map<nat, set<nat>>, r: nat)
    requires r < |g.rules|
  {
    forall i: nat, t: nat :: t < g.nterminal && HitAt(g, lambda, first, g.rules[r].rhs, t, i) ==>
      g.rules[r].lhs in first && t in first[g.rules[r].lhs]
  }

  /** A hit in a rewritten form comes from a hit in the form. */
  lemma PullBack(g: Grammar, lambda: set<nat>, first: map<nat, set<nat>>, form: seq<nat>, i: nat, r: nat, t: nat,
                 j: nat)
    returns (at: nat)
    requires NullClosed(g, lambda) && FirstClosed(g, lambda, first) && t < g.nterminal
    requires Applies(g, form, i, r) && HitAt(g, lambda, first, Rewrite(g, form, i, r), t, j)
    ensures HitAt(g, lambda, first, form, t, at)
  {
    var next, rhs := Rewrite(g, form, i, r), g.rules[r].rhs;
    assert forall k :: 0 <= k < i ==> form[k] == next[k];
    if j < i {
      at := j;
    } else if j < i + |rhs| {
      assert forall k :: 0 <= k < |rhs| ==> rhs[k] == next[i + k];
      assert HitAt(g, lambda, first, rhs, t, j - i);
      assert RuleClosed(g, lambda, first, r);
      at := i;
    } else {
      at := j + 1 - |rhs|;
      forall k | 0 <= k < |rhs| ensures rhs[k] in lambda { assert rhs[k] == next[i + k]; }
      assert RuleNullClosed(g, lambda, r);
      forall k | i < k <= at ensures form[k] == next[k - 1 + |rhs|] { }
    }
  }

  /** Whatever a form can begin with is hit by the sets. */
  lemma {:induction false} BeginningIsClosed(g: Grammar, lambda: set<nat>, first: map<nat, set<nat>>,
                                             form: seq<nat>, t: nat, tail: seq<nat>, n: nat)
    returns (at: nat)
    requires NullClosed(g, lambda) && FirstClosed(g, lambda, first) && t < g.nterminal
    requires Derives(g, form, [t] + tail, n)
    ensures HitAt(g, lambda, first, form, t, at)
    decreases n
  {
    if n == 0 {
      at := 0;
    } else {
      var i: nat, r: nat :| Applies(g, form, i, r) && Derives(g, Rewrite(g, form, i, r), [t] + tail, n - 1);
      var j := BeginningIsClosed(g, lambda, first, Rewrite(g, form, i, r), t, tail, n - 1);
      at := PullBack(g, lambda, first, form, i, r, t, j);
    }
  }
}
