/** Parse trees, in rows, and how they correspond to derivations. */
module ParseForest {
  import opened Derivations

  /** A row of trees: a leaf is a token, a node has a rule and the row of its children. */
  datatype Forest = Nil | Leaf(token: nat, next: Forest) | Node(rule: nat, kids: Forest, next: Forest)

  function Roots(g: Grammar, f: Forest): seq<nat> {
    match f
    case Nil => []
    case Leaf(t, next) => [t] + Roots(g, next)
    case Node(r, _, next) => [if r < |g.rules| then g.rules[r].lhs else 0] + Roots(g, next)
  }

  /** The tokens at the leaves. */
  function Text(f: Forest): seq<nat> {
    match f
    case Nil => []
    case Leaf(t, next) => [t] + Text(next)
    case Node(_, kids, next) => Text(kids) + Text(next)
  }

  /** How many places on a stack it takes to parse a row from left to right: the roots already
      parsed stay there, and a node takes one place when its children have left theirs. */
  function Height(f: Forest): nat {
    match f
    case Nil => 0
    case Leaf(_, next) => 1 + Height(next)
    case Node(_, kids, next) => Max(Height(kids), 1 + Height(next))
  }

  function Max(a: nat, b: nat): nat { if a < b then b else a }

  /** The same for its first tree. */
  function HeadHeight(f: Forest): nat {
    if f.Node? then Max(Height(f.kids), 1) else 1
  }

  predicate Fits(g: Grammar, f: Forest) {
    match f
    case Nil => true
    case Leaf(t, next) => t < g.nterminal && Fits(g, next)
    case Node(r, kids, next) =>
      r < |g.rules| && Roots(g, kids) == g.rules[r].rhs && Fits(g, kids) && Fits(g, next)
  }

  lemma {:induction false} TextIsTerminal(g: Grammar, f: Forest)
    requires Fits(g, f)
    ensures forall k :: 0 <= k < |Text(f)| ==> Text(f)[k] < g.nterminal
  {
    match f
    case Nil =>
    case Leaf(_, next) => TextIsTerminal(g, next);
    case Node(_, kids, next) =>
      TextIsTerminal(g, kids);
      TextIsTerminal(g, next);
  }

  /** The roots of a forest derive its text. */
  lemma {:induction false} ForestDerives(g: Grammar, f: Forest) returns (n: nat)
    requires Fits(g, f)
    ensures Derives(g, Roots(g, f), Text(f), n)
  {
    match f
    case Nil => n := 0;
    case Leaf(t, next) =>
      n := ForestDerives(g, next);
      InContext(g, [t], Roots(g, next), Text(next), [], n);
      assert [t] + Roots(g, next) + [] == Roots(g, f) && [t] + Text(next) + [] == Text(f);
    case Node(r, kids, next) =>
      var below := ForestDerives(g, kids);
      var beside := ForestDerives(g, next);
      OneStep(g, r);
      Chain(g, [g.rules[r].lhs], g.rules[r].rhs, Text(kids), 1, below);
      SideBySide(g, [g.rules[r].lhs], Text(kids), Roots(g, next), Text(next), 1 + below, beside);
      n := 1 + below + beside;
  }

  lemma SideBySide(g: Grammar, a: seq<nat>, b: seq<nat>, c: seq<nat>, d: seq<nat>, n: nat, m: nat)
    requires Derives(g, a, b, n) && Derives(g, c, d, m)
    ensures Derives(g, a + c, b + d, n + m)
  {
    InContext(g, [], a, b, c, n);
    InContext(g, b, c, d, [], m);
    assert [] + a + c == a + c && [] + b + c == b + c && b + c + [] == b + c && b + d + [] == b + d;
    Chain(g, a + c, b + c, b + d, n, m);
  }

  /** How many nodes a row has. */
  function Nodes(f: Forest): nat {
    match f
    case Nil => 0
    case Leaf(_, next) => Nodes(next)
    case Node(_, kids, next) => 1 + Nodes(kids) + Nodes(next)
  }

  /** The first tree of a row in front of another row. */
  function Put(f: Forest, next: Forest): Forest
    requires f != Nil
  {
    if f.Leaf? then Leaf(f.token, next) else Node(f.rule, f.kids, next)
  }

  function HeadText(f: Forest): seq<nat>
    requires f != Nil
  {
    if f.Leaf? then [f.token] else Text(f.kids)
  }

  function HeadNodes(f: Forest): nat { if f.Node? then 1 + Nodes(f.kids) else 0 }

  lemma PutIs(g: Grammar, f: Forest, next: Forest)
    requires f != Nil && Fits(g, f) && Fits(g, next)
    ensures Fits(g, Put(f, next)) && Text(Put(f, next)) == HeadText(f) + Text(next)
    ensures |Roots(g, f)| > 0 && Roots(g, Put(f, next)) == [Roots(g, f)[0]] + Roots(g, next)
    ensures Nodes(Put(f, next)) == HeadNodes(f) + Nodes(next) && Put(f, f.next) == f
  {
  }

  lemma Parted(all: seq<nat>, x: nat, tail: seq<nat>, k: nat)
    requires all == [x] + tail && 0 < k <= |all|
    ensures all[..k] == [x] + tail[..k - 1] && all[k..] == tail[k - 1..]
  {
  }

  lemma Regroup(a: seq<nat>, b: seq<nat>, c: seq<nat>)
    ensures (a + b) + c == a + (b + c)
  {
  }

  lemma {:induction false} Split(g: Grammar, f: Forest, k: nat) returns (a: Forest, b: Forest)
    requires Fits(g, f) && k <= |Roots(g, f)|
    ensures Fits(g, a) && Fits(g, b) && Roots(g, a) == Roots(g, f)[..k] && Roots(g, b) == Roots(g, f)[k..]
    ensures Text(a) + Text(b) == Text(f) && Nodes(a) + Nodes(b) == Nodes(f)
  {
    if k == 0 {
      a, b := Nil, f;
    } else {
      PutIs(g, f, f.next);
      var rest;
      rest, b := Split(g, f.next, k - 1);
      PutIs(g, f, rest);
      a := Put(f, rest);
      Parted(Roots(g, f), Roots(g, f)[0], Roots(g, f.next), k);
      Regroup(HeadText(f), Text(rest), Text(b));
    }
  }

  lemma Behind(all: seq<nat>, x: nat, tail: seq<nat>, i: nat, k: nat, lhs: nat)
    requires all == [x] + tail && 0 < i && i + k <= |all|
    ensures all[i..i + k] == tail[i - 1..i - 1 + k]
    ensures all[..i] + [lhs] + all[i + k..] == [x] + (tail[..i - 1] + [lhs] + tail[i - 1 + k..])
  {
    assert all[..i] == [x] + tail[..i - 1] && all[i + k..] == tail[i - 1 + k..];
  }

  /** The roots from i on that make up a right-hand side are put under one node. */
  lemma {:induction false} Gather(g: Grammar, f: Forest, i: nat, r: nat) returns (h: Forest)
    requires Fits(g, f) && r < |g.rules| && i + |g.rules[r].rhs| <= |Roots(g, f)|
    requires Roots(g, f)[i..i + |g.rules[r].rhs|] == g.rules[r].rhs
    ensures Fits(g, h) && Text(h) == Text(f) && Nodes(h) == Nodes(f) + 1
    ensures Roots(g, h) == Roots(g, f)[..i] + [g.rules[r].lhs] + Roots(g, f)[i + |g.rules[r].rhs|..]
  {
    var k := |g.rules[r].rhs|;
    if i == 0 {
      var kids, next := Split(g, f, k);
      h := Node(r, kids, next);
    } else {
      PutIs(g, f, f.next);
      Behind(Roots(g, f), Roots(g, f)[0], Roots(g, f.next), i, k, g.rules[r].lhs);
      var next := Gather(g, f.next, i - 1, r);
      PutIs(g, f, next);
      h := Put(f, next);
    }
  }

  /** A token behind the row. */
  lemma {:induction false} Add(g: Grammar, f: Forest, t: nat) returns (h: Forest)
    requires Fits(g, f) && t < g.nterminal
    ensures Fits(g, h) && Roots(g, h) == Roots(g, f) + [t] && Text(h) == Text(f) + [t] && Nodes(h) == Nodes(f)
  {
    if f == Nil {
      h := Leaf(t, Nil);
    } else {
      PutIs(g, f, f.next);
      var next := Add(g, f.next, t);
      PutIs(g, f, next);
      h := Put(f, next);
    }
  }

  lemma {:induction false} Leaves(g: Grammar, text: seq<nat>) returns (f: Forest)
    requires forall k :: 0 <= k < |text| ==> text[k] < g.nterminal
    ensures Fits(g, f) && Roots(g, f) == Text(f) == text
  {
    if text == [] {
      f := Nil;
    } else {
      var next := Leaves(g, text[1..]);
      f := Leaf(text[0], next);
    }
  }

  lemma UndoRewrite(g: Grammar, form: seq<nat>, i: nat, r: nat, next: seq<nat>)
    requires Applies(g, form, i, r) && next == Rewrite(g, form, i, r)
    ensures var k := |g.rules[r].rhs|;
            i + k <= |next| && next[i..i + k] == g.rules[r].rhs && next[..i] + [g.rules[r].lhs] + next[i + k..] == form
  {
    assert next[i + |g.rules[r].rhs|..] == form[i + 1..];
    assert next[..i] == form[..i];
  }

  lemma Step(g: Grammar, form: seq<nat>, text: seq<nat>, n: nat) returns (i: nat, r: nat, next: seq<nat>)
    requires n > 0 && Derives(g, form, text, n)
    ensures Applies(g, form, i, r) && next == Rewrite(g, form, i, r) && Derives(g, next, text, n - 1)
  {
    i, r :| Applies(g, form, i, r) && Derives(g, Rewrite(g, form, i, r), text, n - 1);
    next := Rewrite(g, form, i, r);
  }

  /** Every derivation of a text of tokens is that of a forest. */
  lemma {:induction false} DerivationHasForest(g: Grammar, form: seq<nat>, text: seq<nat>, n: nat) returns (f: Forest)
    requires Derives(g, form, text, n) && forall k :: 0 <= k < |text| ==> text[k] < g.nterminal
    ensures Fits(g, f) && Roots(g, f) == form && Text(f) == text
    decreases n
  {
    if n == 0 {
      f := Leaves(g, text);
    } else {
      var i, r, next := Step(g, form, text, n);
      var h := DerivationHasForest(g, next, text, n - 1);
      UndoRewrite(g, form, i, r, next);
      f := Gather(g, h, i, r);
    }
  }
}
