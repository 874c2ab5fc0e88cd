/**
 * What a generated parser must accept.  If the states are closed under the moves of the dot,
 * every item carries the tokens that may follow it, and the action lists do what the items
 * say, as FindStates, FindFollowSets and FindActions of lemon.c make them for a grammar
 * without conflicts, then every sentence is accepted unless the stack overflows.
 */
module LemonComplete {
  import opened Options
  import opened LemonActions
  import opened LemonCompress
  import opened LemonTables
  import opened LemonDriver
  import opened LemonSound
  import opened ParseForest
  import D = Derivations
  import LemonFollow

  /** The tokens that may follow the rule of an item, in a state. */
  type Lookaheads = (nat, Item) -> set<nat>

  // ----- parsers that serve their items -----

  /** Token t may come where `rest` is still to come, and then one of `after`. */
  ghost predicate MayCome(g: D.Grammar, rest: seq<nat>, after: set<nat>, t: nat) {
    D.Begins(g, rest, t) || (D.Vanishes(g, rest) && t in after)
  }

  function Over(g: D.Grammar, m: Machine, s: nat, x: nat): int {
    if x < g.nterminal then m.act(s, x) else m.goto(s, x)
  }

  /** Over the symbol after the dot there is a way on, and the tokens that may follow go along. */
  ghost predicate MovesOn(lr: Automaton, m: Machine, la: Lookaheads, s: nat, i: Item)
    requires InRule(lr.g, i) && i.dot < |lr.g.rules[i.rule].rhs|
  {
    var a, next := Over(lr.g, m, s, lr.g.rules[i.rule].rhs[i.dot]), Item(i.rule, i.dot + 1);
    0 <= a < m.g.nstate && next in lr.items(a) && la(s, i) <= la(a, next)
  }

  /** The rules of the symbol after the dot start here, before what may come behind it. */
  ghost predicate Closes(lr: Automaton, la: Lookaheads, s: nat, i: Item, r: nat)
    requires InRule(lr.g, i) && i.dot < |lr.g.rules[i.rule].rhs| && r < |lr.g.rules|
  {
    lr.g.rules[r].lhs == lr.g.rules[i.rule].rhs[i.dot] ==>
      && Item(r, 0) in lr.items(s)
      && forall t {:trigger MayCome(lr.g, lr.g.rules[i.rule].rhs[i.dot + 1..], la(s, i), t)} ::
        0 <= t < lr.g.nterminal && MayCome(lr.g, lr.g.rules[i.rule].rhs[i.dot + 1..], la(s, i), t) ==>
          t in la(s, Item(r, 0))
  }

  ghost predicate ReducesOn(g: D.Grammar, m: Machine, la: Lookaheads, s: nat, i: Item, t: nat) {
    t < g.nterminal && t in la(s, i) ==> m.act(s, t) == m.g.nstate + i.rule
  }

  ghost predicate Serves(lr: Automaton, m: Machine, la: Lookaheads, s: nat, i: Item) {
    && InRule(lr.g, i)
    && if i.dot < |lr.g.rules[i.rule].rhs|
       then
         && MovesOn(lr, m, la, s, i)
         && forall r {:trigger Closes(lr, la, s, i, r)} :: 0 <= r < |lr.g.rules| ==> Closes(lr, la, s, i, r)
       else forall t: nat :: ReducesOn(lr.g, m, la, s, i, t)
  }

  /** The start rules are expected in the first state, before the end marker. */
  ghost predicate Opens(lr: Automaton, la: Lookaheads) {
    forall r: nat :: r < |lr.g.rules| && lr.g.rules[r].lhs == lr.start ==>
      Item(r, 0) in lr.items(0) && 0 in la(0, Item(r, 0))
  }

  ghost predicate ServesAll(lr: Automaton, m: Machine, la: Lookaheads) {
    && Rooted(lr.g, lr.start) && m.g.nterminal == lr.g.nterminal && m.g.nsymbol == lr.g.nsymbol && m.g.nstate > 0
    && |lr.g.rules| == m.g.nrule && RulesOf(lr.g, m.rules)
    && (forall s: nat, i {:trigger Serves(lr, m, la, s, i)} ::
          s < m.g.nstate && i in lr.items(s) ==> Serves(lr, m, la, s, i))
    && Opens(lr, la) && m.goto(0, lr.start) == m.g.nstate + m.g.nrule + 1
  }

  // ----- one row of trees -----

  lemma NextConfig(m: Machine, c: Config) returns (d: Config)
    requires c.status == Running
    ensures forall k: nat :: k > 0 ==> Run(m, c, k) == Run(m, d, k - 1)
  {
    d := StepParser(m, c);
  }

  lemma {:induction false} RunOn(m: Machine, c: Config, a: nat, b: nat)
    ensures Run(m, Run(m, c, a), b) == Run(m, c, a + b)
    decreases a
  {
    if a > 0 && c.status == Running {
      var d := NextConfig(m, c);
      assert Run(m, c, a) == Run(m, d, a - 1) && Run(m, c, a + b) == Run(m, d, a + b - 1);
      RunOn(m, d, a - 1, b);
    }
  }

  lemma OneMore(m: Machine, c: Config, k: nat, d: Config) returns (n: nat)
    requires d == Run(m, c, k) && d.status == Running
    ensures Run(m, c, n) == StepParser(m, d)
  {
    n := k + 1;
    RunOn(m, c, k, 1);
    assert Run(m, d, 1) == StepParser(m, d);
  }

  /** State s is on top and expects item i before token t. */
  ghost predicate Expecting(lr: Automaton, m: Machine, la: Lookaheads, stack: seq<Frame>, i: Item, t: nat) {
    stack != [] && var s := stack[|stack| - 1].state; s < m.g.nstate && i in lr.items(s) && t in la(s, i)
  }

  /** From c the parser has put k symbols on the stack, and the rest of the input is to come. */
  ghost predicate Went(c: Config, d: Config, k: nat, rest: seq<nat>) {
    && d.status == Running && d.input == rest
    && |d.stack| == |c.stack| + k && d.stack[..|c.stack|] == c.stack
  }

  /** The symbol after the dot has been put on the stack, if `height` fits into it. */
  ghost predicate Passed(lr: Automaton, m: Machine, la: Lookaheads, c: Config, d: Config, i: Item, rest: seq<nat>,
                         t: nat, height: nat)
  {
    if |c.stack| + height > STACK_DEPTH then d.status == Overflow
    else Went(c, d, 1, rest) && Expecting(lr, m, la, d.stack, Item(i.rule, i.dot + 1), t)
  }

  lemma PushPasses(lr: Automaton, m: Machine, la: Lookaheads, c: Config, read: Config, i: Item, x: nat,
                   rest: seq<nat>, t: nat)
    requires InRule(lr.g, i) && i.dot < |lr.g.rules[i.rule].rhs| && Expecting(lr, m, la, c.stack, i, t)
    requires x == lr.g.rules[i.rule].rhs[i.dot] && MovesOn(lr, m, la, c.stack[|c.stack| - 1].state, i)
    requires read.stack == c.stack && read.status == Running && read.input == rest
    ensures var a := Over(lr.g, m, c.stack[|c.stack| - 1].state, x);
            a >= 0 && Passed(lr, m, la, c, Push(read, a, x), i, rest, t, 1)
  {
  }

  lemma ShiftPasses(lr: Automaton, m: Machine, la: Lookaheads, c: Config, i: Item, x: nat, rest: seq<nat>, t: nat)
    requires ServesAll(lr, m, la) && c.status == Running && Expecting(lr, m, la, c.stack, i, t)
    requires InRule(lr.g, i) && i.dot < |lr.g.rules[i.rule].rhs| && x == lr.g.rules[i.rule].rhs[i.dot] < lr.g.nterminal
    requires c.input == [x] + rest
    ensures Passed(lr, m, la, c, StepParser(m, c), i, rest, t, 1)
  {
    var s := c.stack[|c.stack| - 1].state;
    assert Serves(lr, m, la, s, i);
    var a := m.act(s, x);
    var read := c.(log := c.log + [Shifted(x, a)], input := c.input[1..]);
    assert x != 0 && c.input[0] == x && c.input[1..] == rest;
    PushPasses(lr, m, la, c, read, i, x, rest, t);
  }

  /** A reduction by rule r takes its right-hand side off the stack again. */
  lemma ReduceIs(lr: Automaton, m: Machine, la: Lookaheads, c: Config, d: Config, r: nat, rest: seq<nat>)
    requires ServesAll(lr, m, la) && r < |lr.g.rules| && c.stack != [] && rest != [] && rest[0] < lr.g.nterminal
    requires Went(c, d, |lr.g.rules[r].rhs|, rest) && Expecting(lr, m, la, d.stack, EndOf(lr.g, r), rest[0])
    ensures StepParser(m, d) == ReduceBy(m, d, r) && m.rules[r].nrhs < |d.stack|
    ensures d.stack[..|d.stack| - m.rules[r].nrhs] == c.stack
  {
    var s := d.stack[|d.stack| - 1].state;
    assert Serves(lr, m, la, s, EndOf(lr.g, r));
    assert ReducesOn(lr.g, m, la, s, EndOf(lr.g, r), rest[0]);
  }

  lemma ReducePasses(lr: Automaton, m: Machine, la: Lookaheads, c: Config, d: Config, r: nat,
                     i: Item, rest: seq<nat>, t: nat)
    requires ServesAll(lr, m, la) && r < |lr.g.rules| && rest != [] && rest[0] < lr.g.nterminal
    requires Went(c, d, |lr.g.rules[r].rhs|, rest) && Expecting(lr, m, la, d.stack, EndOf(lr.g, r), rest[0])
    requires Expecting(lr, m, la, c.stack, i, t)
    requires InRule(lr.g, i) && i.dot < |lr.g.rules[i.rule].rhs| && lr.g.rules[r].lhs == lr.g.rules[i.rule].rhs[i.dot]
    ensures Passed(lr, m, la, c, StepParser(m, d), i, rest, t, 1)
  {
    ReduceIs(lr, m, la, c, d, r, rest);
    var s, x := c.stack[|c.stack| - 1].state, lr.g.rules[r].lhs;
    assert Serves(lr, m, la, s, i);
    assert m.rules[r] == Rule(x, |lr.g.rules[r].rhs|);
    var read := d.(stack := c.stack, log := d.log + [Reduced(r)]);
    PushPasses(lr, m, la, c, read, i, x, rest, t);
  }

  lemma NextToken(g: D.Grammar, next: Forest, rest: seq<nat>, after: set<nat>) returns (t: nat)
    requires Fits(g, next) && rest != [] && rest[0] < g.nterminal && rest[0] in after
    ensures t == (Text(next) + rest)[0] < g.nterminal && MayCome(g, Roots(g, next), after, t)
  {
    t := (Text(next) + rest)[0];
    var n := ForestDerives(g, next);
    if Text(next) != [] {
      TextIsTerminal(g, next);
      assert Text(next) == [t] + Text(next)[1..];
      assert D.Begins(g, Roots(g, next), t);
    } else {
      assert D.Vanishes(g, Roots(g, next));
    }
  }

  /** What comes behind a tree is what its node may be reduced before. */
  lemma ClosedBefore(lr: Automaton, m: Machine, la: Lookaheads, stack: seq<Frame>, i: Item,
                     r: nat, next: Forest, rest: seq<nat>)
    requires ServesAll(lr, m, la) && Fits(lr.g, next) && rest != [] && rest[0] < lr.g.nterminal
    requires Expecting(lr, m, la, stack, i, rest[0]) && InRule(lr.g, i) && i.dot < |lr.g.rules[i.rule].rhs|
    requires r < |lr.g.rules| && lr.g.rules[r].lhs == lr.g.rules[i.rule].rhs[i.dot]
    requires Roots(lr.g, next) == lr.g.rules[i.rule].rhs[i.dot + 1..]
    ensures (Text(next) + rest)[0] < lr.g.nterminal && Expecting(lr, m, la, stack, Item(r, 0), (Text(next) + rest)[0])
  {
    var s := stack[|stack| - 1].state;
    var t := NextToken(lr.g, next, rest, la(s, i));
    assert Serves(lr, m, la, s, i);
    assert Closes(lr, la, s, i, r);
  }

  /** The rest of the right-hand side has been put on the stack, if `height` fits into it. */
  ghost predicate Arrives(lr: Automaton, m: Machine, la: Lookaheads, c: Config, d: Config, i: Item, k: nat,
                          rest: seq<nat>,
                          height: nat)
    requires InRule(lr.g, i)
  {
    if |c.stack| + height > STACK_DEPTH then d.status == Overflow
    else rest != [] && Went(c, d, k, rest) && Expecting(lr, m, la, d.stack, EndOf(lr.g, i.rule), rest[0])
  }

  /** What is to be parsed: the trees behind the dot, and then a token that may follow. */
  ghost predicate Due(lr: Automaton, m: Machine, la: Lookaheads, c: Config, f: Forest, i: Item, rest: seq<nat>) {
    && Fits(lr.g, f) && InRule(lr.g, i) && Roots(lr.g, f) == lr.g.rules[i.rule].rhs[i.dot..]
    && c.status == Running && c.input == Text(f) + rest && rest != [] && rest[0] < lr.g.nterminal
    && Expecting(lr, m, la, c.stack, i, rest[0]) && |c.stack| <= STACK_DEPTH
  }

  /** One tree, and then the others of the row. */
  lemma ThenNext(lr: Automaton, m: Machine, la: Lookaheads, c: Config, d: Config, e: Config, f: Forest, i: Item,
                 rest: seq<nat>)
    requires f != Nil && InRule(lr.g, i) && i.dot < |lr.g.rules[i.rule].rhs|
    requires rest != [] && Passed(lr, m, la, c, d, i, Text(f.next) + rest, rest[0], HeadHeight(f))
    requires if |c.stack| + HeadHeight(f) > STACK_DEPTH then e == d
             else Arrives(lr, m, la, d, e, Item(i.rule, i.dot + 1), |Roots(lr.g, f.next)|, rest, Height(f.next))
    ensures Arrives(lr, m, la, c, e, i, |Roots(lr.g, f)|, rest, Height(f))
  {
    HeightIs(f);
    if |c.stack| + Height(f) <= STACK_DEPTH { assert e.stack[..|c.stack|] == e.stack[..|d.stack|][..|c.stack|]; }
  }

  lemma NextDue(lr: Automaton, m: Machine, la: Lookaheads, c: Config, d: Config, f: Forest, i: Item, rest: seq<nat>)
    requires Due(lr, m, la, c, f, i, rest) && f != Nil
    requires Passed(lr, m, la, c, d, i, Text(f.next) + rest, rest[0], HeadHeight(f))
    requires |c.stack| + HeadHeight(f) <= STACK_DEPTH
    ensures i.dot < |lr.g.rules[i.rule].rhs| && Due(lr, m, la, d, f.next, Item(i.rule, i.dot + 1), rest)
  {
    var rhs := lr.g.rules[i.rule].rhs;
    assert rhs[i.dot..][1..] == rhs[i.dot + 1..];
    assert Roots(lr.g, f)[1..] == Roots(lr.g, f.next);
  }

  lemma HeightIs(f: Forest)
    requires f != Nil
    ensures Height(f) == Max(HeadHeight(f), 1 + Height(f.next))
  {
  }

  lemma NothingDue(lr: Automaton, m: Machine, la: Lookaheads, c: Config, i: Item, rest: seq<nat>)
    requires Due(lr, m, la, c, Nil, i, rest)
    ensures Arrives(lr, m, la, c, c, i, 0, rest, 0)
  {
    assert c.stack[..|c.stack|] == c.stack;
    assert i == EndOf(lr.g, i.rule);
  }

  /** The trees behind the dot of an item are parsed if they fit into the stack. */
  lemma {:induction false} ParseRow(lr: Automaton, m: Machine, la: Lookaheads, c: Config, f: Forest,
                                    i: Item, rest: seq<nat>) returns (n: nat)
    requires ServesAll(lr, m, la) && Due(lr, m, la, c, f, i, rest)
    ensures Arrives(lr, m, la, c, Run(m, c, n), i, |Roots(lr.g, f)|, rest, Height(f))
    decreases f, 1
  {
    if f == Nil {
      n := 0;
      NothingDue(lr, m, la, c, i, rest);
    } else {
      var k := ParseTree(lr, m, la, c, f, i, rest);
      n := ParseRest(lr, m, la, c, k, f, i, rest);
    }
  }

  /** The row behind its first tree. */
  lemma {:induction false} ParseRest(lr: Automaton, m: Machine, la: Lookaheads, c: Config, k: nat, f: Forest,
                                     i: Item, rest: seq<nat>) returns (n: nat)
    requires ServesAll(lr, m, la) && Due(lr, m, la, c, f, i, rest) && f != Nil
    requires Passed(lr, m, la, c, Run(m, c, k), i, Text(f.next) + rest, rest[0], HeadHeight(f))
    ensures Arrives(lr, m, la, c, Run(m, c, n), i, |Roots(lr.g, f)|, rest, Height(f))
    decreases f, 0
  {
    var d := Run(m, c, k);
    FirstRoot(lr.g, f, i);
    var more := 0;
    if |c.stack| + HeadHeight(f) <= STACK_DEPTH {
      NextDue(lr, m, la, c, d, f, i, rest);
      more := ParseRow(lr, m, la, d, f.next, Item(i.rule, i.dot + 1), rest);
    }
    ThenNext(lr, m, la, c, d, Run(m, d, more), f, i, rest);
    RunOn(m, c, k, more);
    n := k + more;
  }

  lemma {:induction false} ParseTree(lr: Automaton, m: Machine, la: Lookaheads, c: Config, f: Forest,
                                     i: Item, rest: seq<nat>) returns (n: nat)
    requires ServesAll(lr, m, la) && Due(lr, m, la, c, f, i, rest) && f != Nil
    ensures Passed(lr, m, la, c, Run(m, c, n), i, Text(f.next) + rest, rest[0], HeadHeight(f))
    decreases f, 0
  {
    FirstRoot(lr.g, f, i);
    var later := Text(f.next) + rest;
    if f.Leaf? {
      assert c.input == [f.token] + later;
      ShiftPasses(lr, m, la, c, i, f.token, later, rest[0]);
      n := 1;
      assert Run(m, c, 1) == StepParser(m, c);
    } else {
      NodeDue(lr, m, la, c, f, i, rest, later);
      n := ParseRow(lr, m, la, c, f.kids, Item(f.rule, 0), later);
      n := ThenReduce(lr, m, la, c, n, f, i, rest, later);
    }
  }

  /** When its children are parsed, so is the node. */
  lemma ThenReduce(lr: Automaton, m: Machine, la: Lookaheads, c: Config, k: nat, f: Forest,
                   i: Item, rest: seq<nat>, later: seq<nat>) returns (n: nat)
    requires ServesAll(lr, m, la) && Due(lr, m, la, c, f, i, rest) && f.Node?
    requires later != [] && later[0] < lr.g.nterminal && i.dot < |lr.g.rules[i.rule].rhs|
    requires lr.g.rules[f.rule].lhs == lr.g.rules[i.rule].rhs[i.dot]
    requires Arrives(lr, m, la, c, Run(m, c, k), Item(f.rule, 0), |lr.g.rules[f.rule].rhs|, later, Height(f.kids))
    ensures Passed(lr, m, la, c, Run(m, c, n), i, later, rest[0], HeadHeight(f))
  {
    n := k;
    if |c.stack| + Height(f.kids) <= STACK_DEPTH {
      var d := Run(m, c, k);
      ReducePasses(lr, m, la, c, d, f.rule, i, later, rest[0]);
      n := OneMore(m, c, k, d);
    }
  }

  lemma FirstRoot(g: D.Grammar, f: Forest, i: Item)
    requires f != Nil && InRule(g, i) && Roots(g, f) == g.rules[i.rule].rhs[i.dot..]
    ensures i.dot < |g.rules[i.rule].rhs| && Roots(g, f)[0] == g.rules[i.rule].rhs[i.dot]
    ensures Roots(g, f.next) == g.rules[i.rule].rhs[i.dot + 1..]
  {
    var rhs := g.rules[i.rule].rhs;
    assert rhs[i.dot..][1..] == rhs[i.dot + 1..] && Roots(g, f)[1..] == Roots(g, f.next);
  }

  lemma NodeDue(lr: Automaton, m: Machine, la: Lookaheads, c: Config, f: Forest, i: Item, rest: seq<nat>,
                later: seq<nat>)
    requires ServesAll(lr, m, la) && Due(lr, m, la, c, f, i, rest) && f.Node? && later == Text(f.next) + rest
    ensures Due(lr, m, la, c, f.kids, Item(f.rule, 0), later)
  {
    FirstRoot(lr.g, f, i);
    assert c.input == Text(f.kids) + later;
    ClosedBefore(lr, m, la, c.stack, i, f.rule, f.next, rest);
    assert lr.g.rules[f.rule].rhs[0..] == lr.g.rules[f.rule].rhs;
  }

  // ----- whole inputs -----

  lemma StartTree(g: D.Grammar, start: nat, f: Forest)
    requires Rooted(g, start) && Fits(g, f) && Roots(g, f) == [start]
    ensures f.Node? && f.next == Nil && g.rules[f.rule].lhs == start && Text(f) == Text(f.kids)
  {
    assert Roots(g, f)[0] == start && Roots(g, f)[1..] == Roots(g, f.next) == [];
    match f.next
    case Nil =>
    case Leaf(_, _) =>
    case Node(_, _, _) =>
  }

  /** The end marker behind a complete start rule is accepted. */
  lemma AcceptsAtEnd(lr: Automaton, m: Machine, la: Lookaheads, c: Config, d: Config, r: nat)
    requires ServesAll(lr, m, la) && r < |lr.g.rules| && lr.g.rules[r].lhs == lr.start
    requires c.stack == [Frame(0, 0)] && Went(c, d, |lr.g.rules[r].rhs|, [0])
    requires Expecting(lr, m, la, d.stack, EndOf(lr.g, r), 0)
    ensures StepParser(m, d).status == Accepted
  {
    ReduceIs(lr, m, la, c, d, r, [0]);
    assert m.rules[r] == Rule(lr.start, |lr.g.rules[r].rhs|);
  }

  /** The text of a tree of the start symbol, that fits into the stack above its bottom. */
  ghost predicate Parsable(g: D.Grammar, start: nat, text: seq<nat>, f: Forest) {
    Fits(g, f) && Roots(g, f) == [start] && Text(f) == text
  }

  lemma StartDue(lr: Automaton, m: Machine, la: Lookaheads, w: seq<nat>, f: Forest)
    requires ServesAll(lr, m, la) && Sentence(lr.g, w) && |w| > 1 && Parsable(lr.g, lr.start, w[..|w| - 1], f)
    ensures f.Node? && f.rule < |lr.g.rules| && lr.g.rules[f.rule].lhs == lr.start &&
      Roots(lr.g, f.kids) == lr.g.rules[f.rule].rhs
    ensures Height(f) == Max(Height(f.kids), 1) && Due(lr, m, la, Begin(w), f.kids, Item(f.rule, 0), [0])
  {
    StartTree(lr.g, lr.start, f);
    assert w == w[..|w| - 1] + [0] && w[0] != 0;
    assert lr.g.rules[f.rule].rhs[0..] == lr.g.rules[f.rule].rhs;
  }

  /** A parser that serves its items accepts every sentence but the empty one, if its tree fits
      into the stack, and overflows if it does not. */
  lemma AcceptsEverySentence(lr: Automaton, m: Machine, la: Lookaheads, w: seq<nat>, f: Forest) returns (n: nat)
    requires ServesAll(lr, m, la) && Sentence(lr.g, w) && |w| > 1 && Parsable(lr.g, lr.start, w[..|w| - 1], f)
    ensures Run(m, Begin(w), n).status == if 1 + Height(f) > STACK_DEPTH then Overflow else Accepted
  {
    StartDue(lr, m, la, w, f);
    var c := Begin(w);
    n := ParseRow(lr, m, la, c, f.kids, Item(f.rule, 0), [0]);
    var d := Run(m, c, n);
    if 1 + Height(f) <= STACK_DEPTH {
      AcceptsAtEnd(lr, m, la, c, d, f.rule);
      n := OneMore(m, c, n, d);
    }
  }

  // ----- the lists the state builder makes -----

  /** The state reached from a state over a symbol. */
  type Successors = (nat, nat) -> nat

  /** The actions for item i of state s, as buildshifts and FindActions add them. */
  ghost predicate Listed(lr: Automaton, lists: seq<seq<Action>>, la: Lookaheads, over: Successors, s: nat, i: Item)
    requires s < |lists|
  {
    && InRule(lr.g, i)
    && if i.dot < |lr.g.rules[i.rule].rhs| then
         var x := lr.g.rules[i.rule].rhs[i.dot];
         && Action(Shift, x, over(s, x)) in lists[s] && over(s, x) < |lists|
         && Item(i.rule, i.dot + 1) in lr.items(over(s, x))
         && forall r :: 0 <= r < |lr.g.rules| && lr.g.rules[r].lhs == x ==> Item(r, 0) in lr.items(s)
       else forall t: nat :: t < lr.g.nterminal && t in la(s, i) ==> Action(Reduce, t, i.rule) in lists[s]
  }

  /** The tokens that may follow item i of state s reach the items it leads to. */
  ghost predicate Spreads(g: D.Grammar, la: Lookaheads, over: Successors, s: nat, i: Item) {
    InRule(g, i) && i.dot < |g.rules[i.rule].rhs| ==>
      var x, rest := g.rules[i.rule].rhs[i.dot], g.rules[i.rule].rhs[i.dot + 1..];
      && la(s, i) <= la(over(s, x), Item(i.rule, i.dot + 1))
      && forall r: nat, t: nat | r < |g.rules| && g.rules[r].lhs == x ::
        t < g.nterminal && MayCome(g, rest, la(s, i), t) ==> t in la(s, Item(r, 0))
  }

  ghost predicate Predicts(lr: Automaton, z: Sizes, lists: seq<seq<Action>>, la: Lookaheads, over: Successors) {
    && Rooted(lr.g, lr.start) && z == Sizes(|lists|, |lr.g.rules|, lr.g.nterminal, lr.g.nsymbol) && |lists| > 0
    && Opens(lr, la) && Action(Accept, lr.start, 0) in lists[0]
    && (forall s: nat, i {:trigger Listed(lr, lists, la, over, s, i)} ::
          s < |lists| && i in lr.items(s) ==> Listed(lr, lists, la, over, s, i))
    && forall s: nat, i {:trigger Spreads(lr.g, la, over, s, i)} :: s < |lists| && i in lr.items(s) ==>
      Spreads(lr.g, la, over, s, i)
  }

  /** `after` is `before` with its conflicts resolved, and there were none. */
  ghost predicate NoConflict(before: seq<Action>, after: seq<Action>) {
    Unambiguous(before) && Resolved(before, after)
  }

  lemma StillFound(before: seq<Action>, after: seq<Action>, a: Action)
    requires NoConflict(before, after) && a in before && Usable(a)
    ensures Find(after, a.symbol) == Some(a)
  {
    var b := Find(after, a.symbol).value;
    FindMember(before, a);
    FindMember(before, b);
  }

  lemma ListActs(z: Sizes, rules: seq<Rule>, lists: seq<seq<Action>>, s: nat, a: Action)
    requires s < |lists| && 0 <= a.symbol < z.nsymbol && Find(lists[s], a.symbol) == Some(a)
    ensures var m := ListMachine(z, rules, lists);
            m.act(s, a.symbol) == m.goto(s, a.symbol) == Code(z, a.kind, a.arg)
  {
  }

  lemma ListServes(lr: Automaton, z: Sizes, rules: seq<Rule>, before: seq<seq<Action>>, lists: seq<seq<Action>>,
                   la: Lookaheads, over: Successors, s: nat, i: Item)
    requires Predicts(lr, z, before, la, over) && |lists| == |before| && s < |lists| && i in lr.items(s)
    requires NoConflict(before[s], lists[s])
    ensures Serves(lr, ListMachine(z, rules, lists), la, s, i)
  {
    var m := ListMachine(z, rules, lists);
    assert Listed(lr, before, la, over, s, i);
    assert Spreads(lr.g, la, over, s, i);
    if i.dot < |lr.g.rules[i.rule].rhs| {
      var x := lr.g.rules[i.rule].rhs[i.dot];
      var a := Action(Shift, x, over(s, x));
      StillFound(before[s], lists[s], a);
      ListActs(z, rules, lists, s, a);
      assert MovesOn(lr, m, la, s, i);
      forall r | 0 <= r < |lr.g.rules| ensures Closes(lr, la, s, i, r) { }
    } else {
      forall t: nat ensures ReducesOn(lr.g, m, la, s, i, t) {
        if t < lr.g.nterminal && t in la(s, i) {
          StillFound(before[s], lists[s], Action(Reduce, t, i.rule));
          ListActs(z, rules, lists, s, Action(Reduce, t, i.rule));
        }
      }
    }
  }

  lemma ListsServe(lr: Automaton, z: Sizes, rules: seq<Rule>, before: seq<seq<Action>>, lists: seq<seq<Action>>,
                   la: Lookaheads, over: Successors)
    requires Predicts(lr, z, before, la, over) && |lists| == |before|
    requires forall s :: 0 <= s < |lists| ==> NoConflict(before[s], lists[s])
    requires RulesOf(lr.g, rules)
    ensures ServesAll(lr, ListMachine(z, rules, lists), la)
  {
    var m := ListMachine(z, rules, lists);
    forall s: nat, i | s < m.g.nstate && i in lr.items(s) ensures Serves(lr, m, la, s, i) {
      ListServes(lr, z, rules, before, lists, la, over, s, i);
    }
    StillFound(before[0], lists[0], Action(Accept, lr.start, 0));
    ListActs(z, rules, lists, 0, Action(Accept, lr.start, 0));
  }

  /** The parser generated for a grammar without conflicts, running on the compressed and
      packed tables, accepts every sentence but the empty one, if its tree fits into the stack. */
  lemma GeneratedParserIsComplete(lr: Automaton, z: Sizes, rules: seq<Rule>, before: seq<seq<Action>>,
                                  lists: seq<seq<Action>>,
                                  lists': seq<seq<Action>>, t: Packed, la: Lookaheads, over: Successors,
                                  w: seq<nat>, f: Forest) returns (n: nat)
    requires Predicts(lr, z, before, la, over) && |lists| == |before|
    requires forall s :: 0 <= s < |lists| ==> NoConflict(before[s], lists[s])
    requires RulesOf(lr.g, rules)
    requires AllCompressed(z, lists, lists') && Generated(z, lists', t)
    requires Sentence(lr.g, w) && |w| > 1 && Parsable(lr.g, lr.start, w[..|w| - 1], f)
    ensures Run(TableMachine(z, rules, t), Begin(w), n).status ==
            if 1 + Height(f) > STACK_DEPTH then Overflow else Accepted
  {
    ListsServe(lr, z, rules, before, lists, la, over);
    n := AcceptsEverySentence(lr, ListMachine(z, rules, lists), la, w, f);
    ParsesAlike(z, rules, lists, lists', t, Begin(w), n);
  }

  /** A run ends in one way only. */
  lemma EndsOnce(m: Machine, c: Config, a: nat, b: nat)
    requires Run(m, c, a).status != Running && Run(m, c, b).status != Running
    ensures Run(m, c, a) == Run(m, c, b)
  {
    RunOn(m, c, a, b);
    RunOn(m, c, b, a);
  }

  /** Together with soundness: the generated parser accepts an input exactly if it is not empty
      and has a tree of the start symbol that fits into the stack; the empty input is not even
      looked at. */
  lemma GeneratedParserDecides(lr: Automaton, z: Sizes, rules: seq<Rule>, before: seq<seq<Action>>,
                               lists: seq<seq<Action>>,
                               lists': seq<seq<Action>>, t: Packed, la: Lookaheads, over: Successors,
                               w: seq<nat>)
    requires Labelled(lr, z, before) && Predicts(lr, z, before, la, over) && |lists| == |before|
    requires forall s :: 0 <= s < |lists| ==> NoConflict(before[s], lists[s])
    requires RulesOf(lr.g, rules)
    requires AllCompressed(z, lists, lists') && Generated(z, lists', t) && Sentence(lr.g, w)
    ensures (exists n: nat :: Run(TableMachine(z, rules, t), Begin(w), n).status == Accepted) <==>
            |w| > 1 && exists f :: Parsable(lr.g, lr.start, w[..|w| - 1], f) && 1 + Height(f) <= STACK_DEPTH
  {
    var m, text := TableMachine(z, rules, t), w[..|w| - 1];
    forall n: nat | Run(m, Begin(w), n).status == Accepted
      ensures |w| > 1 && exists f :: Parsable(lr.g, lr.start, text, f) && 1 + Height(f) <= STACK_DEPTH
    {
      var f := AcceptedHasTree(lr, z, rules, before, lists, lists', t, w, n);
      var n' := GeneratedParserIsComplete(lr, z, rules, before, lists, lists', t, la, over, w, f);
      EndsOnce(m, Begin(w), n, n');
    }
    if f :| |w| > 1 && Parsable(lr.g, lr.start, text, f) && 1 + Height(f) <= STACK_DEPTH {
      var n := GeneratedParserIsComplete(lr, z, rules, before, lists, lists', t, la, over, w, f);
    }
  }

  lemma AcceptedHasTree(lr: Automaton, z: Sizes, rules: seq<Rule>, before: seq<seq<Action>>, lists: seq<seq<Action>>,
                        lists': seq<seq<Action>>, t: Packed, w: seq<nat>, n: nat) returns (f: Forest)
    requires Labelled(lr, z, before) && |lists| == |before|
    requires forall s :: 0 <= s < |lists| ==> NoConflict(before[s], lists[s])
    requires RulesOf(lr.g, rules)
    requires AllCompressed(z, lists, lists') && Generated(z, lists', t) && Sentence(lr.g, w)
    requires Run(TableMachine(z, rules, t), Begin(w), n).status == Accepted
    ensures |w| > 1 && Parsable(lr.g, lr.start, w[..|w| - 1], f)
  {
    forall s | 0 <= s < |before| ensures Resolved(before[s], lists[s]) { assert NoConflict(before[s], lists[s]); }
    ResolvedIsLabelled(lr, z, before, lists);
    GeneratedParserIsSound(lr, z, rules, lists, lists', t, w, n);
    var steps: nat :| D.Derives(lr.g, [lr.start], w[..|w| - 1], steps);
    f := DerivationHasForest(lr.g, [lr.start], w[..|w| - 1], steps);
  }

  // ----- the follow sets -----

  /** Configurations are numbered; `first` is what Configlist_closure and FindStates put into
      their sets, and `links` where they and buildshifts link them. */
  ghost predicate Wires(g: D.Grammar, over: Successors, config: (nat, Item) -> nat, first: seq<set<nat>>,
                        links: seq<seq<nat>>,
                        s: nat, i: Item)
    requires |first| == |links|
  {
    var c := config(s, i);
    c < |links| && (InRule(g, i) && i.dot < |g.rules[i.rule].rhs| ==>
      var x, rest := g.rules[i.rule].rhs[i.dot], g.rules[i.rule].rhs[i.dot + 1..];
      && config(over(s, x), Item(i.rule, i.dot + 1)) in links[c]
      && forall r: nat :: r < |g.rules| && g.rules[r].lhs == x ==> WiresRule(g, config, first, links, s, c, r, rest))
  }

  ghost predicate WiresRule(g: D.Grammar, config: (nat, Item) -> nat, first: seq<set<nat>>, links: seq<seq<nat>>,
                            s: nat, c: nat, r: nat, rest: seq<nat>)
    requires |first| == |links| && c < |links|
  {
    var d := config(s, Item(r, 0));
    && d < |links| && (D.Vanishes(g, rest) ==> d in links[c])
    && forall t: nat :: t < g.nterminal && D.Begins(g, rest, t) ==> t in first[d]
  }

  lemma SourcedAtOnce(first: seq<set<nat>>, links: seq<seq<nat>>, t: nat, c: nat)
    requires |first| == |links| && c < |links| && t in first[c]
    ensures LemonFollow.Sourced(first, links, t, c)
  {
    assert LemonFollow.Carries(first, links, t, c, [c]);
  }

  /** The sets FindFollowSets ends with tell every item what may follow it. */
  lemma FollowSetsSpread(g: D.Grammar, over: Successors, config: (nat, Item) -> nat, first: seq<set<nat>>,
                         links: seq<seq<nat>>,
                         sets: seq<set<nat>>, la: Lookaheads, s: nat, i: Item)
    requires LemonFollow.LinksOk(links) && |first| == |links| == |sets| && Wires(g, over, config, first, links, s, i)
    requires forall c, t: nat :: 0 <= c < |sets| ==> (t in sets[c] <==> LemonFollow.Sourced(first, links, t, c))
    requires forall s, i :: config(s, i) < |sets| ==> la(s, i) == sets[config(s, i)]
    ensures Spreads(g, la, over, s, i)
  {
    var c := config(s, i);
    if InRule(g, i) && i.dot < |g.rules[i.rule].rhs| {
      var x, rest := g.rules[i.rule].rhs[i.dot], g.rules[i.rule].rhs[i.dot + 1..];
      var next := config(over(s, x), Item(i.rule, i.dot + 1));
      forall t | t in la(s, i) ensures t in la(over(s, x), Item(i.rule, i.dot + 1)) {
        LemonFollow.Extend(first, links, t, c, next);
      }
      forall r: nat, t: nat | r < |g.rules| && g.rules[r].lhs == x && t < g.nterminal && MayCome(g, rest, la(s, i), t)
        ensures t in la(s, Item(r, 0))
      {
        assert WiresRule(g, config, first, links, s, c, r, rest);
        FollowsRule(g, config, first, links, sets, la, s, c, r, rest, t);
      }
    }
  }

  lemma FollowsRule(g: D.Grammar, config: (nat, Item) -> nat, first: seq<set<nat>>, links: seq<seq<nat>>,
                    sets: seq<set<nat>>,
                    la: Lookaheads, s: nat, c: nat, r: nat, rest: seq<nat>, t: nat)
    requires LemonFollow.LinksOk(links) && |first| == |links| == |sets| && c < |links|
    requires forall c, t: nat :: 0 <= c < |sets| ==> (t in sets[c] <==> LemonFollow.Sourced(first, links, t, c))
    requires forall s, i :: config(s, i) < |sets| ==> la(s, i) == sets[config(s, i)]
    requires WiresRule(g, config, first, links, s, c, r, rest) && t < g.nterminal && MayCome(g, rest, sets[c], t)
    ensures t in la(s, Item(r, 0))
  {
    var d := config(s, Item(r, 0));
    if D.Begins(g, rest, t) {
      SourcedAtOnce(first, links, t, d);
    } else {
      LemonFollow.Extend(first, links, t, c, d);
    }
  }

  lemma SmallPredicts()
    ensures Predicts(Small(), Sizes(2, 1, 2, 3), SMALL_LISTS, (s: nat, i: Item) => {0}, (s: nat, x: nat) => 1)
  {
  }
}
