/**
 * Whether a generated parser comes to an end.  Every step that leaves it running adds a token
 * or a node to the trees on its stack, and in a grammar without cycles their size is bounded;
 * so every input is accepted, rejected or too deep for the stack, although compression has
 * turned errors into reductions.  With a cycle a parser can reduce for ever.
 */
module LemonEnds {
  import opened Options
  import opened LemonActions
  import opened LemonCompress
  import opened LemonTables
  import opened LemonDriver
  import opened LemonSound
  import opened LemonComplete
  import opened ParseForest
  import opened ForestSize
  import D = Derivations

  /** Trees with n tokens and nodes in all. */
  ghost predicate Trees(g: D.Grammar, form: seq<nat>, text: seq<nat>, f: Forest, n: nat) {
    Fits(g, f) && Roots(g, f) == form && Text(f) == text && Nodes(f) + |text| == n
  }

  lemma AddToken(g: D.Grammar, form: seq<nat>, text: seq<nat>, f: Forest, n: nat, t: nat) returns (f': Forest)
    requires Trees(g, form, text, f, n) && t < g.nterminal
    ensures Trees(g, form + [t], text + [t], f', n + 1)
  {
    f' := Add(g, f, t);
  }

  lemma AddNode(g: D.Grammar, front: seq<nat>, r: nat, text: seq<nat>, f: Forest, n: nat) returns (f': Forest)
    requires r < |g.rules| && Trees(g, front + g.rules[r].rhs, text, f, n)
    ensures Trees(g, front + [g.rules[r].lhs], text, f', n + 1)
  {
    var roots, rhs, i := Roots(g, f), g.rules[r].rhs, |front|;
    assert roots[i..i + |rhs|] == rhs && roots[i + |rhs|..] == [] && roots[..i] == front;
    f' := Gather(g, f, i, r);
    assert front + [g.rules[r].lhs] + [] == front + [g.rules[r].lhs];
  }

  /** The trees on the stack, made in n steps. */
  ghost predicate Built(lr: Automaton, m: Machine, w: seq<nat>, c: Config, f: Forest, n: nat) {
    && Parsing(lr, m, w, c) && |c.stack| <= STACK_DEPTH
    && Trees(lr.g, Symbols(c.stack), w[..|w| - |c.input|], f, n)
  }

  lemma ShiftMoves(lr: Automaton, m: Machine, w: seq<nat>, c: Config)
    requires Respects(lr, m) && Sentence(lr.g, w) && Parsing(lr, m, w, c) && c.status == Running
    requires 0 <= m.act(c.stack[|c.stack| - 1].state, c.input[0]) < m.g.nstate && StepParser(m, c).status == Running
    ensures var d, k := StepParser(m, c), |w| - |c.input|;
            && Parsing(lr, m, w, d) && |d.stack| <= STACK_DEPTH && |d.input| == |c.input| - 1
            && Symbols(d.stack) == Symbols(c.stack) + [w[k]] && w[..k + 1] == w[..k] + [w[k]] && w[k] < lr.g.nterminal
  {
    ShiftKeeps(lr, m, w, c);
    var k := |w| - |c.input|;
    var t, top := w[k], c.stack[|c.stack| - 1].state;
    assert c.input[0] == t && MayAct(m, top, t);
    EdgeSymbol(lr, top, t, m.act(top, t));
    ClimbMore(lr, m, c.stack, t, m.act(top, t));
  }

  lemma ReduceMoves(lr: Automaton, m: Machine, w: seq<nat>, c: Config, r: nat) returns (front: seq<nat>)
    requires Respects(lr, m) && Sentence(lr.g, w) && Parsing(lr, m, w, c) && c.status == Running && r < |lr.g.rules|
    requires EndOf(lr.g, r) in lr.items(c.stack[|c.stack| - 1].state)
    requires lr.g.rules[r].lhs == lr.start ==> c.input[0] == 0
    requires ReduceBy(m, c, r).status == Running
    ensures var d := ReduceBy(m, c, r);
            && Parsing(lr, m, w, d) && |d.stack| <= STACK_DEPTH && d.input == c.input
            && Symbols(c.stack) == front + lr.g.rules[r].rhs && Symbols(d.stack) == front + [lr.g.rules[r].lhs]
  {
    ReduceKeeps(lr, m, w, c, r);
    var rest := BelowHandle(lr, m, c.stack, r);
    var x := lr.g.rules[r].lhs;
    assert GoesOn(lr, m, rest[|rest| - 1].state, r);
    var a := m.goto(rest[|rest| - 1].state, x);
    ClimbMore(lr, m, rest, x, a);
    front := Symbols(rest);
    assert ReduceBy(m, c, r).stack == rest + [Frame(a, x)];
  }

  /** One step that leaves the parser running. */
  lemma StepBuilds(lr: Automaton, m: Machine, w: seq<nat>, c: Config, d: Config, f: Forest, n: nat) returns (f': Forest)
    requires Respects(lr, m) && Sentence(lr.g, w) && Built(lr, m, w, c, f, n) && c.status == Running
    requires d == StepParser(m, c) && d.status == Running
    ensures Built(lr, m, w, d, f', n + 1)
  {
    var k, text := |w| - |c.input|, w[..|w| - |c.input|];
    var shifts, r, front := StepMoves(lr, m, w, c, d);
    if shifts {
      f' := AddToken(lr.g, Symbols(c.stack), text, f, n, w[k]);
    } else {
      f' := AddNode(lr.g, front, r, text, f, n);
    }
  }

  /** It shifts a token or reduces by a rule. */
  lemma StepMoves(lr: Automaton, m: Machine, w: seq<nat>, c: Config, d: Config)
    returns (shifts: bool, r: nat, front: seq<nat>)
    requires Respects(lr, m) && Sentence(lr.g, w) && Parsing(lr, m, w, c) && c.status == Running
    requires d == StepParser(m, c) && d.status == Running
    ensures Parsing(lr, m, w, d) && |d.stack| <= STACK_DEPTH
    ensures var k := |w| - |c.input|;
            if shifts
            then |d.input| == |c.input| - 1 && w[..k + 1] == w[..k] + [w[k]] && w[k] < lr.g.nterminal &&
                 Symbols(d.stack) == Symbols(c.stack) + [w[k]]
            else d.input == c.input && r < |lr.g.rules| && Symbols(c.stack) == front + lr.g.rules[r].rhs &&
                 Symbols(d.stack) == front + [lr.g.rules[r].lhs]
  {
    var top, t := c.stack[|c.stack| - 1].state, c.input[0];
    assert t == w[|w| - |c.input|];
    assert MayAct(m, top, t);
    assert ActsOn(lr, m, top, t);
    var a := m.act(top, t);
    shifts, r, front := 0 <= a < m.g.nstate, 0, [];
    if shifts {
      ShiftMoves(lr, m, w, c);
    } else {
      r := a - m.g.nstate;
      front := ReduceMoves(lr, m, w, c, r);
    }
  }

  ghost predicate HasBuilt(lr: Automaton, m: Machine, w: seq<nat>, c: Config, n: nat) {
    exists f :: Built(lr, m, w, c, f, n)
  }

  lemma OneBuiltMore(lr: Automaton, m: Machine, w: seq<nat>, c: Config, d: Config, n: nat)
    requires Respects(lr, m) && Sentence(lr.g, w) && HasBuilt(lr, m, w, c, n) && c.status == Running
    requires d == StepParser(m, c) && d.status == Running
    ensures HasBuilt(lr, m, w, d, n + 1)
  {
    var f :| Built(lr, m, w, c, f, n);
    var f' := StepBuilds(lr, m, w, c, d, f, n);
  }

  /** What every step counts, a run that is still running has counted. */
  lemma {:induction false} RunCounts(m: Machine, counts: (Config, nat) -> bool, c: Config, n: nat, k: nat)
    requires counts(c, n) && Run(m, c, k).status == Running
    requires forall d, i: nat :: counts(d, i) && d.status == Running && StepParser(m, d).status == Running ==>
      counts(StepParser(m, d), i + 1)
    ensures counts(Run(m, c, k), n + k)
    decreases k
  {
    if k > 0 {
      var d := StillRunning(m, c, k);
      RunCounts(m, counts, d, n + 1, k - 1);
    }
  }

  /** A run of k steps that is still running has built k tokens and nodes. */
  lemma RunBuilds(lr: Automaton, m: Machine, w: seq<nat>, k: nat)
    requires Respects(lr, m) && Sentence(lr.g, w) && HasBuilt(lr, m, w, Begin(w), 0)
    requires Run(m, Begin(w), k).status == Running
    ensures HasBuilt(lr, m, w, Run(m, Begin(w), k), k)
  {
    var counts := (d: Config, i: nat) => HasBuilt(lr, m, w, d, i);
    forall d, i: nat | counts(d, i) && d.status == Running && StepParser(m, d).status == Running
      ensures counts(StepParser(m, d), i + 1)
    {
      OneBuiltMore(lr, m, w, d, StepParser(m, d), i);
    }
    RunCounts(m, counts, Begin(w), 0, k);
  }

  lemma StillRunning(m: Machine, c: Config, k: nat) returns (d: Config)
    requires k > 0 && Run(m, c, k).status == Running
    ensures c.status == Running && d == StepParser(m, c) && d.status == Running && Run(m, c, k) == Run(m, d, k - 1)
  {
    d := StepParser(m, c);
    assert Run(m, d, k - 1) == Run(m, c, k);
  }

  /** How long a parser can run on an input. */
  function LongestRun(g: D.Grammar, w: seq<nat>): nat { |w| + Largest(g, STACK_DEPTH, |w|) }

  /** A parser that respects the items of a grammar without cycles ends on every input. */
  lemma EveryRunEnds(lr: Automaton, m: Machine, w: seq<nat>)
    requires Respects(lr, m) && Sentence(lr.g, w) && !Cyclic(lr.g)
    ensures Run(m, Begin(w), LongestRun(lr.g, w) + 1).status != Running
  {
    var c, k := Begin(w), LongestRun(lr.g, w) + 1;
    if Run(m, c, k).status == Running {
      var none: seq<nat> := [];
      assert Symbols(c.stack) == none && w[..0] == none && w[0..] == w;
      assert D.Derives(lr.g, none, none, 0);
      assert Built(lr, m, w, c, Nil, 0);
      RunBuilds(lr, m, w, k);
      var f :| Built(lr, m, w, Run(m, c, k), f, k);
      ForestSizeBound(lr.g, f, STACK_DEPTH, |w|);
    }
  }

  /** The parser generated from the action lists of an LR automaton, conflicts resolved or not,
      ends on every input if the grammar has no cycle. */
  lemma GeneratedParserEnds(lr: Automaton, z: Sizes, rules: seq<Rule>, lists: seq<seq<Action>>,
                            lists': seq<seq<Action>>, t: Packed, w: seq<nat>)
    requires Labelled(lr, z, lists) && AllCompressed(z, lists, lists') && Generated(z, lists', t)
    requires RulesOf(lr.g, rules) && Sentence(lr.g, w) && !Cyclic(lr.g)
    ensures Run(TableMachine(z, rules, t), Begin(w), LongestRun(lr.g, w) + 1).status in
            {Accepted, SyntaxError, Overflow, Ignored}
  {
    TableRespects(lr, z, rules, lists, lists', t);
    EveryRunEnds(lr, TableMachine(z, rules, t), w);
    GeneratedParserIsSound(lr, z, rules, lists, lists', t, w, LongestRun(lr.g, w) + 1);
  }

  /** So without conflicts and cycles every input comes to its verdict: the empty one is ignored,
      one with a tree that fits into the stack is accepted, every other one is a syntax error or
      too deep. */
  lemma GeneratedParserSettles(lr: Automaton, z: Sizes, rules: seq<Rule>, before: seq<seq<Action>>,
                               lists: seq<seq<Action>>, lists': seq<seq<Action>>, t: Packed, la: Lookaheads,
                               over: Successors, w: seq<nat>)
    requires Labelled(lr, z, before) && Predicts(lr, z, before, la, over) && |lists| == |before|
    requires forall s :: 0 <= s < |lists| ==> NoConflict(before[s], lists[s])
    requires AllCompressed(z, lists, lists') && Generated(z, lists', t) && RulesOf(lr.g, rules)
    requires Sentence(lr.g, w) && !Cyclic(lr.g)
    ensures var d := Run(TableMachine(z, rules, t), Begin(w), LongestRun(lr.g, w) + 1);
            && (d.status == Ignored <==> |w| == 1)
            && (d.status == Accepted <==>
                |w| > 1 && exists f :: Parsable(lr.g, lr.start, w[..|w| - 1], f) && 1 + Height(f) <= STACK_DEPTH)
            && (d.status == Ignored || d.status == Accepted || d.status == SyntaxError || d.status == Overflow)
  {
    forall s | 0 <= s < |before| ensures Resolved(before[s], lists[s]) { assert NoConflict(before[s], lists[s]); }
    ResolvedIsLabelled(lr, z, before, lists);
    var m, k := TableMachine(z, rules, t), LongestRun(lr.g, w) + 1;
    GeneratedParserEnds(lr, z, rules, lists, lists', t, w);
    GeneratedParserDecides(lr, z, rules, before, lists, lists', t, la, over, w);
    if n: nat :| Run(m, Begin(w), n).status == Accepted { EndsOnce(m, Begin(w), n, k); }
    OnlyEmptyIsIgnored(m, w, k);
  }

  lemma OnlyEmptyIsIgnored(m: Machine, w: seq<nat>, n: nat)
    requires w != [] && (forall k :: 0 <= k < |w| - 1 ==> w[k] != 0) && w[|w| - 1] == 0
    ensures Run(m, Begin(w), n).status == Ignored <==> |w| == 1
  {
    var fine := (d: Config) => d.status != Ignored;
    if |w| > 1 { RunKeeps(m, fine, Begin(w), n); }
  }

  // ----- a cycle -----

  /** The start symbol 2 derives 3, which derives itself and the token 1. */
  function Looping(): Automaton {
    var rules := [D.Rule(2, [3]), D.Rule(3, [3]), D.Rule(3, [1])];
    Automaton(D.Grammar(rules, 2, 4), 2, LoopingItems)
  }

  function LoopingItems(s: nat): set<Item> {
    if s == 0 then {Item(0, 0), Item(1, 0), Item(2, 0)}
    else if s == 1 then {Item(0, 1), Item(1, 1)}
    else {Item(2, 1)}
  }

  /** The reduction by the rule of the cycle has won over that by the start rule. */
  const LOOPING_LISTS: seq<seq<Action>> :=
    [[Action(Shift, 3, 1), Action(Shift, 1, 2), Action(Accept, 2, 0)], [Action(Reduce, 0, 1)], [Action(Reduce, 0, 2)]]

  const LOOPING_SIZES: Sizes := Sizes(3, 3, 2, 4)

  const LOOPING_RULES: seq<Rule> := [Rule(2, 1), Rule(3, 1), Rule(3, 1)]

  /** After its first two steps the parser is where each further step leaves it. */
  ghost predicate AtLoop(c: Config) {
    c.status == Running && c.stack == [Frame(0, 0), Frame(1, 3)] && c.input == [0]
  }

  lemma LoopStep(m: Machine, c: Config)
    requires m == ListMachine(LOOPING_SIZES, LOOPING_RULES, LOOPING_LISTS) && AtLoop(c)
    ensures AtLoop(StepParser(m, c))
  {
    assert m.act(1, 0) == 4 && m.goto(0, 3) == 1;
    assert c.stack[..1] == [Frame(0, 0)];
  }

  lemma LoopStart(m: Machine)
    requires m == ListMachine(LOOPING_SIZES, LOOPING_RULES, LOOPING_LISTS)
    ensures var d := StepParser(m, Begin([1, 0])); d.status == Running && AtLoop(StepParser(m, d))
  {
    assert m.act(0, 1) == 2 && m.act(2, 0) == 5 && m.goto(0, 3) == 1;
    var d := StepParser(m, Begin([1, 0]));
    assert d.stack == [Frame(0, 0), Frame(2, 1)] && d.input == [0];
    assert d.stack[..1] == [Frame(0, 0)];
  }

  /** The three configurations the parser is ever in. */
  ghost predicate InLoop(c: Config, first: Config, second: Config) {
    c == first || c == second || AtLoop(c)
  }

  lemma LoopsOnLists(m: Machine, n: nat)
    requires m == ListMachine(LOOPING_SIZES, LOOPING_RULES, LOOPING_LISTS)
    ensures Run(m, Begin([1, 0]), n).status == Running
  {
    LoopStart(m);
    var first := Begin([1, 0]);
    var second := StepParser(m, first);
    var keeps := (c: Config) => InLoop(c, first, second);
    forall c | keeps(c) && c.status == Running ensures keeps(StepParser(m, c)) {
      if AtLoop(c) { LoopStep(m, c); }
    }
    RunKeeps(m, keeps, first, n);
  }

  /** With a cycle the parser can run for ever, on the lists and on every table packed from them. */
  lemma CyclicCanLoop(z: Sizes, lists': seq<seq<Action>>, t: Packed, w: seq<nat>, n: nat)
    requires z == LOOPING_SIZES && AllCompressed(z, LOOPING_LISTS, lists') && Generated(z, lists', t) && w == [1, 0]
    ensures Run(TableMachine(z, LOOPING_RULES, t), Begin(w), n).status == Running
  {
    LoopsOnLists(ListMachine(LOOPING_SIZES, LOOPING_RULES, LOOPING_LISTS), n);
    LoopsAlike(z, LOOPING_RULES, LOOPING_LISTS, lists', t, w, n);
  }

  lemma LoopsAlike(z: Sizes, rules: seq<Rule>, lists: seq<seq<Action>>, lists': seq<seq<Action>>, t: Packed,
                   w: seq<nat>, n: nat)
    requires AllCompressed(z, lists, lists') && Generated(z, lists', t) && GrammarRules(z, rules)
    requires (forall k :: 0 <= k < |w| ==> w[k] < z.nterminal)
    requires Run(ListMachine(z, rules, lists), Begin(w), n).status == Running
    ensures Run(TableMachine(z, rules, t), Begin(w), n).status == Running
  {
    ParsesAlike(z, rules, lists, lists', t, Begin(w), n);
  }

  lemma LoopingIsLabelled()
    ensures Labelled(Looping(), LOOPING_SIZES, LOOPING_LISTS) && Cyclic(Looping().g)
  {
    var lr := Looping();
    D.OneStep(lr.g, 1);
    assert Reach(lr.g, [3], [3]);
    forall s, k | 0 <= s < |LOOPING_LISTS| && 0 <= k < |LOOPING_LISTS[s]|
      ensures Sanctioned(lr, s, LOOPING_LISTS[s][k])
    {
      LoopingSanctioned(s, k);
    }
    forall s: nat, r: nat | s < |LOOPING_LISTS| && r < |lr.g.rules| && Item(r, 0) in lr.items(s)
      ensures Expects(lr.g, LOOPING_LISTS[s], r)
    {
      LoopingExpects(s, r);
    }
  }

  lemma LoopingSanctioned(s: nat, k: nat)
    requires s < |LOOPING_LISTS| && k < |LOOPING_LISTS[s]|
    ensures Sanctioned(Looping(), s, LOOPING_LISTS[s][k])
  {
    var lr := Looping();
    assert Item(0, 1) in lr.items(1) && Edge(lr, 0, 3, 1);
    assert Item(2, 1) in lr.items(2) && Edge(lr, 0, 1, 2);
  }

  lemma LoopingExpects(s: nat, r: nat)
    requires s < |LOOPING_LISTS| && r < 3 && Item(r, 0) in Looping().items(s)
    ensures Expects(Looping().g, LOOPING_LISTS[s], r)
  {
    assert s == 0;
  }
}
