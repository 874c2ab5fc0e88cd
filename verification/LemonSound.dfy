/**
 * What a generated parser accepts.  The states of an LR automaton stand for sets of items;
 * if the action lists respect them, as the state builder of lemon.c makes them, then the
 * parser running on the compressed and packed tables accepts sentences of the grammar only,
 * although compression replaces errors by reductions.
 */
module LemonSound {
  import opened Options
  import opened LemonActions
  import opened LemonCompress
  import opened LemonTables
  import opened LemonDriver
  import D = Derivations

  /** Rule r with the dot before position d. */
  datatype Item = Item(rule: nat, dot: nat)

  type Items = nat -> set<Item>

  /** A grammar, its start symbol and the items of the states. */
  datatype Automaton = Automaton(g: D.Grammar, start: nat, items: Items)

  predicate InRule(g: D.Grammar, i: Item) {
    i.rule < |g.rules| && i.dot <= |g.rules[i.rule].rhs|
  }

  /** Going from s to s' over x moves the dot of every item of s' that is not at the start. */
  ghost predicate Edge(lr: Automaton, s: nat, x: int, s': nat) {
    && (forall i :: i in lr.items(s') && i.dot > 0 ==>
          InRule(lr.g, i) && lr.g.rules[i.rule].rhs[i.dot - 1] == x && Item(i.rule, i.dot - 1) in lr.items(s))
    && exists i :: i in lr.items(s') && i.dot > 0
  }

  function EndOf(g: D.Grammar, r: nat): Item
    requires r < |g.rules|
  {
    Item(r, |g.rules[r].rhs|)
  }

  /** The end marker and the start symbol occur in no right-hand side. */
  ghost predicate Rooted(g: D.Grammar, start: nat) {
    && D.WellFormed(g) && 0 < g.nterminal <= start < g.nsymbol
    && forall r, i :: 0 <= r < |g.rules| && 0 <= i < |g.rules[r].rhs| ==>
      g.rules[r].rhs[i] != 0 && g.rules[r].rhs[i] != start
  }

  /** The rules as the driver knows them. */
  ghost predicate RulesOf(g: D.Grammar, rules: seq<Rule>) {
    |rules| == |g.rules| && forall r :: 0 <= r < |rules| ==> rules[r] == Rule(g.rules[r].lhs, |g.rules[r].rhs|)
  }

  // ----- parsers that respect their items -----

  predicate MayAct(m: Machine, s: nat, t: int) {
    s < m.g.nstate && 0 <= t < m.g.nterminal
  }

  ghost predicate ActsOn(lr: Automaton, m: Machine, s: nat, t: int) {
    var a := m.act(s, t);
    if 0 <= a < m.g.nstate then Edge(lr, s, t, a)
    else if m.g.nstate <= a < m.g.nstate + |lr.g.rules| then
      EndOf(lr.g, a - m.g.nstate) in lr.items(s) && (lr.g.rules[a - m.g.nstate].lhs == lr.start ==> t == 0)
    else a == m.g.nstate + |lr.g.rules|
  }

  ghost predicate GoesOn(lr: Automaton, m: Machine, s: nat, r: nat)
    requires r < |lr.g.rules|
  {
    var x, a := lr.g.rules[r].lhs, m.goto(s, lr.g.rules[r].lhs);
    if 0 <= a < m.g.nstate then Edge(lr, s, x, a) else a == m.g.nstate + |lr.g.rules| + 1 && s == 0 && x == lr.start
  }

  /** Every shift follows an edge, every reduction is by a rule whose end is an item of the
      state, the start rules only before the end marker, and every goto there is a reason
      for exists. */
  ghost predicate Respects(lr: Automaton, m: Machine) {
    && Rooted(lr.g, lr.start) && m.g.nterminal == lr.g.nterminal && m.g.nsymbol == lr.g.nsymbol && m.g.nstate > 0
    && |lr.g.rules| == m.g.nrule && RulesOf(lr.g, m.rules)
    && (forall i :: i in lr.items(0) ==> i.dot == 0)
    && (forall s: nat, t :: MayAct(m, s, t) ==> ActsOn(lr, m, s, t))
    && forall s: nat, r: nat :: s < m.g.nstate && r < |lr.g.rules| && Item(r, 0) in lr.items(s) ==> GoesOn(lr, m, s, r)
  }

  // ----- the stack -----

  /** Each frame is reached by an edge from the one below; the bottom is the first state. */
  ghost predicate Climbs(lr: Automaton, m: Machine, stack: seq<Frame>) {
    && stack != [] && stack[0].state == 0
    && (forall k :: 0 <= k < |stack| ==> stack[k].state < m.g.nstate && stack[k].major >= 0)
    && forall k :: 0 < k < |stack| ==> Rung(lr, stack, k)
  }

  ghost predicate Rung(lr: Automaton, stack: seq<Frame>, k: nat)
    requires 0 < k < |stack|
  {
    Edge(lr, stack[k - 1].state, stack[k].major, stack[k].state)
  }

  /** The symbols above the bottom frame. */
  function Symbols(stack: seq<Frame>): (s: seq<nat>)
    requires stack != [] && forall k :: 0 <= k < |stack| ==> stack[k].major >= 0
    ensures |s| == |stack| - 1
  {
    seq(|stack| - 1, k requires 0 <= k < |stack| - 1 => stack[k + 1].major)
  }

  lemma ClimbMore(lr: Automaton, m: Machine, stack: seq<Frame>, x: nat, a: nat)
    requires Climbs(lr, m, stack) && a < m.g.nstate && Edge(lr, stack[|stack| - 1].state, x, a)
    ensures Climbs(lr, m, stack + [Frame(a, x)]) && Symbols(stack + [Frame(a, x)]) == Symbols(stack) + [x]
  {
    var more := stack + [Frame(a, x)];
    forall k | 0 < k < |more| ensures Rung(lr, more, k) {
      assert k < |stack| ==> Rung(lr, stack, k);
    }
  }

  lemma ClimbLess(lr: Automaton, m: Machine, stack: seq<Frame>, k: nat)
    requires Climbs(lr, m, stack) && 0 < k <= |stack|
    ensures Climbs(lr, m, stack[..k]) && Symbols(stack) == Symbols(stack[..k]) + Symbols(stack)[k - 1..]
  {
    forall j | 0 < j < k ensures Rung(lr, stack[..k], j) { assert Rung(lr, stack, j); }
  }

  /** What stands before the dot of an item of the top state stands on top of the stack. */
  lemma {:induction false} Handle(lr: Automaton, m: Machine, stack: seq<Frame>, i: Item)
    requires Climbs(lr, m, stack) && (forall j :: j in lr.items(0) ==> j.dot == 0)
    requires i in lr.items(stack[|stack| - 1].state) && InRule(lr.g, i)
    ensures i.dot < |stack| && Symbols(stack)[|stack| - 1 - i.dot..] == lr.g.rules[i.rule].rhs[..i.dot]
    ensures Item(i.rule, 0) in lr.items(stack[|stack| - 1 - i.dot].state)
    decreases i.dot
  {
    if i.dot > 0 {
      var n := |stack| - 1;
      assert n > 0 && Rung(lr, stack, n);
      var below := stack[..n];
      ClimbLess(lr, m, stack, n);
      Handle(lr, m, below, Item(i.rule, i.dot - 1));
      var rhs := lr.g.rules[i.rule].rhs;
      assert Symbols(stack) == Symbols(below) + [stack[n].major];
      assert rhs[..i.dot] == rhs[..i.dot - 1] + [rhs[i.dot - 1]];
    }
  }

  /** The stack without a right-hand side that ends at its top. */
  lemma BelowHandle(lr: Automaton, m: Machine, stack: seq<Frame>, r: nat) returns (rest: seq<Frame>)
    requires Climbs(lr, m, stack) && (forall j :: j in lr.items(0) ==> j.dot == 0)
    requires r < |lr.g.rules| && EndOf(lr.g, r) in lr.items(stack[|stack| - 1].state)
    ensures |lr.g.rules[r].rhs| < |stack| && rest == stack[..|stack| - |lr.g.rules[r].rhs|] && Climbs(lr, m, rest)
    ensures Symbols(stack) == Symbols(rest) + lr.g.rules[r].rhs && Item(r, 0) in lr.items(rest[|rest| - 1].state)
  {
    var rhs := lr.g.rules[r].rhs;
    Handle(lr, m, stack, EndOf(lr.g, r));
    ClimbLess(lr, m, stack, |stack| - |rhs|);
    rest := stack[..|stack| - |rhs|];
    assert rhs[..|rhs|] == rhs;
  }

  // ----- one step -----

  ghost predicate Yields(g: D.Grammar, form: seq<nat>, text: seq<nat>) {
    exists n: nat :: D.Derives(g, form, text, n)
  }

  lemma YieldsMore(g: D.Grammar, form: seq<nat>, text: seq<nat>, t: nat)
    requires Yields(g, form, text)
    ensures Yields(g, form + [t], text + [t])
  {
    var n: nat :| D.Derives(g, form, text, n);
    D.InContext(g, [], form, text, [t], n);
    assert [] + form + [t] == form + [t] && [] + text + [t] == text + [t];
  }

  /** Undoing a reduction is a step of a derivation. */
  lemma YieldsBefore(g: D.Grammar, front: seq<nat>, r: nat, text: seq<nat>)
    requires r < |g.rules| && Yields(g, front + g.rules[r].rhs, text)
    ensures Yields(g, front + [g.rules[r].lhs], text)
  {
    var n: nat :| D.Derives(g, front + g.rules[r].rhs, text, n);
    var form, i := front + [g.rules[r].lhs], |front|;
    assert D.Applies(g, form, i, r);
    assert D.Rewrite(g, form, i, r) == front + g.rules[r].rhs;
    assert D.Derives(g, form, text, n + 1);
  }

  /** Terminals and the end marker behind them. */
  ghost predicate Sentence(g: D.Grammar, w: seq<nat>) {
    && w != [] && w[|w| - 1] == 0 && (forall k :: 0 <= k < |w| ==> w[k] < g.nterminal)
    && forall k :: 0 <= k < |w| - 1 ==> w[k] != 0
  }

  /** The stack stands for what has been read. */
  ghost predicate Parsing(lr: Automaton, m: Machine, w: seq<nat>, c: Config) {
    && Climbs(lr, m, c.stack) && 0 < |c.input| <= |w| && c.input == w[|w| - |c.input|..]
    && Yields(lr.g, Symbols(c.stack), w[..|w| - |c.input|])
  }

  /** What holds after every step from a stack that stands for what has been read. */
  ghost predicate Fine(lr: Automaton, m: Machine, w: seq<nat>, d: Config) {
    match d.status
    case Running => Parsing(lr, m, w, d)
    case Accepted => d.input == [0] && w != [] && Yields(lr.g, [lr.start], w[..|w| - 1])
    case other => other != Corrupt
  }

  /** An edge goes over a symbol of some right-hand side, so not over the end marker. */
  lemma EdgeSymbol(lr: Automaton, s: nat, x: int, s': nat)
    requires Rooted(lr.g, lr.start) && Edge(lr, s, x, s')
    ensures x != 0
  {
    var i :| i in lr.items(s') && i.dot > 0;
    assert lr.g.rules[i.rule].rhs[i.dot - 1] == x;
  }

  lemma ShiftKeeps(lr: Automaton, m: Machine, w: seq<nat>, c: Config)
    requires Respects(lr, m) && Sentence(lr.g, w) && Parsing(lr, m, w, c) && c.status == Running
    requires 0 <= m.act(c.stack[|c.stack| - 1].state, c.input[0]) < m.g.nstate
    ensures Fine(lr, m, w, StepParser(m, c))
  {
    var k := |w| - |c.input|;
    var t, top := w[k], c.stack[|c.stack| - 1].state;
    assert c.input[0] == t;
    assert MayAct(m, top, t);
    var a := m.act(top, t);
    EdgeSymbol(lr, top, t, a);
    var read := c.(log := c.log + [Shifted(t, a)], input := c.input[1..]);
    assert StepParser(m, c) == Push(read, a, t);
    PushKeeps(lr, m, w, c, read, k, a);
  }

  lemma PushKeeps(lr: Automaton, m: Machine, w: seq<nat>, c: Config, read: Config, k: nat, a: nat)
    requires Sentence(lr.g, w) && Parsing(lr, m, w, c) && k == |w| - |c.input| && w[k] != 0 && c.status == Running
    requires a < m.g.nstate && Edge(lr, c.stack[|c.stack| - 1].state, w[k], a)
    requires read.stack == c.stack && read.input == c.input[1..] && read.status == Running
    ensures Fine(lr, m, w, Push(read, a, w[k]))
  {
    ClimbMore(lr, m, c.stack, w[k], a);
    YieldsMore(lr.g, Symbols(c.stack), w[..k], w[k]);
    assert w[..k + 1] == w[..k] + [w[k]] && c.input[1..] == w[k + 1..];
  }

  /** What a reduction finds: its right-hand side on top, and a goto below it. */
  lemma ReduceFinds(lr: Automaton, m: Machine, w: seq<nat>, c: Config, r: nat)
    returns (rest: seq<Frame>)
    requires Respects(lr, m) && Parsing(lr, m, w, c) && r < |lr.g.rules|
    requires EndOf(lr.g, r) in lr.items(c.stack[|c.stack| - 1].state)
    ensures |lr.g.rules[r].rhs| < |c.stack| && rest == c.stack[..|c.stack| - |lr.g.rules[r].rhs|]
    ensures Climbs(lr, m, rest) && GoesOn(lr, m, rest[|rest| - 1].state, r)
    ensures Yields(lr.g, Symbols(rest) + [lr.g.rules[r].lhs], w[..|w| - |c.input|])
  {
    rest := BelowHandle(lr, m, c.stack, r);
    YieldsBefore(lr.g, Symbols(rest), r, w[..|w| - |c.input|]);
  }

  lemma ReduceKeeps(lr: Automaton, m: Machine, w: seq<nat>, c: Config, r: nat)
    requires Respects(lr, m) && Sentence(lr.g, w) && Parsing(lr, m, w, c) && r < |lr.g.rules|
    requires EndOf(lr.g, r) in lr.items(c.stack[|c.stack| - 1].state) && c.status == Running
    requires lr.g.rules[r].lhs == lr.start ==> c.input[0] == 0
    ensures Fine(lr, m, w, ReduceBy(m, c, r))
  {
    var rest := ReduceFinds(lr, m, w, c, r);
    var p, x := rest[|rest| - 1].state, lr.g.rules[r].lhs;
    var a := m.goto(p, x);
    if 0 <= a < m.g.nstate {
      ClimbMore(lr, m, rest, x, a);
    } else {
      if |rest| > 1 { NotAboveBottom(lr, m, rest, |rest| - 1); }
      assert Symbols(rest) + [x] == [lr.start];
      AtTheEnd(lr.g, w, c.input);
    }
  }

  lemma AtTheEnd(g: D.Grammar, w: seq<nat>, input: seq<int>)
    requires Sentence(g, w) && 0 < |input| <= |w| && input == w[|w| - |input|..] && input[0] == 0
    ensures input == [0]
  {
    assert input[0] == w[|w| - |input|];
  }

  /** No edge leads back to the first state. */
  lemma NotAboveBottom(lr: Automaton, m: Machine, stack: seq<Frame>, k: nat)
    requires Climbs(lr, m, stack) && (forall i :: i in lr.items(0) ==> i.dot == 0) && 0 < k < |stack|
    ensures stack[k].state != 0
  {
    assert Rung(lr, stack, k);
  }

  lemma StepKeeps(lr: Automaton, m: Machine, w: seq<nat>, c: Config)
    requires Respects(lr, m) && Sentence(lr.g, w) && Parsing(lr, m, w, c) && c.status == Running
    ensures Fine(lr, m, w, StepParser(m, c))
  {
    var top := c.stack[|c.stack| - 1].state;
    assert c.input[0] == w[|w| - |c.input|];
    assert MayAct(m, top, c.input[0]);
    assert ActsOn(lr, m, top, c.input[0]);
    var a := m.act(top, c.input[0]);
    if 0 <= a < m.g.nstate {
      ShiftKeeps(lr, m, w, c);
    } else if a < m.g.nstate + |lr.g.rules| {
      ReduceKeeps(lr, m, w, c, a - m.g.nstate);
    }
  }

  // ----- whole runs -----

  /** What every step keeps, every run keeps. */
  lemma {:induction false} RunKeeps(m: Machine, keeps: Config -> bool, c: Config, n: nat)
    requires keeps(c) && forall d :: keeps(d) && d.status == Running ==> keeps(StepParser(m, d))
    ensures keeps(Run(m, c, n))
    decreases n
  {
    if n > 0 && c.status == Running { RunKeeps(m, keeps, StepParser(m, c), n - 1); }
  }

  /** A parser that has accepted or overflowed has emptied its stack. */
  lemma EndsEmpty(m: Machine, c: Config, n: nat)
    requires c.status == Running
    ensures var d := Run(m, c, n); d.status == Accepted || d.status == Overflow ==> d.stack == []
  {
    var empties := (d: Config) => d.status == Accepted || d.status == Overflow ==> d.stack == [];
    RunKeeps(m, empties, c, n);
  }

  /** A parser that respects its items never pops what is not there, and accepts an input only
      after reading all of it, and only if it derives from the start symbol. */
  lemma AcceptsSentencesOnly(lr: Automaton, m: Machine, w: seq<nat>, n: nat)
    requires Respects(lr, m) && Sentence(lr.g, w)
    ensures var d := Run(m, Begin(w), n);
            d.status != Corrupt && (d.status == Accepted ==> d.input == [0] && Yields(lr.g, [lr.start], w[..|w| - 1]))
  {
    if w[0] != 0 {
      var none: seq<nat> := [];
      assert Symbols(Begin(w).stack) == none && w[..0] == none && w[0..] == w;
      assert D.Derives(lr.g, none, none, 0);
    }
    var fine := d => Fine(lr, m, w, d);
    forall d | fine(d) && d.status == Running ensures fine(StepParser(m, d)) {
      StepKeeps(lr, m, w, d);
    }
    RunKeeps(m, fine, Begin(w), n);
  }

  // ----- the generated tables -----

  /** An action the state builder may give to state s. */
  ghost predicate Sanctioned(lr: Automaton, s: nat, a: Action) {
    match a.kind
    case Shift => a.arg >= 0 && Edge(lr, s, a.symbol, a.arg)
    case Reduce =>
      && 0 <= a.arg < |lr.g.rules| && EndOf(lr.g, a.arg) in lr.items(s) && 0 <= a.symbol < lr.g.nterminal
      && (lr.g.rules[a.arg].lhs == lr.start ==> a.symbol == 0)
    case Accept => s == 0 && a.symbol == lr.start
    case _ => !Usable(a)
  }

  ghost predicate Expects(g: D.Grammar, list: seq<Action>, r: nat)
    requires r < |g.rules|
  {
    Find(list, g.rules[r].lhs).Some? && Find(list, g.rules[r].lhs).value.kind in {Shift, Accept}
  }

  /** The lists of an LR automaton: its states carry items, the actions are sanctioned by them,
      and where an item starts there is a way on over its left-hand side. */
  ghost predicate Labelled(lr: Automaton, z: Sizes, lists: seq<seq<Action>>) {
    && Rooted(lr.g, lr.start) && z == Sizes(|lists|, |lr.g.rules|, lr.g.nterminal, lr.g.nsymbol) && |lists| > 0
    && (forall i :: i in lr.items(0) ==> i.dot == 0)
    && (forall s, k :: 0 <= s < |lists| && 0 <= k < |lists[s]| ==> Sanctioned(lr, s, lists[s][k]))
    && forall s: nat, r: nat :: s < |lists| && r < |lr.g.rules| && Item(r, 0) in lr.items(s) ==>
      Expects(lr.g, lists[s], r)
  }

  /** The original move on a symbol is the action on it: nothing stands on the default symbol. */
  lemma OwnMove(lr: Automaton, z: Sizes, lists: seq<seq<Action>>, s: nat, x: int)
    requires Labelled(lr, z, lists) && s < |lists|
    ensures var f := Find(lists[s], x);
            MoveOn(lists[s], z.nsymbol, x) == if f.Some? then Some(Move(f.value.kind, f.value.arg)) else None
    ensures Find(lists[s], x).Some? ==> Sanctioned(lr, s, Find(lists[s], x).value)
  {
    var f, d := Find(lists[s], x), Find(lists[s], z.nsymbol);
    if d.Some? {
      var k :| 0 <= k < |lists[s]| && lists[s][k] == d.value;
      assert Sanctioned(lr, s, d.value);
      SanctionedSymbol(lr, s, d.value);
    }
    if f.Some? {
      var k :| 0 <= k < |lists[s]| && lists[s][k] == f.value;
    }
  }

  lemma SanctionedSymbol(lr: Automaton, s: nat, a: Action)
    requires Rooted(lr.g, lr.start) && Sanctioned(lr, s, a) && Usable(a)
    ensures a.symbol < lr.g.nsymbol
  {
    if a.kind == Shift {
      var i :| i in lr.items(a.arg) && i.dot > 0;
      assert lr.g.rules[i.rule].rhs[i.dot - 1] == a.symbol;
    }
  }

  lemma {:induction false} ReducesOnce(list: seq<Action>, rule: int, i: nat)
    requires Unambiguous(list) && i <= |list|
    requires forall k :: 0 <= k < |list| && Reduces(list[k], rule) ==> list[k].symbol == 0
    ensures Count(list, rule, i) <= 1
    ensures (exists k :: 0 <= k < i && Reduces(list[k], rule)) ==> Count(list, rule, i) == 0
    decreases |list| - i
  {
    if i < |list| { ReducesOnce(list, rule, i + 1); }
  }

  /** The default of a compressed state is a reduction of the state, and not by a start rule. */
  lemma DefaultIsSanctioned(lr: Automaton, z: Sizes, lists: seq<seq<Action>>, s: nat, rule: int)
    requires Labelled(lr, z, lists) && s < |lists| && Unambiguous(lists[s]) && Count(lists[s], rule, 0) >= 2
    ensures 0 <= rule < |lr.g.rules| && EndOf(lr.g, rule) in lr.items(s) && lr.g.rules[rule].lhs != lr.start
  {
    var list := lists[s];
    CountPositive(list, rule, 0);
    var k :| 0 <= k < |list| && Reduces(list[k], rule);
    assert Sanctioned(lr, s, list[k]);
    if lr.g.rules[rule].lhs == lr.start {
      forall k | 0 <= k < |list| && Reduces(list[k], rule) ensures list[k].symbol == 0 {
        assert Sanctioned(lr, s, list[k]);
      }
      ReducesOnce(list, rule, 0);
    }
  }

  lemma TableActs(lr: Automaton, z: Sizes, rules: seq<Rule>, lists: seq<seq<Action>>, lists': seq<seq<Action>>,
                  t: Packed, s: nat, token: int)
    requires Labelled(lr, z, lists) && AllCompressed(z, lists, lists') && Generated(z, lists', t)
    requires s < z.nstate && 0 <= token < z.nterminal
    ensures ActsOn(lr, TableMachine(z, rules, t), s, token)
  {
    var m := TableMachine(z, rules, t);
    assert m.act(s, token) == MoveCode(z, MoveOn(lists'[s], z.nsymbol, token));
    assert Compressed(lists[s], lists'[s], z.nsymbol, token);
    OwnMove(lr, z, lists, s, token);
    var now := MoveOn(lists'[s], z.nsymbol, token);
    if Find(lists[s], token).Some? {
      assert Find(lists[s], token).value in lists[s];
    } else if now.Some? {
      var rule :| Count(lists[s], rule, 0) >= 2;
      assert Count(lists[s], rule, 0) <= Count(lists[s], now.value.arg, 0);
      DefaultIsSanctioned(lr, z, lists, s, now.value.arg);
    }
  }

  lemma TableGoes(lr: Automaton, z: Sizes, rules: seq<Rule>, lists: seq<seq<Action>>, lists': seq<seq<Action>>,
                  t: Packed, s: nat, r: nat)
    requires Labelled(lr, z, lists) && AllCompressed(z, lists, lists') && Generated(z, lists', t)
    requires s < z.nstate && r < |lr.g.rules| && Item(r, 0) in lr.items(s)
    ensures GoesOn(lr, TableMachine(z, rules, t), s, r)
  {
    var m, x := TableMachine(z, rules, t), lr.g.rules[r].lhs;
    assert m.goto(s, x) == MoveCode(z, MoveOn(lists'[s], z.nsymbol, x));
    assert Compressed(lists[s], lists'[s], z.nsymbol, x);
    assert Expects(lr.g, lists[s], r);
    OwnMove(lr, z, lists, s, x);
    assert Find(lists[s], x).value in lists[s];
  }

  lemma TableRespects(lr: Automaton, z: Sizes, rules: seq<Rule>, lists: seq<seq<Action>>, lists': seq<seq<Action>>,
                      t: Packed)
    requires Labelled(lr, z, lists) && AllCompressed(z, lists, lists') && Generated(z, lists', t)
    requires RulesOf(lr.g, rules)
    ensures Respects(lr, TableMachine(z, rules, t))
  {
    var m := TableMachine(z, rules, t);
    forall s: nat, token | MayAct(m, s, token) ensures ActsOn(lr, m, s, token) {
      TableActs(lr, z, rules, lists, lists', t, s, token);
    }
    forall s: nat, r: nat | s < m.g.nstate && r < |lr.g.rules| && Item(r, 0) in lr.items(s)
      ensures GoesOn(lr, m, s, r)
    {
      TableGoes(lr, z, rules, lists, lists', t, s, r);
    }
  }

  /** The parser generated from the action lists of an LR automaton, running on the compressed
      and packed tables, accepts an input only after reading all of it, and only if it is
      derived from the start symbol; and it never pops what is not there. */
  lemma GeneratedParserIsSound(lr: Automaton, z: Sizes, rules: seq<Rule>, lists: seq<seq<Action>>,
                               lists': seq<seq<Action>>, t: Packed, w: seq<nat>, n: nat)
    requires Labelled(lr, z, lists) && AllCompressed(z, lists, lists') && Generated(z, lists', t)
    requires RulesOf(lr.g, rules) && Sentence(lr.g, w)
    ensures var d := Run(TableMachine(z, rules, t), Begin(w), n);
            d.status != Corrupt && (d.status == Accepted ==> d.input == [0] && Yields(lr.g, [lr.start], w[..|w| - 1]))
  {
    TableRespects(lr, z, rules, lists, lists', t);
    AcceptsSentencesOnly(lr, TableMachine(z, rules, t), w, n);
  }

  /** Resolving conflicts keeps the labels: it takes actions away, but none on nonterminals. */
  lemma ResolvedIsLabelled(lr: Automaton, z: Sizes, before: seq<seq<Action>>, after: seq<seq<Action>>)
    requires Labelled(lr, z, before) && |after| == |before|
    requires forall s :: 0 <= s < |before| ==> Resolved(before[s], after[s])
    ensures Labelled(lr, z, after)
  {
    forall s, k | 0 <= s < |after| && 0 <= k < |after[s]| ensures Sanctioned(lr, s, after[s][k]) {
      assert Resolved(before[s], after[s]);
      var a := after[s][k];
      if Usable(a) {
        FindMember(after[s], a);
        var j :| 0 <= j < |before[s]| && before[s][j] == a;
        assert Sanctioned(lr, s, before[s][j]);
      }
    }
    forall s: nat, r: nat | s < |after| && r < |lr.g.rules| && Item(r, 0) in lr.items(s)
      ensures Expects(lr.g, after[s], r)
    {
      var x := lr.g.rules[r].lhs;
      assert Resolved(before[s], after[s]) && Expects(lr.g, before[s], r);
      assert Find(before[s], x).value in before[s];
      var a := Find(after[s], x).value;
      var j :| 0 <= j < |before[s]| && before[s][j] == a;
      assert Sanctioned(lr, s, before[s][j]);
    }
  }

  /** The automaton of the grammar with the one sentence 1, the start symbol being 2. */
  function Small(): Automaton {
    Automaton(D.Grammar([D.Rule(2, [1])], 2, 3), 2, (s: nat) => if s == 0 then {Item(0, 0)} else {Item(0, 1)})
  }

  const SMALL_LISTS: seq<seq<Action>> := [[Action(Shift, 1, 1), Action(Accept, 2, 0)], [Action(Reduce, 0, 0)]]

  lemma SmallAutomaton()
    ensures Labelled(Small(), Sizes(2, 1, 2, 3), SMALL_LISTS)
  {
    assert Item(0, 1) in Small().items(1) && Edge(Small(), 0, 1, 1);
  }
}
